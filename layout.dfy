/**
 * Where the generator puts things below the project path: the four source and
 * wrapper directories and the nine generated files, each the project path joined
 * with a path relative to it.
 */
module Layout {
  import opened Paths
  import opened Templates

  // Relative paths, as the generator spells them after `projectPath + "/"`.

  function MainJavaRel(packageName: string): string
  {
    "src/main/java/" + PackagePath(packageName)
  }

  const ResourcesRel: string := "src/main/resources"

  function TestJavaRel(packageName: string): string
  {
    "src/test/java/" + PackagePath(packageName)
  }

  const WrapperRel: string := ".mvn/wrapper"

  const PomRel: string := "pom.xml"

  function ApplicationRel(packageName: string): string
  {
    MainJavaRel(packageName) + "/Application.java"
  }

  const PropertiesRel: string := ResourcesRel + "/application.properties"
  const ReadmeRel: string := "README.md"
  const GitignoreRel: string := ".gitignore"
  const HelpRel: string := "Help.md"
  const WrapperPropertiesRel: string := WrapperRel + "/maven-wrapper.properties"
  const MvnwRel: string := "mvnw"
  const MvnwCmdRel: string := "mvnw.cmd"

  // The directories `createDirectories` makes.

  function MainJavaDir(projectPath: Path, packageName: string): Path
  {
    Join(projectPath, MainJavaRel(packageName))
  }

  function ResourcesDir(projectPath: Path): Path
  {
    Join(projectPath, ResourcesRel)
  }

  function TestJavaDir(projectPath: Path, packageName: string): Path
  {
    Join(projectPath, TestJavaRel(packageName))
  }

  function WrapperDir(projectPath: Path): Path
  {
    Join(projectPath, WrapperRel)
  }

  /** Every directory `createDirectories` leaves behind when nothing fails: the four and their ancestors. */
  function ProjectDirs(projectPath: Path, packageName: string): set<Path>
  {
    Cuts(MainJavaDir(projectPath, packageName)) + Cuts(ResourcesDir(projectPath)) +
    Cuts(TestJavaDir(projectPath, packageName)) + Cuts(WrapperDir(projectPath))
  }

  // The files the `create*` steps write.

  function PomFile(projectPath: Path): Path { Join(projectPath, PomRel) }
  function ApplicationFile(projectPath: Path, packageName: string): Path
  {
    Join(projectPath, ApplicationRel(packageName))
  }
  function PropertiesFile(projectPath: Path): Path { Join(projectPath, PropertiesRel) }
  function ReadmeFile(projectPath: Path): Path { Join(projectPath, ReadmeRel) }
  function GitignoreFile(projectPath: Path): Path { Join(projectPath, GitignoreRel) }
  function HelpFile(projectPath: Path): Path { Join(projectPath, HelpRel) }
  function WrapperPropertiesFile(projectPath: Path): Path { Join(projectPath, WrapperPropertiesRel) }
  function MvnwFile(projectPath: Path): Path { Join(projectPath, MvnwRel) }
  function MvnwCmdFile(projectPath: Path): Path { Join(projectPath, MvnwCmdRel) }

  function ProjectFiles(projectPath: Path, packageName: string): set<Path>
  {
    {PomFile(projectPath), ApplicationFile(projectPath, packageName), PropertiesFile(projectPath),
     ReadmeFile(projectPath), GitignoreFile(projectPath), HelpFile(projectPath),
     WrapperPropertiesFile(projectPath), MvnwFile(projectPath), MvnwCmdFile(projectPath)}
  }

  // ---------------------------------------------------------------------------
  // Joined paths

  lemma JoinInjective(pp: Path, a: string, b: string)
    requires Join(pp, a) == Join(pp, b)
    ensures a == b
  {
    assert a == Join(pp, a)[|pp| + 1..];
    assert b == Join(pp, b)[|pp| + 1..];
  }

  lemma JoinIsUnder(pp: Path, a: string)
    ensures IsUnder(Join(pp, a), pp)
  {
    assert Join(pp, a)[..|pp|] == pp;
  }

  /** A path joined below `pp` is an ancestor-or-self of another only if its relative part is a prefix. */
  lemma JoinCutPrefix(pp: Path, a: string, b: string)
    requires Join(pp, a) in Cuts(Join(pp, b))
    ensures a <= b
  {
    var p := Join(pp, b);
    CutShape(p, Join(pp, a));
    assert Join(pp, a) == p[..|pp| + 1 + |a|];
    assert a == Join(pp, a)[|pp| + 1..];
    assert forall k :: 0 <= k < |a| ==> a[k] == p[|pp| + 1 + k] == b[k];
  }

  /** A file named inside a subdirectory of `pp` hangs from that subdirectory. */
  lemma ParentOfNested(pp: Path, dir: string, tail: string)
    requires |tail| > 0 && tail[0] == '/'
    requires forall k :: 0 < k < |tail| ==> tail[k] != '/'
    ensures Parent(Join(pp, dir + tail)) == Join(pp, dir)
  {
    assert Join(pp, dir + tail) == Join(pp, dir) + tail;
    ParentOfTail(Join(pp, dir), tail);
  }

  // ---------------------------------------------------------------------------
  // Which layout paths the platform can name

  lemma ValidConcat(a: string, b: string)
    ensures ValidPath(a + b) <==> ValidPath(a) && ValidPath(b)
  {
    assert forall k :: 0 <= k < |a| ==> (a + b)[k] == a[k];
    assert forall k :: 0 <= k < |b| ==> (a + b)[|a| + k] == b[k];
    if ValidPath(a) && ValidPath(b) {
      forall k | 0 <= k < |a + b|
        ensures (a + b)[k] != '\0'
      {
        if |a| <= k {
          assert (a + b)[k] == b[k - |a|];
        }
      }
    }
  }

  /** `replace('.', '/')` neither removes nor introduces a NUL. */
  lemma PackagePathValid(packageName: string)
    ensures ValidPath(PackagePath(packageName)) <==> ValidPath(packageName)
  {
    var r := PackagePath(packageName);
    assert forall k :: 0 <= k < |r| ==> (r[k] == '\0' <==> packageName[k] == '\0');
  }

  /** The fixed parts of the layout hold no NUL. */
  lemma FixedPartsValid()
    ensures ValidPath("src/main/java/") && ValidPath("src/test/java/") && ValidPath("/Application.java")
    ensures ValidPath(ResourcesRel) && ValidPath(WrapperRel) && ValidPath(PomRel) && ValidPath(PropertiesRel)
    ensures ValidPath(ReadmeRel) && ValidPath(GitignoreRel) && ValidPath(HelpRel)
    ensures ValidPath(WrapperPropertiesRel) && ValidPath(MvnwRel) && ValidPath(MvnwCmdRel)
  {
  }

  /** The paths that hold the package path can be named exactly when the project path and package name can. */
  lemma PackageLayoutValid(projectPath: Path, packageName: string)
    ensures ValidPath(MainJavaDir(projectPath, packageName)) <==> ValidPath(projectPath) && ValidPath(packageName)
    ensures ValidPath(TestJavaDir(projectPath, packageName)) <==> ValidPath(projectPath) && ValidPath(packageName)
    ensures ValidPath(ApplicationFile(projectPath, packageName)) <==>
              ValidPath(projectPath) && ValidPath(packageName)
  {
    FixedPartsValid();
    PackagePathValid(packageName);
    ValidConcat("src/main/java/", PackagePath(packageName));
    ValidConcat("src/test/java/", PackagePath(packageName));
    ValidConcat(MainJavaRel(packageName), "/Application.java");
    ValidJoin(projectPath, MainJavaRel(packageName));
    ValidJoin(projectPath, TestJavaRel(packageName));
    ValidJoin(projectPath, ApplicationRel(packageName));
  }

  /** The paths built from the project path alone can be named exactly when the project path can. */
  lemma ProjectLayoutValid(projectPath: Path)
    ensures ValidPath(ResourcesDir(projectPath)) <==> ValidPath(projectPath)
    ensures ValidPath(WrapperDir(projectPath)) <==> ValidPath(projectPath)
    ensures ValidPath(PomFile(projectPath)) <==> ValidPath(projectPath)
    ensures ValidPath(PropertiesFile(projectPath)) <==> ValidPath(projectPath)
    ensures ValidPath(ReadmeFile(projectPath)) <==> ValidPath(projectPath)
    ensures ValidPath(GitignoreFile(projectPath)) <==> ValidPath(projectPath)
    ensures ValidPath(HelpFile(projectPath)) <==> ValidPath(projectPath)
    ensures ValidPath(WrapperPropertiesFile(projectPath)) <==> ValidPath(projectPath)
    ensures ValidPath(MvnwFile(projectPath)) <==> ValidPath(projectPath)
    ensures ValidPath(MvnwCmdFile(projectPath)) <==> ValidPath(projectPath)
  {
    FixedPartsValid();
    ValidJoin(projectPath, ResourcesRel);
    ValidJoin(projectPath, WrapperRel);
    ValidJoin(projectPath, PomRel);
    ValidJoin(projectPath, PropertiesRel);
    ValidJoin(projectPath, ReadmeRel);
    ValidJoin(projectPath, GitignoreRel);
    ValidJoin(projectPath, HelpRel);
    ValidJoin(projectPath, WrapperPropertiesRel);
    ValidJoin(projectPath, MvnwRel);
    ValidJoin(projectPath, MvnwCmdRel);
  }

  // ---------------------------------------------------------------------------
  // The layout is unambiguous

  /** The nine relative file names are pairwise different. */
  lemma FileRelsDistinct(packageName: string)
    ensures var rels := [PomRel, ApplicationRel(packageName), PropertiesRel, ReadmeRel, GitignoreRel,
                         HelpRel, WrapperPropertiesRel, MvnwRel, MvnwCmdRel];
      forall i, j :: 0 <= i < j < |rels| ==> rels[i] != rels[j]
  {
    var app := ApplicationRel(packageName);
    assert app[0] == 's' && app[9] == 'j';
    assert PropertiesRel[0] == 's' && PropertiesRel[9] == 'r';
    assert WrapperPropertiesRel[0] == '.' && WrapperPropertiesRel[1] == 'm';
  }

  /** No generated file is a directory `createDirectories` makes, nor an ancestor of one. */
  lemma FilesAreNotDirs(packageName: string, f: string)
    requires f in [PomRel, ApplicationRel(packageName), PropertiesRel, ReadmeRel, GitignoreRel,
                   HelpRel, WrapperPropertiesRel, MvnwRel, MvnwCmdRel]
    ensures !(f <= MainJavaRel(packageName)) && !(f <= ResourcesRel)
    ensures !(f <= TestJavaRel(packageName)) && !(f <= WrapperRel)
  {
    var main, test := MainJavaRel(packageName), TestJavaRel(packageName);
    assert main[0] == 's' && main[4] == 'm' && main[9] == 'j';
    assert test[0] == 's' && test[4] == 't';
    assert ResourcesRel[0] == 's' && ResourcesRel[9] == 'r';
    assert WrapperRel[0] == '.' && WrapperRel[1] == 'm';
    var app := ApplicationRel(packageName);
    assert app[0] == 's' && app[4] == 'm' && app[9] == 'j';
    assert |app| > |main|;
    assert PropertiesRel[0] == 's' && PropertiesRel[4] == 'm' && PropertiesRel[9] == 'r';
    assert WrapperPropertiesRel[0] == '.' && WrapperPropertiesRel[1] == 'm';
  }

  // ---------------------------------------------------------------------------
  // What the fixed texts refer to

  /** `Help.md` opens with its heading and names both wrapper scripts by the names they are written under. */
  lemma HelpNamesWrapperScripts()
    ensures HelpMd[..|HelpHeading|] == "# Help\n\n"
    ensures Contains(HelpMd, "`" + MvnwRel + "`") && Contains(HelpMd, "`" + MvnwCmdRel + "`")
  {
    var tail := " to build the project.";
    assert "`" + MvnwRel + "`" == "`mvnw`" && "`" + MvnwCmdRel + "`" == "`mvnw.cmd`";
    assert HelpMd == (HelpHeading + HelpLead) + "`mvnw`" + (" or " + "`mvnw.cmd`" + tail);
    ContainsMiddle(HelpHeading + HelpLead, "`mvnw`", " or " + "`mvnw.cmd`" + tail);
    assert HelpMd == (HelpHeading + HelpLead + "`mvnw`" + " or ") + "`mvnw.cmd`" + tail;
    ContainsMiddle(HelpHeading + HelpLead + "`mvnw`" + " or ", "`mvnw.cmd`", tail);
  }

  /** `mvnw` is a `sh` script and `mvnw.cmd` a batch script, and both run `java -jar` on `maven-wrapper.jar`. */
  lemma WrapperScriptsLaunchJar()
    ensures Mvnw[..10] == "#!/bin/sh\n" && MvnwCmd[..10] == "@echo off\n"
    ensures Contains(Mvnw, "java -jar \"$BASEDIR/" + UnixJar)
    ensures Contains(MvnwCmd, "java -jar \"%BASEDIR%\\" + WindowsJar)
  {
    var unixHead := "#!/bin/sh\n" + "BASEDIR=$(dirname \"$0\")\n";
    assert Mvnw == unixHead + ("java -jar \"$BASEDIR/" + UnixJar) + "\" \"$@\"";
    ContainsMiddle(unixHead, "java -jar \"$BASEDIR/" + UnixJar, "\" \"$@\"");
    var windowsHead := "@echo off\n" + "setlocal\n" + "set BASEDIR=%~dp0\n";
    assert MvnwCmd == windowsHead + ("java -jar \"%BASEDIR%\\" + WindowsJar) + "\" %*";
    ContainsMiddle(windowsHead, "java -jar \"%BASEDIR%\\" + WindowsJar, "\" %*");
  }

  /** The jar the wrapper scripts launch lies in the wrapper directory, but is not among the nine generated files. */
  lemma WrapperJarNotGenerated(projectPath: Path, packageName: string)
    ensures IsUnder(Join(projectPath, UnixJar), WrapperDir(projectPath))
    ensures Join(projectPath, UnixJar) !in ProjectFiles(projectPath, packageName)
  {
    var jar := Join(projectPath, UnixJar);
    assert UnixJar[..|WrapperRel|] == WrapperRel && UnixJar[|WrapperRel|] == '/';
    assert jar[..|WrapperDir(projectPath)|] == WrapperDir(projectPath);
    var app := ApplicationRel(packageName);
    assert app[0] == 's' && PropertiesRel[0] == 's' && UnixJar[0] == '.' && UnixJar[1] == 'm';
    assert |UnixJar| != |WrapperPropertiesRel|;
    forall rel | rel in [PomRel, app, PropertiesRel, ReadmeRel, GitignoreRel, HelpRel,
                         WrapperPropertiesRel, MvnwRel, MvnwCmdRel]
      ensures jar != Join(projectPath, rel)
    {
      if jar == Join(projectPath, rel) {
        JoinInjective(projectPath, UnixJar, rel);
      }
    }
  }
}
