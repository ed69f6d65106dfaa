/**
 * What `createProjectStructure` does to the disk, as functions of the tree it
 * starts from: the four `mkdirs` calls, six writes each in its own `try`, then
 * the three wrapper writes sharing one `try`.
 */
module Project {
  import opened Paths
  import opened FileSystem
  import opened Templates
  import opened Layout

  /** The tree after `createDirectories`: four `mkdirs` calls, in source order. */
  function DirectoriesResult(m: Tree, fail: set<Path>, projectPath: Path, packageName: string): Tree
  {
    var m1 := MkDirsResult(m, fail, MainJavaDir(projectPath, packageName));
    var m2 := MkDirsResult(m1, fail, ResourcesDir(projectPath));
    var m3 := MkDirsResult(m2, fail, TestJavaDir(projectPath, packageName));
    MkDirsResult(m3, fail, WrapperDir(projectPath))
  }

  /** The six files written by `createPomXml` through `createHelpMd`, each in its own `try`. */
  function SeparateWrites(projectPath: Path, packageName: string, domainName: string,
                          description: string, dependencies: string): seq<Entry>
  {
    [Entry(PomFile(projectPath), Pom(domainName, dependencies)),
     Entry(ApplicationFile(projectPath, packageName), ApplicationClass(packageName)),
     Entry(PropertiesFile(projectPath), ApplicationProperties),
     Entry(ReadmeFile(projectPath), Readme(description)),
     Entry(GitignoreFile(projectPath), Gitignore),
     Entry(HelpFile(projectPath), HelpMd)]
  }

  /** The three files `createMavenWrapperFiles` writes inside a single `try`. */
  function WrapperWrites(projectPath: Path): seq<Entry>
  {
    [Entry(WrapperPropertiesFile(projectPath), MavenWrapperProperties),
     Entry(MvnwFile(projectPath), Mvnw),
     Entry(MvnwCmdFile(projectPath), MvnwCmd)]
  }

  /** The tree after the six separately guarded writes and then `createMavenWrapperFiles`. */
  function FilesResult(m: Tree, fail: set<Path>, projectPath: Path, packageName: string,
                       domainName: string, description: string, dependencies: string): Tree
  {
    var files := WriteEach(m, fail, SeparateWrites(projectPath, packageName, domainName, description, dependencies));
    WriteUntilFailure(files, fail, WrapperWrites(projectPath))
  }

  /**
   * `createPomXml`, `createApplicationClass`, `createApplicationProperties` and
   * `createMavenWrapperFiles` build their paths with `Paths.get`, which throws
   * `InvalidPathException` for a path holding NUL. Their handlers catch only
   * `IOException`, so the exception leaves `createProjectStructure` at the first
   * such step: the pom when the project path holds NUL, otherwise the
   * Application class when the package name does.
   */
  predicate StructureThrows(projectPath: Path, packageName: string)
  {
    !ValidPath(projectPath) || !ValidPath(packageName)
  }

  /**
   * The tree after `createProjectStructure`, or at the point where it throws:
   * nothing is written when the pom's path is refused, only the pom when the
   * Application class's path is.
   */
  function ProjectResult(m: Tree, fail: set<Path>, projectPath: Path, packageName: string,
                         domainName: string, description: string, dependencies: string): Tree
  {
    var dirs := DirectoriesResult(m, fail, projectPath, packageName);
    if !ValidPath(projectPath) then dirs
    else if !ValidPath(packageName) then Written(dirs, fail, PomFile(projectPath), Pom(domainName, dependencies))
    else FilesResult(dirs, fail, projectPath, packageName, domainName, description, dependencies)
  }

  /** The tree `createMavenWrapperFiles` starts from when nothing has thrown before it. */
  function BeforeWrapper(m: Tree, fail: set<Path>, projectPath: Path, packageName: string,
                         domainName: string, description: string, dependencies: string): Tree
  {
    WriteEach(DirectoriesResult(m, fail, projectPath, packageName), fail,
              SeparateWrites(projectPath, packageName, domainName, description, dependencies))
  }

  /**
   * The project path names a place the generator may fill: it is not the root,
   * the platform can name it, nothing exists below it yet, and `mkdirs` can create or pass each of its
   * ancestors and itself.
   */
  predicate Fresh(m: Tree, fail: set<Path>, projectPath: Path)
  {
    projectPath != "" && ValidPath(projectPath) &&
    (forall q :: q in m ==> !IsUnder(q, projectPath)) &&
    (forall q :: q in Cuts(projectPath) ==> !Blocked(m, fail, q))
  }

  /** No creation below the project path fails. */
  predicate NoFailBelow(fail: set<Path>, projectPath: Path)
  {
    forall q :: q in fail ==> !IsUnder(q, projectPath)
  }

  // ---------------------------------------------------------------------------
  // Where the written files go

  lemma SeparatePaths(projectPath: Path, packageName: string, domainName: string,
                      description: string, dependencies: string)
    ensures PathsOf(SeparateWrites(projectPath, packageName, domainName, description, dependencies)) ==
            {PomFile(projectPath), ApplicationFile(projectPath, packageName), PropertiesFile(projectPath),
             ReadmeFile(projectPath), GitignoreFile(projectPath), HelpFile(projectPath)}
  {
    var ws := SeparateWrites(projectPath, packageName, domainName, description, dependencies);
    assert ws[0].path in PathsOf(ws) && ws[1].path in PathsOf(ws) && ws[2].path in PathsOf(ws);
    assert ws[3].path in PathsOf(ws) && ws[4].path in PathsOf(ws) && ws[5].path in PathsOf(ws);
  }

  lemma WrapperPaths(projectPath: Path)
    ensures PathsOf(WrapperWrites(projectPath)) ==
            {WrapperPropertiesFile(projectPath), MvnwFile(projectPath), MvnwCmdFile(projectPath)}
  {
    var vs := WrapperWrites(projectPath);
    assert vs[0].path in PathsOf(vs) && vs[1].path in PathsOf(vs) && vs[2].path in PathsOf(vs);
  }

  /** Every generated file lies below the project path. */
  lemma FilesUnder(projectPath: Path, packageName: string)
    ensures forall q :: q in ProjectFiles(projectPath, packageName) ==> IsUnder(q, projectPath)
  {
    JoinIsUnder(projectPath, PomRel);
    JoinIsUnder(projectPath, ApplicationRel(packageName));
    JoinIsUnder(projectPath, PropertiesRel);
    JoinIsUnder(projectPath, ReadmeRel);
    JoinIsUnder(projectPath, GitignoreRel);
    JoinIsUnder(projectPath, HelpRel);
    JoinIsUnder(projectPath, WrapperPropertiesRel);
    JoinIsUnder(projectPath, MvnwRel);
    JoinIsUnder(projectPath, MvnwCmdRel);
  }

  /** All nine writes, in the order `createProjectStructure` performs them. */
  function ProjectWrites(projectPath: Path, packageName: string, domainName: string,
                         description: string, dependencies: string): seq<Entry>
  {
    SeparateWrites(projectPath, packageName, domainName, description, dependencies) + WrapperWrites(projectPath)
  }

  /** The nine generated files are at nine different paths. */
  lemma {:induction false} WritesDistinct(projectPath: Path, packageName: string, domainName: string,
                                          description: string, dependencies: string)
    ensures DistinctPaths(ProjectWrites(projectPath, packageName, domainName, description, dependencies))
  {
    var ws := ProjectWrites(projectPath, packageName, domainName, description, dependencies);
    var rels := [PomRel, ApplicationRel(packageName), PropertiesRel, ReadmeRel, GitignoreRel,
                 HelpRel, WrapperPropertiesRel, MvnwRel, MvnwCmdRel];
    assert forall k :: 0 <= k < 9 ==> ws[k].path == Join(projectPath, rels[k]);
    FileRelsDistinct(packageName);
    forall i, j | 0 <= i < j < |ws|
      ensures ws[i].path != ws[j].path
    {
      if ws[i].path == ws[j].path {
        JoinInjective(projectPath, rels[i], rels[j]);
      }
    }
  }

  /** Exactly nine files are generated. */
  lemma ProjectFileCount(projectPath: Path, packageName: string)
    ensures |ProjectFiles(projectPath, packageName)| == 9
  {
    var rels := [PomRel, ApplicationRel(packageName), PropertiesRel, ReadmeRel, GitignoreRel,
                 HelpRel, WrapperPropertiesRel, MvnwRel, MvnwCmdRel];
    var f := seq(9, k requires 0 <= k < 9 => Join(projectPath, rels[k]));
    FileRelsDistinct(packageName);
    forall i, j | 0 <= i < j < |f|
      ensures f[i] != f[j]
    {
      if f[i] == f[j] {
        JoinInjective(projectPath, rels[i], rels[j]);
      }
    }
    DistinctCount(f);
    assert ProjectFiles(projectPath, packageName) == set k | 0 <= k < |f| :: f[k] by {
      assert f[0] == PomFile(projectPath) && f[1] == ApplicationFile(projectPath, packageName);
      assert f[2] == PropertiesFile(projectPath) && f[3] == ReadmeFile(projectPath);
      assert f[4] == GitignoreFile(projectPath) && f[5] == HelpFile(projectPath);
      assert f[6] == WrapperPropertiesFile(projectPath) && f[7] == MvnwFile(projectPath);
      assert f[8] == MvnwCmdFile(projectPath);
    }
  }

  /** Each group of writes goes to distinct paths, and the two groups do not share one. */
  lemma GroupsDistinct(projectPath: Path, packageName: string, domainName: string,
                       description: string, dependencies: string)
    ensures DistinctPaths(SeparateWrites(projectPath, packageName, domainName, description, dependencies))
    ensures DistinctPaths(WrapperWrites(projectPath))
    ensures PathsOf(SeparateWrites(projectPath, packageName, domainName, description, dependencies)) !!
            PathsOf(WrapperWrites(projectPath))
  {
    var ws := SeparateWrites(projectPath, packageName, domainName, description, dependencies);
    var vs := WrapperWrites(projectPath);
    WritesDistinct(projectPath, packageName, domainName, description, dependencies);
    assert forall k :: 0 <= k < |ws| ==> ws[k] == (ws + vs)[k];
    assert forall k :: 0 <= k < |vs| ==> vs[k] == (ws + vs)[|ws| + k];
  }

  // ---------------------------------------------------------------------------
  // What changes, whatever fails

  /** The directories the generator makes are the project path, its ancestors, and paths below it. */
  lemma ProjectDirsShape(projectPath: Path, packageName: string)
    ensures forall q :: q in ProjectDirs(projectPath, packageName) ==>
              q in Cuts(projectPath) || IsUnder(q, projectPath)
  {
    forall q | q in ProjectDirs(projectPath, packageName)
      ensures q in Cuts(projectPath) || IsUnder(q, projectPath)
    {
      if q in Cuts(MainJavaDir(projectPath, packageName)) {
        CutsOfJoin(projectPath, MainJavaRel(packageName), q);
      } else if q in Cuts(ResourcesDir(projectPath)) {
        CutsOfJoin(projectPath, ResourcesRel, q);
      } else if q in Cuts(TestJavaDir(projectPath, packageName)) {
        CutsOfJoin(projectPath, TestJavaRel(packageName), q);
      } else {
        CutsOfJoin(projectPath, WrapperRel, q);
      }
    }
  }

  /** `createDirectories` keeps every existing entry and adds only directories of the layout. */
  lemma DirectoriesFrame(m: Tree, fail: set<Path>, projectPath: Path, packageName: string)
    ensures var r := DirectoriesResult(m, fail, projectPath, packageName);
      && (forall q :: q in m ==> q in r && r[q] == m[q])
      && (forall q :: q in r && q !in m ==> q in ProjectDirs(projectPath, packageName) && r[q] == Dir)
  {
    var m1 := MkDirsResult(m, fail, MainJavaDir(projectPath, packageName));
    var m2 := MkDirsResult(m1, fail, ResourcesDir(projectPath));
    var m3 := MkDirsResult(m2, fail, TestJavaDir(projectPath, packageName));
    MkDirsFrame(m, fail, MainJavaDir(projectPath, packageName));
    MkDirsFrame(m1, fail, ResourcesDir(projectPath));
    MkDirsFrame(m2, fail, TestJavaDir(projectPath, packageName));
    MkDirsFrame(m3, fail, WrapperDir(projectPath));
  }

  /** The nine writes keep every entry and every directory, and touch only the nine file paths. */
  lemma FilesFrame(m: Tree, fail: set<Path>, projectPath: Path, packageName: string,
                   domainName: string, description: string, dependencies: string)
    ensures var r := FilesResult(m, fail, projectPath, packageName, domainName, description, dependencies);
      && (forall q :: IsDir(r, q) <==> IsDir(m, q))
      && (forall q :: q in m ==> q in r)
      && (forall q :: q !in ProjectFiles(projectPath, packageName) ==>
            (q in r <==> q in m) && (q in m ==> r[q] == m[q]))
  {
    var ws := SeparateWrites(projectPath, packageName, domainName, description, dependencies);
    WriteEachFrame(m, fail, ws);
    WriteUntilFailureFrame(WriteEach(m, fail, ws), fail, WrapperWrites(projectPath));
    SeparatePaths(projectPath, packageName, domainName, description, dependencies);
    WrapperPaths(projectPath);
  }

  /**
   * Wherever `createProjectStructure` stops, the writes after `createDirectories`
   * keep every entry and every directory, and touch only the nine file paths.
   */
  lemma WritesFrame(m: Tree, fail: set<Path>, projectPath: Path, packageName: string,
                    domainName: string, description: string, dependencies: string)
    ensures var dirs := DirectoriesResult(m, fail, projectPath, packageName);
      var r := ProjectResult(m, fail, projectPath, packageName, domainName, description, dependencies);
      && (forall q :: IsDir(r, q) <==> IsDir(dirs, q))
      && (forall q :: q in dirs ==> q in r)
      && (forall q :: q !in ProjectFiles(projectPath, packageName) ==>
            (q in r <==> q in dirs) && (q in dirs ==> r[q] == dirs[q]))
  {
    var dirs := DirectoriesResult(m, fail, projectPath, packageName);
    if !ValidPath(projectPath) {
    } else if !ValidPath(packageName) {
      WrittenFrame(dirs, fail, PomFile(projectPath), Pom(domainName, dependencies));
    } else {
      FilesFrame(dirs, fail, projectPath, packageName, domainName, description, dependencies);
    }
  }

  /**
   * Whatever fails, `createProjectStructure` removes nothing, changes nothing
   * outside the project path, and adds outside it only the missing ancestors of
   * the project path (and the project path itself), as directories. The only
   * existing entries whose content can change are files at the nine generated
   * paths.
   */
  lemma ProjectFrame(m: Tree, fail: set<Path>, projectPath: Path, packageName: string,
                     domainName: string, description: string, dependencies: string)
    ensures var r := ProjectResult(m, fail, projectPath, packageName, domainName, description, dependencies);
      && (forall q :: q in m ==> q in r)
      && (forall q :: q in m && !IsUnder(q, projectPath) ==> r[q] == m[q])
      && (forall q :: q in m && r[q] != m[q] ==> q in ProjectFiles(projectPath, packageName) && m[q].File?)
      && (forall q :: q in r && q !in m && !IsUnder(q, projectPath) ==> q in Cuts(projectPath) && r[q] == Dir)
  {
    var dirs := DirectoriesResult(m, fail, projectPath, packageName);
    var r := ProjectResult(m, fail, projectPath, packageName, domainName, description, dependencies);
    var files := ProjectFiles(projectPath, packageName);
    DirectoriesFrame(m, fail, projectPath, packageName);
    WritesFrame(m, fail, projectPath, packageName, domainName, description, dependencies);
    FilesUnder(projectPath, packageName);
    ProjectDirsShape(projectPath, packageName);
    assert forall q :: q in m ==> q in r;
    forall q | q in m && r[q] != m[q]
      ensures q in files && m[q].File?
    {
      assert dirs[q] == m[q];
      if m[q].Dir? {
        assert IsDir(dirs, q);
      }
    }
    forall q | q in r && q !in m && !IsUnder(q, projectPath)
      ensures q in Cuts(projectPath) && r[q] == Dir
    {
      assert q !in files;
      assert q in dirs;
    }
  }

  // ---------------------------------------------------------------------------
  // A fresh project path with nothing failing below it

  /** A non-root path is the last of its own cuts. */
  lemma SelfCut(p: Path)
    requires p != ""
    ensures p in Cuts(p)
  {
    assert IsCutAt(p, |p|) && p[..|p|] == p;
  }

  /** The six files written straight into the project path hang from it. */
  lemma RootFileParents(projectPath: Path)
    ensures Parent(PomFile(projectPath)) == projectPath
    ensures Parent(ReadmeFile(projectPath)) == projectPath
    ensures Parent(GitignoreFile(projectPath)) == projectPath
    ensures Parent(HelpFile(projectPath)) == projectPath
    ensures Parent(MvnwFile(projectPath)) == projectPath
    ensures Parent(MvnwCmdFile(projectPath)) == projectPath
  {
    ParentOfJoin(projectPath, PomRel);
    ParentOfJoin(projectPath, ReadmeRel);
    ParentOfJoin(projectPath, GitignoreRel);
    ParentOfJoin(projectPath, HelpRel);
    ParentOfJoin(projectPath, MvnwRel);
    ParentOfJoin(projectPath, MvnwCmdRel);
  }

  /** The three nested files hang from the directory `mkdirs` made for them. */
  lemma NestedFileParents(projectPath: Path, packageName: string)
    ensures Parent(ApplicationFile(projectPath, packageName)) == MainJavaDir(projectPath, packageName)
    ensures Parent(PropertiesFile(projectPath)) == ResourcesDir(projectPath)
    ensures Parent(WrapperPropertiesFile(projectPath)) == WrapperDir(projectPath)
  {
    ParentOfNested(projectPath, MainJavaRel(packageName), "/Application.java");
    ParentOfNested(projectPath, ResourcesRel, "/application.properties");
    ParentOfNested(projectPath, WrapperRel, "/maven-wrapper.properties");
  }

  /** Each generated file hangs from the project path or from one of the four directories. */
  lemma FileParents(projectPath: Path, packageName: string)
    requires projectPath != ""
    ensures Parent(PomFile(projectPath)) == projectPath
    ensures Parent(ApplicationFile(projectPath, packageName)) == MainJavaDir(projectPath, packageName)
    ensures Parent(PropertiesFile(projectPath)) == ResourcesDir(projectPath)
    ensures Parent(ReadmeFile(projectPath)) == projectPath
    ensures Parent(GitignoreFile(projectPath)) == projectPath
    ensures Parent(HelpFile(projectPath)) == projectPath
    ensures Parent(WrapperPropertiesFile(projectPath)) == WrapperDir(projectPath)
    ensures Parent(MvnwFile(projectPath)) == projectPath
    ensures Parent(MvnwCmdFile(projectPath)) == projectPath
    ensures var dirs := ProjectDirs(projectPath, packageName);
      projectPath in dirs && MainJavaDir(projectPath, packageName) in dirs &&
      ResourcesDir(projectPath) in dirs && WrapperDir(projectPath) in dirs
  {
    RootFileParents(projectPath);
    NestedFileParents(projectPath, packageName);
    JoinHasCut(projectPath, MainJavaRel(packageName));
    SelfCut(MainJavaDir(projectPath, packageName));
    SelfCut(ResourcesDir(projectPath));
    SelfCut(WrapperDir(projectPath));
  }

  /** On a fresh project path, no cut of a layout directory blocks `mkdirs`, however much is already made. */
  lemma CutUnblocked(m: Tree, fail: set<Path>, projectPath: Path, made: set<Path>, rest: string, q: Path)
    requires Fresh(m, fail, projectPath) && NoFailBelow(fail, projectPath)
    requires q in Cuts(Join(projectPath, rest))
    ensures !Blocked(Fill(m, made), fail, q)
  {
    CutsOfJoin(projectPath, rest, q);
  }

  /**
   * On a fresh project path with nothing failing below it, `createDirectories`
   * makes every layout directory when the package name can be named.
   */
  lemma DirectoriesClean(m: Tree, fail: set<Path>, projectPath: Path, packageName: string)
    requires Fresh(m, fail, projectPath) && NoFailBelow(fail, projectPath) && ValidPath(packageName)
    ensures DirectoriesResult(m, fail, projectPath, packageName) == Fill(m, ProjectDirs(projectPath, packageName))
    ensures forall q :: q in ProjectDirs(projectPath, packageName) ==>
              IsDir(DirectoriesResult(m, fail, projectPath, packageName), q)
  {
    LayoutDirsAreDirs(m, fail, projectPath, packageName);
    PackageLayoutValid(projectPath, packageName);
    ProjectLayoutValid(projectPath);
    var main, res := MainJavaDir(projectPath, packageName), ResourcesDir(projectPath);
    var test, wrap := TestJavaDir(projectPath, packageName), WrapperDir(projectPath);
    assert Fill(m, {}) == m;
    forall q | q in Cuts(main)
      ensures !Blocked(m, fail, q)
    {
      CutUnblocked(m, fail, projectPath, {}, MainJavaRel(packageName), q);
    }
    MkDirsClean(m, fail, main);
    var made := Cuts(main);
    forall q | q in Cuts(res)
      ensures !Blocked(Fill(m, made), fail, q)
    {
      CutUnblocked(m, fail, projectPath, made, ResourcesRel, q);
    }
    MkDirsClean(Fill(m, made), fail, res);
    FillFill(m, made, Cuts(res));
    made := made + Cuts(res);
    forall q | q in Cuts(test)
      ensures !Blocked(Fill(m, made), fail, q)
    {
      CutUnblocked(m, fail, projectPath, made, TestJavaRel(packageName), q);
    }
    MkDirsClean(Fill(m, made), fail, test);
    FillFill(m, made, Cuts(test));
    made := made + Cuts(test);
    forall q | q in Cuts(wrap)
      ensures !Blocked(Fill(m, made), fail, q)
    {
      CutUnblocked(m, fail, projectPath, made, WrapperRel, q);
    }
    MkDirsClean(Fill(m, made), fail, wrap);
    FillFill(m, made, Cuts(wrap));
  }

  /** After a clean `createDirectories`, every layout directory is a directory. */
  lemma LayoutDirsAreDirs(m: Tree, fail: set<Path>, projectPath: Path, packageName: string)
    requires Fresh(m, fail, projectPath)
    ensures forall q :: q in ProjectDirs(projectPath, packageName) ==>
              IsDir(Fill(m, ProjectDirs(projectPath, packageName)), q)
  {
    ProjectDirsShape(projectPath, packageName);
  }

  /** A generated file is never one of the layout directories. */
  lemma FileNotDir(projectPath: Path, packageName: string, rel: string)
    requires rel in [PomRel, ApplicationRel(packageName), PropertiesRel, ReadmeRel, GitignoreRel,
                     HelpRel, WrapperPropertiesRel, MvnwRel, MvnwCmdRel]
    ensures Join(projectPath, rel) !in ProjectDirs(projectPath, packageName)
  {
    FilesAreNotDirs(packageName, rel);
    NotCut(projectPath, rel, MainJavaRel(packageName));
    NotCut(projectPath, rel, ResourcesRel);
    NotCut(projectPath, rel, TestJavaRel(packageName));
    NotCut(projectPath, rel, WrapperRel);
  }

  lemma NotCut(projectPath: Path, a: string, b: string)
    requires !(a <= b)
    ensures Join(projectPath, a) !in Cuts(Join(projectPath, b))
  {
    if Join(projectPath, a) in Cuts(Join(projectPath, b)) {
      JoinCutPrefix(projectPath, a, b);
    }
  }

  /** After a clean `createDirectories`, each generated file can be written. */
  lemma FileWritable(m: Tree, fail: set<Path>, projectPath: Path, packageName: string, rel: string)
    requires Fresh(m, fail, projectPath) && NoFailBelow(fail, projectPath) && ValidPath(packageName)
    requires rel in [PomRel, ApplicationRel(packageName), PropertiesRel, ReadmeRel, GitignoreRel,
                     HelpRel, WrapperPropertiesRel, MvnwRel, MvnwCmdRel]
    ensures CanWrite(Fill(m, ProjectDirs(projectPath, packageName)), fail, Join(projectPath, rel))
  {
    FileNotDir(projectPath, packageName, rel);
    JoinIsUnder(projectPath, rel);
    FileParents(projectPath, packageName);
    LayoutDirsAreDirs(m, fail, projectPath, packageName);
    PackageLayoutValid(projectPath, packageName);
    ProjectLayoutValid(projectPath);
  }

  /** After a clean `createDirectories`, all nine files can be written. */
  lemma AllWritable(m: Tree, fail: set<Path>, projectPath: Path, packageName: string,
                    domainName: string, description: string, dependencies: string)
    requires Fresh(m, fail, projectPath) && NoFailBelow(fail, projectPath) && ValidPath(packageName)
    ensures var ws := ProjectWrites(projectPath, packageName, domainName, description, dependencies);
      forall k :: 0 <= k < |ws| ==> CanWrite(Fill(m, ProjectDirs(projectPath, packageName)), fail, ws[k].path)
  {
    var ws := ProjectWrites(projectPath, packageName, domainName, description, dependencies);
    var rels := [PomRel, ApplicationRel(packageName), PropertiesRel, ReadmeRel, GitignoreRel,
                 HelpRel, WrapperPropertiesRel, MvnwRel, MvnwCmdRel];
    assert forall k :: 0 <= k < 9 ==> ws[k].path == Join(projectPath, rels[k]);
    forall k | 0 <= k < |ws|
      ensures CanWrite(Fill(m, ProjectDirs(projectPath, packageName)), fail, ws[k].path)
    {
      FileWritable(m, fail, projectPath, packageName, rels[k]);
    }
  }

  /** When each of the nine writes can succeed on the tree they start from, all nine files get their content. */
  lemma FilesClean(t: Tree, fail: set<Path>, projectPath: Path, packageName: string,
                   domainName: string, description: string, dependencies: string)
    requires var ws := ProjectWrites(projectPath, packageName, domainName, description, dependencies);
      forall k :: 0 <= k < |ws| ==> CanWrite(t, fail, ws[k].path)
    ensures var ws := ProjectWrites(projectPath, packageName, domainName, description, dependencies);
      var r := FilesResult(t, fail, projectPath, packageName, domainName, description, dependencies);
      forall k :: 0 <= k < |ws| ==> ws[k].path in r && r[ws[k].path] == File(ws[k].text)
  {
    var all := ProjectWrites(projectPath, packageName, domainName, description, dependencies);
    var ws := SeparateWrites(projectPath, packageName, domainName, description, dependencies);
    var vs := WrapperWrites(projectPath);
    var t1 := WriteEach(t, fail, ws);
    var r := FilesResult(t, fail, projectPath, packageName, domainName, description, dependencies);
    GroupsDistinct(projectPath, packageName, domainName, description, dependencies);
    WriteEachFrame(t, fail, ws);
    WriteUntilFailureFrame(t1, fail, vs);
    forall k | 0 <= k < |ws|
      ensures ws[k].path in t1 && t1[ws[k].path] == File(ws[k].text)
    {
      assert all[k] == ws[k];
      WriteEachHit(t, fail, ws, k);
    }
    forall k | 0 <= k < |vs|
      ensures CanWrite(t1, fail, vs[k].path)
    {
      assert all[|ws| + k] == vs[k];
      assert vs[k].path in PathsOf(vs);
    }
    WriteUntilFailureAll(t1, fail, vs);
    forall k | 0 <= k < |all|
      ensures all[k].path in r && r[all[k].path] == File(all[k].text)
    {
      if k < |ws| {
        assert all[k] == ws[k];
        assert ws[k].path in PathsOf(ws);
      } else {
        assert all[k] == vs[k - |ws|];
      }
    }
  }

  /**
   * On a fresh project path with nothing failing below it, and a package name
   * that can be named, `createProjectStructure` makes every layout directory, writes each of the nine files with its content,
   * and leaves nothing else below the project path: the files there are exactly
   * the nine, the directories exactly those of the layout.
   */
  lemma ProjectClean(m: Tree, fail: set<Path>, projectPath: Path, packageName: string,
                     domainName: string, description: string, dependencies: string)
    requires Fresh(m, fail, projectPath) && NoFailBelow(fail, projectPath) && ValidPath(packageName)
    ensures var r := ProjectResult(m, fail, projectPath, packageName, domainName, description, dependencies);
      forall q :: q in ProjectDirs(projectPath, packageName) ==> IsDir(r, q)
    ensures var r := ProjectResult(m, fail, projectPath, packageName, domainName, description, dependencies);
      var ws := ProjectWrites(projectPath, packageName, domainName, description, dependencies);
      forall k :: 0 <= k < |ws| ==> ws[k].path in r && r[ws[k].path] == File(ws[k].text)
    ensures var r := ProjectResult(m, fail, projectPath, packageName, domainName, description, dependencies);
      forall q :: IsUnder(q, projectPath) ==>
        ((q in r && r[q].File?) <==> q in ProjectFiles(projectPath, packageName))
    ensures var r := ProjectResult(m, fail, projectPath, packageName, domainName, description, dependencies);
      forall q :: IsUnder(q, projectPath) ==> (IsDir(r, q) <==> q in ProjectDirs(projectPath, packageName))
  {
    var dirs := DirectoriesResult(m, fail, projectPath, packageName);
    var r := ProjectResult(m, fail, projectPath, packageName, domainName, description, dependencies);
    var all := ProjectWrites(projectPath, packageName, domainName, description, dependencies);
    var ws := SeparateWrites(projectPath, packageName, domainName, description, dependencies);
    var vs := WrapperWrites(projectPath);
    DirectoriesClean(m, fail, projectPath, packageName);
    LayoutDirsAreDirs(m, fail, projectPath, packageName);
    AllWritable(m, fail, projectPath, packageName, domainName, description, dependencies);
    FilesClean(dirs, fail, projectPath, packageName, domainName, description, dependencies);
    FilesFrame(dirs, fail, projectPath, packageName, domainName, description, dependencies);
    SeparatePaths(projectPath, packageName, domainName, description, dependencies);
    WrapperPaths(projectPath);
    forall q | q in ProjectFiles(projectPath, packageName)
      ensures q in r && r[q].File?
    {
      if q in PathsOf(ws) {
        var k :| 0 <= k < |ws| && ws[k].path == q;
        assert all[k] == ws[k];
      } else {
        var k :| 0 <= k < |vs| && vs[k].path == q;
        assert all[|ws| + k] == vs[k];
      }
    }
  }

  /** Two fresh starts with nothing failing below the project path give the same project below it. */
  lemma ProjectDeterministic(m1: Tree, fail1: set<Path>, m2: Tree, fail2: set<Path>,
                             projectPath: Path, packageName: string,
                             domainName: string, description: string, dependencies: string)
    requires Fresh(m1, fail1, projectPath) && NoFailBelow(fail1, projectPath)
    requires Fresh(m2, fail2, projectPath) && NoFailBelow(fail2, projectPath)
    ensures var r1 := ProjectResult(m1, fail1, projectPath, packageName, domainName, description, dependencies);
      var r2 := ProjectResult(m2, fail2, projectPath, packageName, domainName, description, dependencies);
      forall q :: IsUnder(q, projectPath) ==> (q in r1 <==> q in r2) && (q in r1 ==> r1[q] == r2[q])
  {
    var r1 := ProjectResult(m1, fail1, projectPath, packageName, domainName, description, dependencies);
    var r2 := ProjectResult(m2, fail2, projectPath, packageName, domainName, description, dependencies);
    if ValidPath(packageName) {
      var all := ProjectWrites(projectPath, packageName, domainName, description, dependencies);
      ProjectClean(m1, fail1, projectPath, packageName, domainName, description, dependencies);
      ProjectClean(m2, fail2, projectPath, packageName, domainName, description, dependencies);
      WritePathsAll(projectPath, packageName, domainName, description, dependencies);
      forall q | IsUnder(q, projectPath) && q in ProjectFiles(projectPath, packageName)
        ensures r1[q] == r2[q]
      {
        var k :| 0 <= k < |all| && all[k].path == q;
      }
    } else {
      AbortedClean(m1, fail1, projectPath, packageName, domainName, description, dependencies);
      AbortedClean(m2, fail2, projectPath, packageName, domainName, description, dependencies);
    }
  }

  /** Every generated file is the path of one of the nine writes. */
  lemma WritePathsAll(projectPath: Path, packageName: string, domainName: string,
                      description: string, dependencies: string)
    ensures var all := ProjectWrites(projectPath, packageName, domainName, description, dependencies);
      forall q :: q in ProjectFiles(projectPath, packageName) ==> exists k :: 0 <= k < |all| && all[k].path == q
  {
    var all := ProjectWrites(projectPath, packageName, domainName, description, dependencies);
    assert all[0].path == PomFile(projectPath) && all[1].path == ApplicationFile(projectPath, packageName);
    assert all[2].path == PropertiesFile(projectPath) && all[3].path == ReadmeFile(projectPath);
    assert all[4].path == GitignoreFile(projectPath) && all[5].path == HelpFile(projectPath);
    assert all[6].path == WrapperPropertiesFile(projectPath) && all[7].path == MvnwFile(projectPath);
    assert all[8].path == MvnwCmdFile(projectPath);
  }

  // ---------------------------------------------------------------------------
  // Failures are swallowed

  /** On a fresh project path, `createDirectories` leaves the project path a directory whatever fails below it. */
  lemma ProjectPathIsDir(m: Tree, fail: set<Path>, projectPath: Path, packageName: string)
    requires Fresh(m, fail, projectPath)
    ensures IsDir(DirectoriesResult(m, fail, projectPath, packageName), projectPath)
  {
    var m1 := MkDirsResult(m, fail, MainJavaDir(projectPath, packageName));
    var p := ResourcesDir(projectPath);
    var n := |projectPath|;
    MkDirsFrame(m, fail, MainJavaDir(projectPath, packageName));
    ProjectLayoutValid(projectPath);
    assert p[..n] == projectPath && IsCutAt(p, n);
    forall j | 0 < j <= n && IsCutAt(p, j)
      ensures !Blocked(m1, fail, p[..j])
    {
      assert IsCutAt(projectPath, j) && projectPath[..j] == p[..j];
      assert !Blocked(m, fail, p[..j]);
    }
    MkDirsReaches(m1, fail, p, n);
    var m2 := MkDirsResult(m1, fail, p);
    var m3 := MkDirsResult(m2, fail, TestJavaDir(projectPath, packageName));
    MkDirsFrame(m2, fail, TestJavaDir(projectPath, packageName));
    MkDirsFrame(m3, fail, WrapperDir(projectPath));
  }

  /**
   * Each `create*` step has its own `try`: on a fresh project path, `pom.xml`,
   * `README.md`, `.gitignore` and `Help.md` are written whenever their own
   * write does not fail, whatever fails before or after them. The pom comes
   * first and is written whatever the package name; the other three only when
   * `createApplicationClass` has not thrown, that is when the package name can
   * be named.
   */
  lemma ProjectIndependentWrites(m: Tree, fail: set<Path>, projectPath: Path, packageName: string,
                                 domainName: string, description: string, dependencies: string)
    requires Fresh(m, fail, projectPath)
    ensures var r := ProjectResult(m, fail, projectPath, packageName, domainName, description, dependencies);
      PomFile(projectPath) !in fail ==>
        PomFile(projectPath) in r && r[PomFile(projectPath)] == File(Pom(domainName, dependencies))
    ensures var r := ProjectResult(m, fail, projectPath, packageName, domainName, description, dependencies);
      ValidPath(packageName) && ReadmeFile(projectPath) !in fail ==>
        ReadmeFile(projectPath) in r && r[ReadmeFile(projectPath)] == File(Readme(description))
    ensures var r := ProjectResult(m, fail, projectPath, packageName, domainName, description, dependencies);
      ValidPath(packageName) && GitignoreFile(projectPath) !in fail ==>
        GitignoreFile(projectPath) in r && r[GitignoreFile(projectPath)] == File(Gitignore)
    ensures var r := ProjectResult(m, fail, projectPath, packageName, domainName, description, dependencies);
      ValidPath(packageName) && HelpFile(projectPath) !in fail ==>
        HelpFile(projectPath) in r && r[HelpFile(projectPath)] == File(HelpMd)
  {
    if PomFile(projectPath) !in fail {
      if ValidPath(packageName) {
        RootFileWritten(m, fail, projectPath, packageName, domainName, description, dependencies, 0);
      } else {
        RootFileWritable(m, fail, projectPath, packageName, PomRel);
      }
    }
    if ValidPath(packageName) {
      if ReadmeFile(projectPath) !in fail {
        RootFileWritten(m, fail, projectPath, packageName, domainName, description, dependencies, 3);
      }
      if GitignoreFile(projectPath) !in fail {
        RootFileWritten(m, fail, projectPath, packageName, domainName, description, dependencies, 4);
      }
      if HelpFile(projectPath) !in fail {
        RootFileWritten(m, fail, projectPath, packageName, domainName, description, dependencies, 5);
      }
    }
  }

  /** On a fresh project path, a file that goes directly into it can be written after `createDirectories` unless its own write fails. */
  lemma RootFileWritable(m: Tree, fail: set<Path>, projectPath: Path, packageName: string, rel: string)
    requires Fresh(m, fail, projectPath)
    requires rel in [PomRel, ReadmeRel, GitignoreRel, HelpRel]
    requires Join(projectPath, rel) !in fail
    ensures CanWrite(DirectoriesResult(m, fail, projectPath, packageName), fail, Join(projectPath, rel))
  {
    ProjectPathIsDir(m, fail, projectPath, packageName);
    DirectoriesFrame(m, fail, projectPath, packageName);
    FileParents(projectPath, packageName);
    JoinIsUnder(projectPath, rel);
    FileNotDir(projectPath, packageName, rel);
    ProjectLayoutValid(projectPath);
  }

  /** A separately guarded write that can succeed on the directories leaves its text in the finished tree. */
  lemma SeparateFileWritten(dirs: Tree, fail: set<Path>, projectPath: Path, packageName: string,
                            domainName: string, description: string, dependencies: string, k: nat)
    requires k < 6
    requires CanWrite(dirs, fail, SeparateWrites(projectPath, packageName, domainName, description, dependencies)[k].path)
    ensures var r := FilesResult(dirs, fail, projectPath, packageName, domainName, description, dependencies);
      var w := SeparateWrites(projectPath, packageName, domainName, description, dependencies)[k];
      w.path in r && r[w.path] == File(w.text)
  {
    var ws := SeparateWrites(projectPath, packageName, domainName, description, dependencies);
    GroupsDistinct(projectPath, packageName, domainName, description, dependencies);
    WriteEachHit(dirs, fail, ws, k);
    assert ws[k].path in PathsOf(ws);
    WriteUntilFailureFrame(WriteEach(dirs, fail, ws), fail, WrapperWrites(projectPath));
  }

  /** One of the files written directly into the project path, in its own `try`, when nothing has thrown. */
  lemma RootFileWritten(m: Tree, fail: set<Path>, projectPath: Path, packageName: string,
                        domainName: string, description: string, dependencies: string, k: nat)
    requires Fresh(m, fail, projectPath) && ValidPath(packageName)
    requires k in {0, 3, 4, 5}
    requires SeparateWrites(projectPath, packageName, domainName, description, dependencies)[k].path !in fail
    ensures var r := ProjectResult(m, fail, projectPath, packageName, domainName, description, dependencies);
      var w := SeparateWrites(projectPath, packageName, domainName, description, dependencies)[k];
      w.path in r && r[w.path] == File(w.text)
  {
    var dirs := DirectoriesResult(m, fail, projectPath, packageName);
    var rel := [PomRel, ApplicationRel(packageName), PropertiesRel, ReadmeRel, GitignoreRel, HelpRel][k];
    assert SeparateWrites(projectPath, packageName, domainName, description, dependencies)[k].path
        == Join(projectPath, rel);
    assert rel in [PomRel, ReadmeRel, GitignoreRel, HelpRel];
    RootFileWritable(m, fail, projectPath, packageName, rel);
    SeparateFileWritten(dirs, fail, projectPath, packageName, domainName, description, dependencies, k);
  }

  /**
   * The three wrapper files share one `try`: on a fresh project path, when
   * `maven-wrapper.properties` cannot be written (its own write fails, or its
   * directory is missing because `mkdirs` was stopped), neither `mvnw` nor
   * `mvnw.cmd` is written either; when `mvnw` cannot be, `mvnw.cmd` is not.
   */
  lemma WrapperChain(m: Tree, fail: set<Path>, projectPath: Path, packageName: string,
                     domainName: string, description: string, dependencies: string)
    requires Fresh(m, fail, projectPath)
    ensures var r := ProjectResult(m, fail, projectPath, packageName, domainName, description, dependencies);
      var before := BeforeWrapper(m, fail, projectPath, packageName, domainName, description, dependencies);
      !CanWrite(before, fail, WrapperPropertiesFile(projectPath)) ==>
        WrapperPropertiesFile(projectPath) !in r && MvnwFile(projectPath) !in r && MvnwCmdFile(projectPath) !in r
    ensures var r := ProjectResult(m, fail, projectPath, packageName, domainName, description, dependencies);
      var before := BeforeWrapper(m, fail, projectPath, packageName, domainName, description, dependencies);
      !CanWrite(before, fail, MvnwFile(projectPath)) ==> MvnwFile(projectPath) !in r && MvnwCmdFile(projectPath) !in r
  {
    var dirs := DirectoriesResult(m, fail, projectPath, packageName);
    var ws := SeparateWrites(projectPath, packageName, domainName, description, dependencies);
    var vs := WrapperWrites(projectPath);
    var files := WriteEach(dirs, fail, ws);
    DirectoriesFrame(m, fail, projectPath, packageName);
    GroupsDistinct(projectPath, packageName, domainName, description, dependencies);
    WriteEachFrame(dirs, fail, ws);
    WrapperPaths(projectPath);
    forall k | 0 <= k < |vs|
      ensures vs[k].path !in files
    {
      var rel := [WrapperPropertiesRel, MvnwRel, MvnwCmdRel][k];
      assert vs[k].path == Join(projectPath, rel);
      JoinIsUnder(projectPath, rel);
      FileNotDir(projectPath, packageName, rel);
      assert vs[k].path in PathsOf(vs);
    }
    if ValidPath(packageName) {
      if !CanWrite(files, fail, vs[0].path) {
        WriteUntilFailureSkips(files, fail, vs, 0);
      }
      if !CanWrite(files, fail, vs[1].path) {
        WriteUntilFailureSkips(files, fail, vs, 1);
      }
    } else {
      SeparatePaths(projectPath, packageName, domainName, description, dependencies);
      WrittenFrame(dirs, fail, PomFile(projectPath), Pom(domainName, dependencies));
    }
  }

  /**
   * When `mkdirs` cannot create `.mvn` below a fresh project path, the wrapper
   * directory is missing, so none of the three wrapper files is written.
   */
  lemma WrapperDirBlocked(m: Tree, fail: set<Path>, projectPath: Path, packageName: string,
                          domainName: string, description: string, dependencies: string)
    requires Fresh(m, fail, projectPath) && Join(projectPath, ".mvn") in fail
    ensures var r := ProjectResult(m, fail, projectPath, packageName, domainName, description, dependencies);
      WrapperPropertiesFile(projectPath) !in r && MvnwFile(projectPath) !in r && MvnwCmdFile(projectPath) !in r
  {
    var dirs := DirectoriesResult(m, fail, projectPath, packageName);
    WrapperDirMissing(m, fail, projectPath, packageName);
    FileParents(projectPath, packageName);
    WriteEachFrame(dirs, fail, SeparateWrites(projectPath, packageName, domainName, description, dependencies));
    assert !CanWrite(BeforeWrapper(m, fail, projectPath, packageName, domainName, description, dependencies),
                     fail, WrapperPropertiesFile(projectPath));
    WrapperChain(m, fail, projectPath, packageName, domainName, description, dependencies);
  }

  /** `mkdirs` stops at a refused `.mvn`, so `createDirectories` leaves no wrapper directory. */
  lemma WrapperDirMissing(m: Tree, fail: set<Path>, projectPath: Path, packageName: string)
    requires Fresh(m, fail, projectPath) && Join(projectPath, ".mvn") in fail
    ensures WrapperDir(projectPath) !in DirectoriesResult(m, fail, projectPath, packageName)
  {
    var main, res, test := MainJavaDir(projectPath, packageName), ResourcesDir(projectPath), TestJavaDir(projectPath, packageName);
    var wrap, dot := WrapperDir(projectPath), Join(projectPath, ".mvn");
    var m1 := MkDirsResult(m, fail, main);
    var m2 := MkDirsResult(m1, fail, res);
    var m3 := MkDirsResult(m2, fail, test);
    MkDirsFrame(m, fail, main);
    MkDirsFrame(m1, fail, res);
    MkDirsFrame(m2, fail, test);
    var mainRel, testRel := MainJavaRel(packageName), TestJavaRel(packageName);
    assert mainRel[0] == 's' && testRel[0] == 's' && ResourcesRel[0] == 's';
    NotCut(projectPath, ".mvn", mainRel);
    NotCut(projectPath, ".mvn", ResourcesRel);
    NotCut(projectPath, ".mvn", testRel);
    NotCut(projectPath, WrapperRel, mainRel);
    NotCut(projectPath, WrapperRel, ResourcesRel);
    NotCut(projectPath, WrapperRel, testRel);
    JoinIsUnder(projectPath, ".mvn");
    JoinIsUnder(projectPath, WrapperRel);
    assert dot !in m3 && wrap !in m3;
    assert wrap[..|dot|] == dot && IsCutAt(wrap, |dot|);
    MkDirsStops(m3, fail, wrap, |dot|);
  }

  // ---------------------------------------------------------------------------
  // Paths the platform refuses

  /**
   * A project path holding NUL: every `mkdirs` creates nothing and
   * `createPomXml` throws before writing, so the disk is left as it was.
   */
  lemma ProjectUnchangedOnInvalidPath(m: Tree, fail: set<Path>, projectPath: Path, packageName: string,
                                      domainName: string, description: string, dependencies: string)
    requires !ValidPath(projectPath)
    ensures StructureThrows(projectPath, packageName)
    ensures ProjectResult(m, fail, projectPath, packageName, domainName, description, dependencies) == m
  {
    PackageLayoutValid(projectPath, packageName);
    ProjectLayoutValid(projectPath);
  }

  /**
   * A package name holding NUL: `mkdirs` on the two Java source paths creates
   * nothing, and `createProjectStructure` throws in `createApplicationClass`,
   * after `pom.xml`. Below the project path, the pom is the only file that can
   * exist, every directory lies on the way to the resources or the wrapper
   * directory, and the package directories and the Application class are absent.
   */
  lemma ProjectAborts(m: Tree, fail: set<Path>, projectPath: Path, packageName: string,
                      domainName: string, description: string, dependencies: string)
    requires Fresh(m, fail, projectPath) && !ValidPath(packageName)
    ensures StructureThrows(projectPath, packageName)
    ensures var r := ProjectResult(m, fail, projectPath, packageName, domainName, description, dependencies);
      PomFile(projectPath) !in fail ==>
        PomFile(projectPath) in r && r[PomFile(projectPath)] == File(Pom(domainName, dependencies))
    ensures var r := ProjectResult(m, fail, projectPath, packageName, domainName, description, dependencies);
      forall q :: IsUnder(q, projectPath) && q in r && r[q].File? ==> q == PomFile(projectPath)
    ensures var r := ProjectResult(m, fail, projectPath, packageName, domainName, description, dependencies);
      forall q :: IsUnder(q, projectPath) && IsDir(r, q) ==>
        q in Cuts(ResourcesDir(projectPath)) + Cuts(WrapperDir(projectPath))
    ensures var r := ProjectResult(m, fail, projectPath, packageName, domainName, description, dependencies);
      MainJavaDir(projectPath, packageName) !in r && TestJavaDir(projectPath, packageName) !in r &&
      ApplicationFile(projectPath, packageName) !in r
  {
    var main, res := MainJavaDir(projectPath, packageName), ResourcesDir(projectPath);
    var test, wrap := TestJavaDir(projectPath, packageName), WrapperDir(projectPath);
    var m1 := MkDirsResult(m, fail, main);
    var m2 := MkDirsResult(m1, fail, res);
    var m3 := MkDirsResult(m2, fail, test);
    var dirs := DirectoriesResult(m, fail, projectPath, packageName);
    PackageLayoutValid(projectPath, packageName);
    ProjectLayoutValid(projectPath);
    assert m1 == m && m3 == m2;
    MkDirsFrame(m1, fail, res);
    MkDirsFrame(m3, fail, wrap);
    WrittenFrame(dirs, fail, PomFile(projectPath), Pom(domainName, dependencies));
    if PomFile(projectPath) !in fail {
      RootFileWritable(m, fail, projectPath, packageName, PomRel);
    }
    forall q | q in Cuts(res) + Cuts(wrap)
      ensures ValidPath(q)
    {
      if q in Cuts(res) {
        ValidCut(res, q);
      } else {
        ValidCut(wrap, q);
      }
    }
    JoinIsUnder(projectPath, MainJavaRel(packageName));
    JoinIsUnder(projectPath, TestJavaRel(packageName));
    JoinIsUnder(projectPath, ApplicationRel(packageName));
  }

  /**
   * With nothing failing below a fresh project path, a package name holding NUL
   * leaves exactly the resources and wrapper directories with their ancestors,
   * and the pom.
   */
  lemma AbortedClean(m: Tree, fail: set<Path>, projectPath: Path, packageName: string,
                     domainName: string, description: string, dependencies: string)
    requires Fresh(m, fail, projectPath) && NoFailBelow(fail, projectPath) && !ValidPath(packageName)
    ensures var r := ProjectResult(m, fail, projectPath, packageName, domainName, description, dependencies);
      PomFile(projectPath) in r && r[PomFile(projectPath)] == File(Pom(domainName, dependencies))
    ensures var r := ProjectResult(m, fail, projectPath, packageName, domainName, description, dependencies);
      forall q :: IsUnder(q, projectPath) && q in r && r[q].File? ==> q == PomFile(projectPath)
    ensures var r := ProjectResult(m, fail, projectPath, packageName, domainName, description, dependencies);
      forall q :: IsUnder(q, projectPath) ==>
        (IsDir(r, q) <==> q in Cuts(ResourcesDir(projectPath)) + Cuts(WrapperDir(projectPath)))
  {
    var res, wrap := ResourcesDir(projectPath), WrapperDir(projectPath);
    var dirs := DirectoriesResult(m, fail, projectPath, packageName);
    ProjectAborts(m, fail, projectPath, packageName, domainName, description, dependencies);
    PackageLayoutValid(projectPath, packageName);
    ProjectLayoutValid(projectPath);
    JoinIsUnder(projectPath, PomRel);
    assert Fill(m, {}) == m;
    forall q | q in Cuts(res)
      ensures !Blocked(m, fail, q)
    {
      CutUnblocked(m, fail, projectPath, {}, ResourcesRel, q);
    }
    MkDirsClean(m, fail, res);
    var made := Cuts(res);
    forall q | q in Cuts(wrap)
      ensures !Blocked(Fill(m, made), fail, q)
    {
      CutUnblocked(m, fail, projectPath, made, WrapperRel, q);
    }
    MkDirsClean(Fill(m, made), fail, wrap);
    FillFill(m, made, Cuts(wrap));
    assert dirs == Fill(m, made + Cuts(wrap));
    WrittenFrame(dirs, fail, PomFile(projectPath), Pom(domainName, dependencies));
  }

  /** `createProjectStructure` keeps the disk well formed, whatever fails. */
  lemma ProjectWellFormed(m: Tree, fail: set<Path>, projectPath: Path, packageName: string,
                          domainName: string, description: string, dependencies: string)
    requires WellFormed(m)
    ensures WellFormed(ProjectResult(m, fail, projectPath, packageName, domainName, description, dependencies))
  {
    var m1 := MkDirsResult(m, fail, MainJavaDir(projectPath, packageName));
    var m2 := MkDirsResult(m1, fail, ResourcesDir(projectPath));
    var m3 := MkDirsResult(m2, fail, TestJavaDir(projectPath, packageName));
    var dirs := DirectoriesResult(m, fail, projectPath, packageName);
    var ws := SeparateWrites(projectPath, packageName, domainName, description, dependencies);
    MkDirsWellFormed(m, fail, MainJavaDir(projectPath, packageName));
    MkDirsWellFormed(m1, fail, ResourcesDir(projectPath));
    MkDirsWellFormed(m2, fail, TestJavaDir(projectPath, packageName));
    MkDirsWellFormed(m3, fail, WrapperDir(projectPath));
    WrittenWellFormed(dirs, fail, PomFile(projectPath), Pom(domainName, dependencies));
    WriteEachWellFormed(dirs, fail, ws);
    WriteUntilFailureWellFormed(WriteEach(dirs, fail, ws), fail, WrapperWrites(projectPath));
  }
}
