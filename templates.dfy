/**
 * The text of every generated artifact, as a pure function of the request
 * fields, and the directory path derived from the package name. Nothing here
 * touches the disk; each renderer is a fixed literal or a literal concatenation
 * around its inputs, with no escaping.
 */
module Templates {

  // ---------------------------------------------------------------------------
  // Package name to directory path: `packageName.replace('.', '/')`

  function SlashForDot(c: char): char
  {
    if c == '.' then '/' else c
  }

  function DotForSlash(c: char): char
  {
    if c == '/' then '.' else c
  }

  /** Every '.' of the package name becomes '/', every other character stays at its index. */
  function PackagePath(packageName: string): (r: string)
    ensures |r| == |packageName|
    ensures forall i :: 0 <= i < |r| ==> r[i] == SlashForDot(packageName[i])
  {
    if packageName == [] then []
    else [SlashForDot(packageName[0])] + PackagePath(packageName[1..])
  }

  /** The reverse reading: a directory path back to a dotted name. */
  function DottedName(path: string): (r: string)
    ensures |r| == |path|
    ensures forall i :: 0 <= i < |r| ==> r[i] == DotForSlash(path[i])
  {
    if path == [] then []
    else [DotForSlash(path[0])] + DottedName(path[1..])
  }

  /** No '.' survives in the package path, and a '/' stands exactly where a '.' or '/' was. */
  lemma PackagePathShape(packageName: string)
    ensures forall i :: 0 <= i < |packageName| ==> PackagePath(packageName)[i] != '.'
    ensures forall i :: 0 <= i < |packageName| ==>
              (PackagePath(packageName)[i] == '/' <==> packageName[i] == '.' || packageName[i] == '/')
  {
  }

  /** A package name without '/' is recovered from its directory path. */
  lemma {:induction false} PackagePathRoundTrip(packageName: string)
    requires forall i :: 0 <= i < |packageName| ==> packageName[i] != '/'
    ensures DottedName(PackagePath(packageName)) == packageName
  {
    if packageName != [] {
      PackagePathRoundTrip(packageName[1..]);
      assert PackagePath(packageName) == [SlashForDot(packageName[0])] + PackagePath(packageName[1..]);
      assert DottedName(PackagePath(packageName))
          == [DotForSlash(SlashForDot(packageName[0]))] + DottedName(PackagePath(packageName[1..]));
    }
  }

  // ---------------------------------------------------------------------------
  // pom.xml

  const GroupIdOpen: string := "    <groupId>"
  const GroupIdClose: string := "</groupId>\n"
  const DependenciesOpen: string := "    <dependencies>\n"

  const PomPreamble: string :=
    "<project xmlns=\"http://maven.apache.org/POM/4.0.0\"\n" +
    "         xmlns:xsi=\"http://www.w3.org/2001/XMLSchema-instance\"\n" +
    "         xsi:schemaLocation=\"http://maven.apache.org/POM/4.0.0\n" +
    "                             http://maven.apache.org/xsd/maven-4.0.0.xsd\">\n" +
    "    <modelVersion>4.0.0</modelVersion>\n"

  const PomParent: string :=
    "    <artifactId>demo</artifactId>\n" +
    "    <version>1.0.0</version>\n" +
    "    <parent>\n" +
    "        <groupId>org.springframework.boot</groupId>\n" +
    "        <artifactId>spring-boot-starter-parent</artifactId>\n" +
    "        <version>2.6.2</version>\n" +
    "        <relativePath/> <!-- lookup parent from repository -->\n" +
    "    </parent>\n"

  const WebDependency: string :=
    "        <dependency>\n" +
    "            <groupId>org.springframework.boot</groupId>\n" +
    "            <artifactId>spring-boot-starter-web</artifactId>\n" +
    "        </dependency>\n"

  const TestDependency: string :=
    "        <dependency>\n" +
    "            <groupId>org.springframework.boot</groupId>\n" +
    "            <artifactId>spring-boot-starter-test</artifactId>\n" +
    "            <scope>test</scope>\n" +
    "        </dependency>\n"

  const PomHead: string := PomPreamble + GroupIdOpen
  const PomMiddle: string := GroupIdClose + PomParent + DependenciesOpen
  const PomClosing: string := "    </dependencies>\n" + "</project>"
  const PomTail: string := WebDependency + TestDependency + PomClosing

  /** The build descriptor: `domainName` as group id, `dependencies` spliced into the dependency block. */
  function Pom(domainName: string, dependencies: string): string
  {
    PomHead + domainName + PomMiddle + dependencies + PomTail
  }

  /** Where the dependency block's supplied part starts, for a group id of length `n`. */
  function PomDependenciesStart(n: nat): nat
  {
    |PomHead| + n + |PomMiddle|
  }

  /** Reads the group id of length `n` back out of a build descriptor. */
  function GroupIdOf(pom: string, n: nat): string
    requires |PomHead| + n <= |pom|
  {
    pom[|PomHead|..|PomHead| + n]
  }

  /** Reads the supplied dependency declarations back out of a build descriptor. */
  function DependenciesOf(pom: string, n: nat): string
    requires PomDependenciesStart(n) + |PomTail| <= |pom|
  {
    pom[PomDependenciesStart(n)..|pom| - |PomTail|]
  }

  /** Where each of the five parts of `a + x + b + y + c` sits. */
  lemma Splice5(a: string, x: string, b: string, y: string, c: string)
    ensures var r, e := a + x + b + y + c, |a| + |x| + |b|;
      && |r| == e + |y| + |c|
      && r[..|a|] == a
      && r[|a|..|a| + |x|] == x
      && r[|a| + |x|..e] == b
      && r[e..e + |y|] == y
      && r[e + |y|..] == c
  {
    var r, e := a + x + b + y + c, |a| + |x| + |b|;
    assert r[..|a|] == a;
    assert r[|a|..|a| + |x|] == x;
    assert r[|a| + |x|..e] == b;
    assert r[e..e + |y|] == y;
    assert r[e + |y|..] == c;
  }

  /** The pieces around the first field of a five-part text whose head and middle are themselves joined. */
  lemma FirstFieldFrame(pre: string, open: string, x: string, close: string, m1: string, m2: string,
                        y: string, tail: string)
    ensures var r, g := (pre + open) + x + ((close + m1) + m2) + y + tail, |pre + open|;
      && r[..|pre|] == pre
      && r[g - |open|..g] == open
      && r[g..g + |x|] == x
      && r[g + |x|..g + |x| + |close|] == close
  {
    var h, m := pre + open, (close + m1) + m2;
    var r, g := h + x + m + y + tail, |h|;
    Splice5(h, x, m, y, tail);
    assert h[..|pre|] == pre && h[|pre|..] == open;
    assert m[..|close|] == close;
    assert r[..|pre|] == r[..g][..|pre|];
    assert r[g - |open|..g] == r[..g][|pre|..];
    assert r[g + |x|..g + |x| + |close|] == r[g + |x|..g + |x| + |m|][..|close|];
  }

  /** Where each of the three parts of `r == a + b + c` sits. */
  lemma Parts3(r: string, a: string, b: string, c: string)
    requires r == a + b + c
    ensures r[..|a|] == a && r[|a|..|a| + |b|] == b && r[|a| + |b|..] == c
  {
    assert r[..|a|] == a;
    assert r[|a|..|a| + |b|] == b;
    assert r[|a| + |b|..] == c;
  }

  /** The fixed middle closes the group id, and ends by opening the dependency block. */
  lemma PomMiddleParts()
    ensures PomMiddle[..|GroupIdClose|] == GroupIdClose
    ensures PomMiddle[|PomMiddle| - |DependenciesOpen|..] == DependenciesOpen
  {
    Parts3(PomMiddle, GroupIdClose, PomParent, DependenciesOpen);
  }

  /** The fixed tail is the web-starter dependency, the test-starter dependency, then the closing tags. */
  lemma PomTailParts()
    ensures PomTail[..|WebDependency|] == WebDependency
    ensures PomTail[|WebDependency|..|WebDependency| + |TestDependency|] == TestDependency
    ensures PomTail[|WebDependency| + |TestDependency|..] == PomClosing
  {
    Parts3(PomTail, WebDependency, TestDependency, PomClosing);
  }

  /** The descriptor is its fixed head, the group id, the fixed middle, the dependencies and the fixed tail. */
  lemma PomParts(domainName: string, dependencies: string)
    ensures var r, g, e := Pom(domainName, dependencies), |PomHead|, PomDependenciesStart(|domainName|);
      && |r| == e + |dependencies| + |PomTail|
      && r[..g] == PomHead
      && r[g..g + |domainName|] == domainName
      && r[g + |domainName|..e] == PomMiddle
      && r[e..e + |dependencies|] == dependencies
      && r[e + |dependencies|..] == PomTail
  {
    Splice5(PomHead, domainName, PomMiddle, dependencies, PomTail);
  }

  /** `domainName` sits verbatim between `    <groupId>` and `</groupId>\n`, right after the fixed preamble. */
  lemma PomGroupIdLayout(domainName: string, dependencies: string)
    ensures var r, g := Pom(domainName, dependencies), |PomHead|;
      && r[..|PomPreamble|] == PomPreamble
      && r[g - |GroupIdOpen|..g] == GroupIdOpen
      && r[g..g + |domainName|] == domainName
      && r[g + |domainName|..g + |domainName| + |GroupIdClose|] == GroupIdClose
  {
    FirstFieldFrame(PomPreamble, GroupIdOpen, domainName, GroupIdClose, PomParent, DependenciesOpen,
                    dependencies, PomTail);
  }

  /** Both inputs can be read back from the descriptor once the group id's length is known. */
  lemma PomRoundTrip(domainName: string, dependencies: string)
    ensures |PomHead| + |domainName| <= |Pom(domainName, dependencies)|
    ensures PomDependenciesStart(|domainName|) + |PomTail| <= |Pom(domainName, dependencies)|
    ensures GroupIdOf(Pom(domainName, dependencies), |domainName|) == domainName
    ensures DependenciesOf(Pom(domainName, dependencies), |domainName|) == dependencies
  {
    PomParts(domainName, dependencies);
  }

  /** Descriptors with group ids of one length are equal only for equal inputs. */
  lemma PomInjective(d1: string, deps1: string, d2: string, deps2: string)
    requires |d1| == |d2| && Pom(d1, deps1) == Pom(d2, deps2)
    ensures d1 == d2 && deps1 == deps2
  {
    PomRoundTrip(d1, deps1);
    PomRoundTrip(d2, deps2);
  }

  // ---------------------------------------------------------------------------
  // Application.java

  const PackageKeyword: string := "package "

  const ApplicationBody: string :=
    "import org.springframework.boot.SpringApplication;\n" +
    "import org.springframework.boot.autoconfigure.SpringBootApplication;\n\n" +
    "@SpringBootApplication\n" +
    "public class Application {\n" +
    "    public static void main(String[] args) {\n" +
    "        SpringApplication.run(Application.class, args);\n" +
    "    }\n" +
    "}"

  const ApplicationTail: string := ";\n\n" + ApplicationBody

  /** The entry point, declaring `packageName` as its package. */
  function ApplicationClass(packageName: string): string
  {
    PackageKeyword + packageName + ApplicationTail
  }

  /** Reads the declared package back out of an entry-point source. */
  function DeclaredPackage(source: string): string
    requires |PackageKeyword| + |ApplicationTail| <= |source|
  {
    source[|PackageKeyword|..|source| - |ApplicationTail|]
  }

  /** The source begins with `package <packageName>;` and a blank line, and the name reads back. */
  lemma ApplicationClassRoundTrip(packageName: string)
    ensures var r := ApplicationClass(packageName);
      && |PackageKeyword| + |ApplicationTail| <= |r|
      && r[..|PackageKeyword + packageName + ";\n\n"|] == PackageKeyword + packageName + ";\n\n"
      && DeclaredPackage(r) == packageName
  {
    var r := ApplicationClass(packageName);
    assert r == (PackageKeyword + packageName + ";\n\n") + ApplicationBody;
    assert r[..|PackageKeyword + packageName + ";\n\n"|] == PackageKeyword + packageName + ";\n\n";
    assert r[|PackageKeyword|..|r| - |ApplicationTail|] == packageName;
  }

  // ---------------------------------------------------------------------------
  // README.md

  const ReadmeHeading: string := "# Project Description\n\n"

  function Readme(description: string): string
  {
    ReadmeHeading + description
  }

  /** Strips the heading off a README. */
  function DescriptionOf(readme: string): string
    requires |ReadmeHeading| <= |readme|
  {
    readme[|ReadmeHeading|..]
  }

  /** The README is the heading, a blank line and the description verbatim; empty gives the heading alone. */
  lemma ReadmeRoundTrip(description: string)
    ensures |Readme(description)| == |ReadmeHeading| + |description|
    ensures Readme(description)[..|ReadmeHeading|] == ReadmeHeading
    ensures DescriptionOf(Readme(description)) == description
    ensures description == "" ==> Readme(description) == "# Project Description\n\n"
  {
    assert Readme(description)[..|ReadmeHeading|] == ReadmeHeading;
    assert Readme(description)[|ReadmeHeading|..] == description;
  }

  // ---------------------------------------------------------------------------
  // Lines of a text file

  /** `s` cut at every '\n'; a text without a final newline ends in a non-empty line. */
  function Lines(s: string): (r: seq<string>)
    ensures |r| >= 1
    decreases |s|
  {
    if s == [] then [""]
    else
      var rest := Lines(s[1..]);
      if s[0] == '\n' then [""] + rest else [[s[0]] + rest[0]] + rest[1..]
  }

  predicate NoNewline(line: string)
  {
    '\n' !in line
  }

  /** A text starting with a newline-free `a` has `a` at the head of its first line. */
  lemma {:induction false} LinesPrefix(a: string, t: string)
    requires NoNewline(a)
    ensures Lines(a + t) == [a + Lines(t)[0]] + Lines(t)[1..]
    decreases |a|
  {
    var l := Lines(t);
    if a == [] {
      assert a + t == t && a + l[0] == l[0];
      assert l == [l[0]] + l[1..];
    } else {
      assert a[0] in a;
      assert forall c :: c in a[1..] ==> c in a;
      LinesPrefix(a[1..], t);
      assert (a + t)[1..] == a[1..] + t;
      var rest := Lines(a[1..] + t);
      assert rest == [a[1..] + l[0]] + l[1..];
      assert rest[0] == a[1..] + l[0] && rest[1..] == l[1..];
      assert [a[0]] + (a[1..] + l[0]) == a + l[0];
    }
  }

  /** A newline-free line followed by '\n' is the first line, whatever follows. */
  lemma LinesCons(a: string, t: string)
    requires NoNewline(a)
    ensures Lines(a + "\n" + t) == [a] + Lines(t)
  {
    LinesPrefix(a, "\n" + t);
    assert a + "\n" + t == a + ("\n" + t);
    assert ("\n" + t)[1..] == t;
    var rest := Lines(t);
    assert Lines("\n" + t) == [""] + rest;
    assert ([""] + rest)[0] == "" && ([""] + rest)[1..] == rest;
    assert a + "" == a;
  }

  /** A newline-free text is a single line. */
  lemma LinesSingle(a: string)
    requires NoNewline(a)
    ensures Lines(a) == [a]
  {
    LinesPrefix(a, "");
    assert a + "" == a;
  }

  /** The lines `ls` with a '\n' between each two and none after the last. */
  function JoinLines(ls: seq<string>): string
    requires |ls| >= 1
  {
    if |ls| == 1 then ls[0] else ls[0] + "\n" + JoinLines(ls[1..])
  }

  /** Cutting joined newline-free lines at '\n' gives the lines back. */
  lemma {:induction false} LinesOfJoin(ls: seq<string>)
    requires |ls| >= 1 && forall k :: 0 <= k < |ls| ==> NoNewline(ls[k])
    ensures Lines(JoinLines(ls)) == ls
  {
    if |ls| == 1 {
      LinesSingle(ls[0]);
    } else {
      LinesOfJoin(ls[1..]);
      LinesCons(ls[0], JoinLines(ls[1..]));
      assert ls == [ls[0]] + ls[1..];
    }
  }

  /** `w` occurs in `s` starting at index `i`. */
  predicate OccursAt(s: string, w: string, i: int)
  {
    0 <= i && i + |w| <= |s| && s[i..i + |w|] == w
  }

  /** `w` occurs in `s`. */
  predicate Contains(s: string, w: string)
  {
    exists i :: 0 <= i <= |s| && OccursAt(s, w, i)
  }

  lemma ContainsMiddle(a: string, w: string, b: string)
    ensures Contains(a + w + b, w)
  {
    var s := a + w + b;
    var i := |a|;
    assert s[i..i + |w|] == w;
    assert 0 <= i <= |s| && OccursAt(s, w, i);
  }

  // ---------------------------------------------------------------------------
  // Fixed artifacts

  const ApplicationProperties: string :=
    "spring.application.name=demo\n" +
    "server.port=8080"

  const Gitignore: string :=
    "target/\n" +
    "*.log\n" +
    "*.class\n" +
    ".classpath\n" +
    ".project\n" +
    ".settings/\n" +
    "*.iml\n" +
    "*.ipr\n" +
    "*.iws"

  // The help text's one sentence, cut around the two script names it mentions.
  const HelpHeading: string := "# Help\n\n"
  const HelpLead: string := "This is a generated Spring Boot project. Use "

  const HelpMd: string :=
    HelpHeading +
    HelpLead + "`mvnw`" + " or " + "`mvnw.cmd`" + " to build the project."

  // The wrapper files, cut around the distribution archive and the jar they name.
  const DistributionKey: string := "distributionUrl="
  const DistributionArchive: string := "apache-maven-3.6.3-bin.zip"

  const MavenWrapperProperties: string :=
    DistributionKey + "https://repo.maven.apache.org/maven2/org/apache/maven/apache-maven/3.6.3/" + DistributionArchive

  const UnixJar: string := ".mvn/wrapper/maven-wrapper.jar"
  const WindowsJar: string := ".mvn\\wrapper\\maven-wrapper.jar"

  const Mvnw: string :=
    "#!/bin/sh\n" +
    "BASEDIR=$(dirname \"$0\")\n" +
    "java -jar \"$BASEDIR/" + UnixJar + "\" \"$@\""

  const MvnwCmd: string :=
    "@echo off\n" +
    "setlocal\n" +
    "set BASEDIR=%~dp0\n" +
    "java -jar \"%BASEDIR%\\" + WindowsJar + "\" %*"

  const PropertiesSettings: seq<string> := ["spring.application.name=demo", "server.port=8080"]

  /** The properties file sets the application name and the port, one per line, with no final newline. */
  lemma ApplicationPropertiesLines()
    ensures Lines(ApplicationProperties) == PropertiesSettings
  {
    var ls := PropertiesSettings;
    assert JoinLines(ls) == "spring.application.name=demo" + "\n" + JoinLines(ls[1..]);
    assert ApplicationProperties == JoinLines(ls);
    LinesOfJoin(ls);
  }

  const GitignorePatterns: seq<string> :=
    ["target/", "*.log", "*.class", ".classpath", ".project", ".settings/", "*.iml", "*.ipr", "*.iws"]

  /** The ignore file is the nine patterns joined by '\n'. */
  lemma GitignoreText()
    ensures Gitignore == JoinLines(GitignorePatterns)
  {
    var ls := GitignorePatterns;
    assert JoinLines(ls[8..]) == "*.iws";
    assert JoinLines(ls[7..]) == "*.ipr" + "\n" + JoinLines(ls[8..]);
    assert JoinLines(ls[6..]) == "*.iml" + "\n" + JoinLines(ls[7..]);
    assert JoinLines(ls[5..]) == ".settings/" + "\n" + JoinLines(ls[6..]);
    assert JoinLines(ls[4..]) == ".project" + "\n" + JoinLines(ls[5..]);
    assert JoinLines(ls[3..]) == ".classpath" + "\n" + JoinLines(ls[4..]);
    assert JoinLines(ls[2..]) == "*.class" + "\n" + JoinLines(ls[3..]);
    assert JoinLines(ls[1..]) == "*.log" + "\n" + JoinLines(ls[2..]);
    assert JoinLines(ls) == "target/" + "\n" + JoinLines(ls[1..]);
  }

  /** The ignore file lists the nine patterns, one per line, with no final newline. */
  lemma GitignoreLines()
    ensures Lines(Gitignore) == GitignorePatterns
  {
    GitignoreText();
    LinesOfJoin(GitignorePatterns);
  }

  /** The wrapper properties name the Maven 3.6.3 binary archive as `distributionUrl`. */
  lemma WrapperDistribution()
    ensures MavenWrapperProperties[..|DistributionKey|] == "distributionUrl="
    ensures MavenWrapperProperties[|MavenWrapperProperties| - |DistributionArchive|..] == "apache-maven-3.6.3-bin.zip"
  {
  }
}
