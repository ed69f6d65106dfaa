/**
 * The generator service. Each operation changes the disk in place, and each is
 * proved to leave exactly the tree that its specification function (in `Project`
 * and `Removal`) describes; the properties are proved about those functions.
 */
module Generator {
  import opened Paths
  import opened FileSystem
  import opened Templates
  import opened Layout
  import opened Project
  import opened Removal

  /**
   * `createProjectStructure`: the directories, six guarded writes, then the
   * wrapper files. `thrown` reports an `InvalidPathException` escaping one of
   * the steps; the steps after it do not run.
   */
  method CreateProjectStructure(fs: Disk, projectPath: Path, packageName: string, domainName: string,
                                description: string, dependencies: string) returns (thrown: bool)
    requires fs.Valid()
    modifies fs
    ensures fs.Valid()
    ensures thrown == StructureThrows(projectPath, packageName)
    ensures fs.nodes == ProjectResult(old(fs.nodes), fs.failWrite, projectPath, packageName,
                                      domainName, description, dependencies)
  {
    CreateDirectories(fs, projectPath, packageName);
    ghost var dirs := fs.nodes;
    ghost var ws := SeparateWrites(projectPath, packageName, domainName, description, dependencies);
    PackageLayoutValid(projectPath, packageName);
    ProjectLayoutValid(projectPath);
    thrown := CreatePomXml(fs, projectPath, domainName, dependencies);
    if !thrown {
      thrown := CreateApplicationClass(fs, projectPath, packageName);
    }
    if !thrown {
      thrown := CreateApplicationProperties(fs, projectPath);
    }
    if !thrown {
      CreateReadme(fs, projectPath, description);
      CreateGitignore(fs, projectPath);
      CreateHelpMd(fs, projectPath);
      WriteEachUnrolled(dirs, fs.failWrite, ws);
      thrown := CreateMavenWrapperFiles(fs, projectPath);
    }
  }

  /** Six writes, each in its own `try`, one after the other. */
  lemma WriteEachUnrolled(m: Tree, fail: set<Path>, ws: seq<Entry>)
    requires |ws| == 6
    ensures WriteEach(m, fail, ws) ==
      var m1 := Written(m, fail, ws[0].path, ws[0].text);
      var m2 := Written(m1, fail, ws[1].path, ws[1].text);
      var m3 := Written(m2, fail, ws[2].path, ws[2].text);
      var m4 := Written(m3, fail, ws[3].path, ws[3].text);
      var m5 := Written(m4, fail, ws[4].path, ws[4].text);
      Written(m5, fail, ws[5].path, ws[5].text)
  {
    var m1 := Written(m, fail, ws[0].path, ws[0].text);
    var m2 := Written(m1, fail, ws[1].path, ws[1].text);
    var m3 := Written(m2, fail, ws[2].path, ws[2].text);
    var m4 := Written(m3, fail, ws[3].path, ws[3].text);
    var m5 := Written(m4, fail, ws[4].path, ws[4].text);
    assert WriteEach(m5, fail, ws[5..]) == Written(m5, fail, ws[5].path, ws[5].text);
    assert WriteEach(m4, fail, ws[4..]) == WriteEach(m5, fail, ws[5..]);
    assert WriteEach(m3, fail, ws[3..]) == WriteEach(m4, fail, ws[4..]);
    assert WriteEach(m2, fail, ws[2..]) == WriteEach(m3, fail, ws[3..]);
    assert WriteEach(m1, fail, ws[1..]) == WriteEach(m2, fail, ws[2..]);
  }

  /** `createDirectories`: `mkdirs` on the two Java source trees, the resources and the wrapper directory. */
  method CreateDirectories(fs: Disk, projectPath: Path, packageName: string)
    requires fs.Valid()
    modifies fs
    ensures fs.Valid()
    ensures fs.nodes == DirectoriesResult(old(fs.nodes), fs.failWrite, projectPath, packageName)
  {
    var srcMainJavaPath := projectPath + "/src/main/java/" + PackagePath(packageName);
    var srcMainResourcesPath := projectPath + "/src/main/resources";
    var srcTestJavaPath := projectPath + "/src/test/java/" + PackagePath(packageName);
    var mavenWrapperPath := projectPath + "/.mvn/wrapper";
    assert "/src/main/java/" == "/" + "src/main/java/" && "/src/test/java/" == "/" + "src/test/java/";
    assert "/src/main/resources" == "/" + ResourcesRel && "/.mvn/wrapper" == "/" + WrapperRel;
    assert srcMainJavaPath == MainJavaDir(projectPath, packageName);
    assert srcMainResourcesPath == ResourcesDir(projectPath);
    assert srcTestJavaPath == TestJavaDir(projectPath, packageName);
    assert mavenWrapperPath == WrapperDir(projectPath);
    fs.MkDirs(srcMainJavaPath);
    fs.MkDirs(srcMainResourcesPath);
    fs.MkDirs(srcTestJavaPath);
    fs.MkDirs(mavenWrapperPath);
  }

  /**
   * `createPomXml`: one guarded write of the rendered `pom.xml`. `Paths.get`
   * throws for a path it cannot name, outside the `try`'s reach.
   */
  method CreatePomXml(fs: Disk, projectPath: Path, domainName: string, dependencies: string) returns (thrown: bool)
    requires fs.Valid()
    modifies fs
    ensures fs.Valid()
    ensures thrown == !ValidPath(PomFile(projectPath))
    ensures fs.nodes == Written(old(fs.nodes), fs.failWrite, PomFile(projectPath), Pom(domainName, dependencies))
  {
    var pomContent := Pom(domainName, dependencies);
    assert "/pom.xml" == "/" + PomRel;
    assert projectPath + "/pom.xml" == PomFile(projectPath);
    thrown := !ValidPath(projectPath + "/pom.xml");
    if !thrown {
      var written := fs.Write(projectPath + "/pom.xml", pomContent);
    }
  }

  /**
   * `createApplicationClass`: the main class, in the directory named after the
   * package; `Paths.get` throws when the path holds NUL.
   */
  method CreateApplicationClass(fs: Disk, projectPath: Path, packageName: string) returns (thrown: bool)
    requires fs.Valid()
    modifies fs
    ensures fs.Valid()
    ensures thrown == !ValidPath(ApplicationFile(projectPath, packageName))
    ensures fs.nodes == Written(old(fs.nodes), fs.failWrite, ApplicationFile(projectPath, packageName),
                                ApplicationClass(packageName))
  {
    var packagePath := PackagePath(packageName);
    var classContent := ApplicationClass(packageName);
    var target := projectPath + "/src/main/java/" + packagePath + "/Application.java";
    assert "/src/main/java/" == "/" + "src/main/java/";
    assert target == ApplicationFile(projectPath, packageName);
    thrown := !ValidPath(target);
    if !thrown {
      var written := fs.Write(target, classContent);
    }
  }

  /** `createApplicationProperties`; `Paths.get` throws when the path holds NUL. */
  method CreateApplicationProperties(fs: Disk, projectPath: Path) returns (thrown: bool)
    requires fs.Valid()
    modifies fs
    ensures fs.Valid()
    ensures thrown == !ValidPath(PropertiesFile(projectPath))
    ensures fs.nodes == Written(old(fs.nodes), fs.failWrite, PropertiesFile(projectPath), ApplicationProperties)
  {
    assert "/src/main/resources/application.properties" == "/" + PropertiesRel;
    assert projectPath + "/src/main/resources/application.properties" == PropertiesFile(projectPath);
    thrown := !ValidPath(projectPath + "/src/main/resources/application.properties");
    if !thrown {
      var written := fs.Write(projectPath + "/src/main/resources/application.properties", ApplicationProperties);
    }
  }

  /** `createReadme`: the heading followed by the description. */
  method CreateReadme(fs: Disk, projectPath: Path, description: string)
    requires fs.Valid()
    modifies fs
    ensures fs.Valid()
    ensures fs.nodes == Written(old(fs.nodes), fs.failWrite, ReadmeFile(projectPath), Readme(description))
  {
    var readmeContent := Readme(description);
    assert "/README.md" == "/" + ReadmeRel;
    assert projectPath + "/README.md" == ReadmeFile(projectPath);
    var written := fs.Write(projectPath + "/README.md", readmeContent);
  }

  /** `createGitignore`. */
  method CreateGitignore(fs: Disk, projectPath: Path)
    requires fs.Valid()
    modifies fs
    ensures fs.Valid()
    ensures fs.nodes == Written(old(fs.nodes), fs.failWrite, GitignoreFile(projectPath), Gitignore)
  {
    assert "/.gitignore" == "/" + GitignoreRel;
    assert projectPath + "/.gitignore" == GitignoreFile(projectPath);
    var written := fs.Write(projectPath + "/.gitignore", Gitignore);
  }

  /** `createHelpMd`. */
  method CreateHelpMd(fs: Disk, projectPath: Path)
    requires fs.Valid()
    modifies fs
    ensures fs.Valid()
    ensures fs.nodes == Written(old(fs.nodes), fs.failWrite, HelpFile(projectPath), HelpMd)
  {
    assert "/Help.md" == "/" + HelpRel;
    assert projectPath + "/Help.md" == HelpFile(projectPath);
    var written := fs.Write(projectPath + "/Help.md", HelpMd);
  }

  /**
   * `createMavenWrapperFiles`: three writes in one `try`, so the first failure
   * skips the rest. The three paths extend the same project path, so `Paths.get`
   * throws, if at all, on the first.
   */
  method CreateMavenWrapperFiles(fs: Disk, projectPath: Path) returns (thrown: bool)
    requires fs.Valid()
    modifies fs
    ensures fs.Valid()
    ensures thrown == !ValidPath(WrapperPropertiesFile(projectPath))
    ensures fs.nodes == WriteUntilFailure(old(fs.nodes), fs.failWrite, WrapperWrites(projectPath))
  {
    ghost var vs := WrapperWrites(projectPath);
    WrapperFilePaths(projectPath);
    thrown := !ValidPath(projectPath + "/.mvn/wrapper/maven-wrapper.properties");
    if thrown {
      return;
    }
    var ok := fs.Write(projectPath + "/.mvn/wrapper/maven-wrapper.properties", MavenWrapperProperties);
    if ok {
      ghost var m1 := fs.nodes;
      assert WriteUntilFailure(old(fs.nodes), fs.failWrite, vs) == WriteUntilFailure(m1, fs.failWrite, vs[1..]);
      ok := fs.Write(projectPath + "/mvnw", Mvnw);
      if ok {
        ghost var m2 := fs.nodes;
        assert WriteUntilFailure(m1, fs.failWrite, vs[1..]) == WriteUntilFailure(m2, fs.failWrite, vs[2..]);
        ok := fs.Write(projectPath + "/mvnw.cmd", MvnwCmd);
        assert WriteUntilFailure(m2, fs.failWrite, vs[2..]) == WriteUntilFailure(fs.nodes, fs.failWrite, vs[3..]);
      }
    }
  }

  /** The wrapper file paths as `createMavenWrapperFiles` spells them. */
  lemma WrapperFilePaths(projectPath: Path)
    ensures projectPath + "/.mvn/wrapper/maven-wrapper.properties" == WrapperWrites(projectPath)[0].path
    ensures projectPath + "/mvnw" == WrapperWrites(projectPath)[1].path
    ensures projectPath + "/mvnw.cmd" == WrapperWrites(projectPath)[2].path
  {
    assert "/.mvn/wrapper/maven-wrapper.properties" == "/" + WrapperPropertiesRel;
    assert "/mvnw" == "/" + MvnwRel && "/mvnw.cmd" == "/" + MvnwCmdRel;
  }

  /**
   * `deleteDirectory`: delete everything `listFiles` reports, each by a
   * recursive call, then the path itself; every failure is ignored.
   */
  method DeleteDirectory(fs: Disk, directoryToBeDeleted: Path)
    requires fs.Valid()
    modifies fs
    ensures fs.Valid()
    ensures fs.nodes == DeleteResult(old(fs.nodes), fs.failDelete, directoryToBeDeleted)
    decreases |Subtree(fs.nodes, directoryToBeDeleted)|
  {
    var d := directoryToBeDeleted;
    ghost var m := fs.nodes;
    var allContents := fs.ListFiles(d);
    if allContents.Some? {
      var pending := allContents.value;
      ghost var done: set<Path> := {};
      DeleteAllEmpty(m, fs.failDelete);
      while pending != {}
        invariant fs.Valid()
        invariant pending !! done && pending + done == Children(m, d)
        invariant fs.nodes == DeleteAll(m, fs.failDelete, done)
        decreases pending
      {
        var file :| file in pending;
        SubtreeShrinks(m, fs.nodes, d, file);
        DeleteDirectory(fs, file);
        DeleteStep(m, fs.failDelete, d, done, file);
        pending := pending - {file};
        done := done + {file};
      }
      FinishDir(m, fs.failDelete, d);
    } else {
      FinishNotDir(m, fs.failDelete, d);
    }
    var deleted := fs.Delete(d);
  }

  /** The request body: the four fields the controller hands to the service. */
  datatype ProjectMetadata = ProjectMetadata(packageName: string, domainName: string,
                                             description: string, dependencies: string)

  /**
   * The controller's request as written: generate the project at `projectPath`;
   * the deletion sits in the `finally` of the response body, which is only built
   * once `createProjectStructure` has returned. When it throws instead, the
   * exception leaves the controller and the project directory stays on disk.
   */
  method GenerateProject(fs: Disk, projectPath: Path, metadata: ProjectMetadata) returns (thrown: bool)
    requires fs.Valid()
    modifies fs
    ensures fs.Valid()
    ensures thrown == StructureThrows(projectPath, metadata.packageName)
    ensures var t := ProjectResult(old(fs.nodes), fs.failWrite, projectPath, metadata.packageName,
                                   metadata.domainName, metadata.description, metadata.dependencies);
      fs.nodes == if thrown then t else DeleteResult(t, fs.failDelete, projectPath)
  {
    thrown := CreateProjectStructure(fs, projectPath, metadata.packageName, metadata.domainName,
                                     metadata.description, metadata.dependencies);
    if !thrown {
      DeleteDirectory(fs, projectPath);
    }
  }

  /**
   * As written, a package name holding NUL leaves the project directory behind:
   * on a fresh project path the request throws, and the project path is still a
   * directory, holding a `pom.xml` that was not there before whenever the pom's
   * own write does not fail.
   */
  lemma GenerateLeaksOnInvalidPackage(m: Tree, failWrite: set<Path>, projectPath: Path,
                                      packageName: string, domainName: string, description: string,
                                      dependencies: string)
    requires Fresh(m, failWrite, projectPath) && !ValidPath(packageName)
    ensures StructureThrows(projectPath, packageName)
    ensures var t := ProjectResult(m, failWrite, projectPath, packageName, domainName, description, dependencies);
      IsDir(t, projectPath)
    ensures var t := ProjectResult(m, failWrite, projectPath, packageName, domainName, description, dependencies);
      PomFile(projectPath) !in failWrite ==> PomFile(projectPath) in t && PomFile(projectPath) !in m
  {
    var dirs := DirectoriesResult(m, failWrite, projectPath, packageName);
    ProjectPathIsDir(m, failWrite, projectPath, packageName);
    ProjectAborts(m, failWrite, projectPath, packageName, domainName, description, dependencies);
    WrittenFrame(dirs, failWrite, PomFile(projectPath), Pom(domainName, dependencies));
    JoinIsUnder(projectPath, PomRel);
  }

  /**
   * The request with the cleanup the controller evidently intends: the project
   * directory is deleted whether or not `createProjectStructure` throws, as a
   * `try`/`finally` around it would do.
   */
  method GenerateProjectWithCleanup(fs: Disk, projectPath: Path, metadata: ProjectMetadata) returns (thrown: bool)
    requires fs.Valid()
    modifies fs
    ensures fs.Valid()
    ensures thrown == StructureThrows(projectPath, metadata.packageName)
    ensures fs.nodes == DeleteResult(ProjectResult(old(fs.nodes), fs.failWrite, projectPath, metadata.packageName,
                                                   metadata.domainName, metadata.description, metadata.dependencies),
                                     fs.failDelete, projectPath)
  {
    thrown := CreateProjectStructure(fs, projectPath, metadata.packageName, metadata.domainName,
                                     metadata.description, metadata.dependencies);
    DeleteDirectory(fs, projectPath);
  }

  /**
   * With the cleanup in place, when nothing at or below the project path refuses
   * deletion, a request leaves the disk as it found it, except for ancestors of
   * the project path that `mkdirs` had to create: the project path and
   * everything below it are gone, including anything that was there before.
   * This holds for every request, including those where the generation throws.
   */
  lemma GenerateCleansUp(m: Tree, failWrite: set<Path>, failDelete: set<Path>, projectPath: Path,
                         packageName: string, domainName: string, description: string, dependencies: string)
    requires projectPath != ""
    requires forall q :: q in failDelete ==> !InSubtree(q, projectPath)
    ensures var r := DeleteResult(ProjectResult(m, failWrite, projectPath, packageName, domainName,
                                                description, dependencies), failDelete, projectPath);
      && (forall q :: q in m && !InSubtree(q, projectPath) ==> q in r && r[q] == m[q])
      && (forall q :: q in r ==> !InSubtree(q, projectPath) && (q in m || (q in Cuts(projectPath) && r[q] == Dir)))
  {
    var t := ProjectResult(m, failWrite, projectPath, packageName, domainName, description, dependencies);
    ProjectFrame(m, failWrite, projectPath, packageName, domainName, description, dependencies);
    DeleteResultClean(t, failDelete, projectPath);
  }
}
