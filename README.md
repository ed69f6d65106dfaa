# Spring Boot project generator: project materialisation and cleanup

This project models the core of a Spring Boot project-scaffolding service.
The service's `GeneratorService` receives a project path and four metadata strings: package name, domain name (the Maven groupId), description and a dependency snippet.
It creates the Maven directory layout below the project path and writes nine files into it: `pom.xml`, `Application.java`, `application.properties`, `README.md`, `.gitignore`, `Help.md`, `.mvn/wrapper/maven-wrapper.properties`, `mvnw` and `mvnw.cmd`.
After the project has been streamed out as a ZIP, the caller removes the project path with a recursive post-order `deleteDirectory`.

The model has seven modules:

- `Paths`: paths are literal strings.
  - `Join(d, n)` is `d + "/" + n`.
  - `Parent` is the text before the last `/`.
  - `Cuts(p)` is the set of ancestors-or-self that `mkdirs` visits.
  - `IsUnder` and `InSubtree` give the descendant relation.
  - `ValidPath` holds for a path the platform can name: on Unix, a path without a NUL character. That is exactly what `java.io.File` refuses. For strings of Unicode scalar values, the only strings a model `char` can hold, it is also what `Paths.get` refuses under a path encoding that maps every character, such as UTF-8.
- `FileSystem`: the disk is a map from path to `Dir` or `File(text)`.
  - `WellFormed` says that every entry's parent is a directory.
  - Failures are injected as two sets of paths: one whose creation fails, one whose deletion fails. This stands in for permissions, a full disk or a file in use.
  - The class `Disk` holds the map. It updates the map in place through `Write` (`Files.write` / `FileWriter`), `MkDirs` (`File.mkdirs`), `ListFiles` and `Delete` (`File.listFiles`, `File.delete`).
  - Each of these methods is proved against a specification function: `Written`, `MkDirsResult`, `Children`, and map removal.
  - `WriteEach` and `WriteUntilFailure` are the two ways a sequence of writes is guarded: each in its own `try`, or all in one.
- `Templates`: the pure text renderers.
  - `PackagePath` models `replace('.', '/')`.
  - The pom, the `Application` class, the README, and the fixed contents of the other files.
  - Decoders (`GroupIdOf`, `DependenciesOf`, `DeclaredPackage`, `DescriptionOf`, `DottedName`) are the partners of the round-trip lemmas.
  - `Lines` cuts a text at its newlines. It is the partner of `JoinLines` and states what the fixed texts hold, line by line.
- `Layout`: the four directories and the nine files, each the project path joined with a fixed relative path.
  - When each of these paths can be named.
  - What the fixed texts refer to: the help text names the two scripts, and the scripts launch a jar that the generator does not write.
- `Project`: the specification of `createProjectStructure`.
  - The four `mkdirs` calls run in order.
  - Six independent writes follow, each of which swallows its own failure.
  - Last come the three wrapper writes. They share one `try`, so the first failure skips the rest.
  - `Paths.get` throws an unchecked exception for a path it cannot name. That escapes `createProjectStructure` and skips every later step. `ProjectResult` models this, and `StructureThrows` says when it happens.
- `Removal`: the specification of `deleteDirectory`.
  - An entry is *pinned* when some entry at or below it fails to delete.
  - Exactly the unpinned entries of the subtree disappear, whatever order `listFiles` returns.
- `Generator`: the service's methods as imperative methods on a `Disk`, using the literal path strings the source builds.
  - `GenerateProject` is the controller's create-then-delete sequence as written. The deletion is skipped when creation throws.
  - `GenerateProjectWithCleanup` is the corrected sequence, which deletes in every case (see Findings).
  - `ProjectMetadata` is the request record.

## Model

`G` stands for `boot-generator-be/src/main/java/in/boot/generator/service/GeneratorService.java` in the member descriptions; the source column spells the path out.

| member | source | states |
|---|---|---|
| Paths.ValidJoin | boot-generator-be/src/main/java/in/boot/generator/service/GeneratorService.java:84 | `dir + "/" + name` can be named by the platform exactly when both `dir` and `name` can |
| Paths.ValidCut | boot-generator-be/src/main/java/in/boot/generator/service/GeneratorService.java:30-33 | every ancestor `mkdirs` passes on the way to a path that can be named can itself be named |
| Paths.InvalidBelow | boot-generator-be/src/main/java/in/boot/generator/service/GeneratorService.java:84 | nothing below a path that cannot be named can be named |
| Templates.PackagePath | boot-generator-be/src/main/java/in/boot/generator/service/GeneratorService.java:25 | `replace('.', '/')` keeps the length; each character becomes `/` if it was `.` and is otherwise unchanged |
| Templates.PackagePathShape | boot-generator-be/src/main/java/in/boot/generator/service/GeneratorService.java:27 | no `.` survives in a package path; a position holds `/` exactly when the package name had `.` or `/` there |
| Templates.PackagePathRoundTrip | boot-generator-be/src/main/java/in/boot/generator/service/GeneratorService.java:72 | for a package name without `/`, turning the directory path back into a dotted name gives the package name again, so the directory determines the package |
| Templates.Pom | boot-generator-be/src/main/java/in/boot/generator/service/GeneratorService.java:37-62 | the rendered build descriptor; what it holds is stated by `PomParts`, `PomGroupIdLayout`, `PomMiddleParts`, `PomTailParts` and `PomRoundTrip` |
| Templates.PomGroupIdLayout | boot-generator-be/src/main/java/in/boot/generator/service/GeneratorService.java:37-42 | the pom starts with the fixed preamble, and the domain name appears verbatim, without escaping, between `    <groupId>` and `</groupId>\n` |
| Templates.PomMiddleParts | boot-generator-be/src/main/java/in/boot/generator/service/GeneratorService.java:42-51 | the fixed text between the group id and the snippet starts with `</groupId>\n` and ends with `    <dependencies>\n`, so the snippet opens the dependency block |
| Templates.PomTailParts | boot-generator-be/src/main/java/in/boot/generator/service/GeneratorService.java:52-62 | the fixed text after the snippet is the web-starter dependency block, then the test-starter block, then the closing `</dependencies>` and `</project>` tags |
| Templates.PomParts | boot-generator-be/src/main/java/in/boot/generator/service/GeneratorService.java:37-62 | the pom is the fixed head, the domain name, the fixed middle, the snippet and the fixed tail, each at its computed offset, and nothing else |
| Templates.PomRoundTrip | boot-generator-be/src/main/java/in/boot/generator/service/GeneratorService.java:37-62 | given the domain name's length, the groupId and the dependency snippet are read back exactly from the rendered pom |
| Templates.PomInjective | boot-generator-be/src/main/java/in/boot/generator/service/GeneratorService.java:37-62 | two requests with domain names of equal length render the same pom only if their domain names and snippets are equal |
| Templates.ApplicationClass | boot-generator-be/src/main/java/in/boot/generator/service/GeneratorService.java:73-81 | the rendered entry point; `ApplicationClassRoundTrip` states what it holds |
| Templates.ApplicationClassRoundTrip | boot-generator-be/src/main/java/in/boot/generator/service/GeneratorService.java:73-81 | the class source begins with `package ` + package name + `;\n\n`, and the declared package read back from it is the package name |
| Templates.Readme | boot-generator-be/src/main/java/in/boot/generator/service/GeneratorService.java:102 | the rendered README; `ReadmeRoundTrip` states what it holds |
| Templates.ReadmeRoundTrip | boot-generator-be/src/main/java/in/boot/generator/service/GeneratorService.java:102 | the README is the heading `# Project Description\n\n` followed by exactly the description; an empty description gives the bare heading |
| Templates.LinesOfJoin | boot-generator-be/src/main/java/in/boot/generator/service/GeneratorService.java:91-92 | newline-free lines joined by `\n` are cut back into exactly those lines, so each fixed text below is its list of lines |
| Templates.ApplicationPropertiesLines | boot-generator-be/src/main/java/in/boot/generator/service/GeneratorService.java:91-92 | `application.properties` is two lines, `spring.application.name=demo` and `server.port=8080`, with no final newline |
| Templates.GitignoreText | boot-generator-be/src/main/java/in/boot/generator/service/GeneratorService.java:112-120 | `.gitignore` is the nine ignore patterns joined by newlines |
| Templates.GitignoreLines | boot-generator-be/src/main/java/in/boot/generator/service/GeneratorService.java:112-120 | `.gitignore` holds exactly the nine patterns `target/`, `*.log`, `*.class`, `.classpath`, `.project`, `.settings/`, `*.iml`, `*.ipr`, `*.iws`, one per line, with no final newline |
| Templates.WrapperDistribution | boot-generator-be/src/main/java/in/boot/generator/service/GeneratorService.java:141 | `maven-wrapper.properties` is a `distributionUrl=` setting whose value ends in the Maven 3.6.3 archive `apache-maven-3.6.3-bin.zip` |
| Layout.FileRelsDistinct | boot-generator-be/src/main/java/in/boot/generator/service/GeneratorService.java:13-22 | the nine relative file paths are pairwise different, for every package name |
| Layout.FilesAreNotDirs | boot-generator-be/src/main/java/in/boot/generator/service/GeneratorService.java:24-34 | no generated file path is one of the four directories or an ancestor of one |
| Layout.JoinInjective | boot-generator-be/src/main/java/in/boot/generator/service/GeneratorService.java:25-28 | `projectPath + "/" + rel` determines `rel` |
| Layout.PackagePathValid | boot-generator-be/src/main/java/in/boot/generator/service/GeneratorService.java:72 | `replace('.', '/')` neither removes nor introduces a NUL, so the package path can be named exactly when the package name can |
| Layout.PackageLayoutValid | boot-generator-be/src/main/java/in/boot/generator/service/GeneratorService.java:25-27 | the two Java source directories and the Application class path can be named exactly when both the project path and the package name can |
| Layout.ProjectLayoutValid | boot-generator-be/src/main/java/in/boot/generator/service/GeneratorService.java:26-28 | the resources and wrapper directories and the eight files outside the package directory can be named exactly when the project path can |
| Layout.HelpNamesWrapperScripts | boot-generator-be/src/main/java/in/boot/generator/service/GeneratorService.java:130-131 | `Help.md` opens with `# Help` and a blank line and names both wrapper scripts, `` `mvnw` `` and `` `mvnw.cmd` ``, by the file names they are written under |
| Layout.WrapperScriptsLaunchJar | boot-generator-be/src/main/java/in/boot/generator/service/GeneratorService.java:142-148 | `mvnw` starts with `#!/bin/sh` and `mvnw.cmd` with `@echo off`; `mvnw` contains `java -jar "$BASEDIR/.mvn/wrapper/maven-wrapper.jar` and `mvnw.cmd` contains `java -jar "%BASEDIR%\.mvn\wrapper\maven-wrapper.jar`, so both run the jar in `.mvn/wrapper` below their own directory |
| Layout.WrapperJarNotGenerated | boot-generator-be/src/main/java/in/boot/generator/service/GeneratorService.java:140-157 | the jar both scripts launch lies in the wrapper directory but is not one of the nine files the generator writes |
| FileSystem.Written | boot-generator-be/src/main/java/in/boot/generator/service/GeneratorService.java:64-68 | the tree after one guarded write: the file holds exactly the text when `CanWrite` holds, otherwise the tree is unchanged; stated by `Disk.Write`, `WrittenFrame` and `WrittenWellFormed` |
| FileSystem.MkDirsResult | boot-generator-be/src/main/java/in/boot/generator/service/GeneratorService.java:30-33 | the tree after `mkdirs`; stated by `MkDirsClean`, `MkDirsFrame`, `MkDirsReaches`, `MkDirsStops` and `MkDirsWellFormed` |
| FileSystem.WriteEach | boot-generator-be/src/main/java/in/boot/generator/service/GeneratorService.java:15-20 | the tree after writes each in its own `try`; stated by `WriteEachHit`, `WriteEachFrame` and `WriteEachWellFormed` |
| FileSystem.WriteUntilFailure | boot-generator-be/src/main/java/in/boot/generator/service/GeneratorService.java:150-156 | the tree after writes sharing one `try`; stated by `WriteUntilFailureSkips`, `WriteUntilFailureAll`, `WriteUntilFailureFrame` and `WriteUntilFailureWellFormed` |
| FileSystem.Disk.Write | boot-generator-be/src/main/java/in/boot/generator/service/GeneratorService.java:64-68 | the write succeeds exactly when the path can be named, is not a directory, is not failing, and its parent is a directory; then the file holds exactly the text, and otherwise the disk is unchanged |
| FileSystem.Disk.MkDirs | boot-generator-be/src/main/java/in/boot/generator/service/GeneratorService.java:30 | `mkdirs` leaves the disk in the `MkDirsResult` state: ancestors are created top-down, the walk stops at the first ancestor that is a file or fails, and a path holding NUL creates nothing |
| FileSystem.Disk.ListFiles | boot-generator-be/src/main/java/in/boot/generator/service/GeneratorService.java:160-161 | `listFiles` returns the direct children of a directory and null (`None`) for a file or a missing path |
| FileSystem.Disk.Delete | boot-generator-be/src/main/java/in/boot/generator/service/GeneratorService.java:166 | `delete` removes exactly the one entry, and reports success, exactly when it exists, does not fail and has no children |
| FileSystem.MkDirsClean | boot-generator-be/src/main/java/in/boot/generator/service/GeneratorService.java:30-33 | when the path can be named and no ancestor is blocked, `mkdirs` adds exactly the missing ancestors-or-self of the path as directories, and all of them are directories afterwards |
| FileSystem.MkDirsFrame | boot-generator-be/src/main/java/in/boot/generator/service/GeneratorService.java:30-33 | `mkdirs` never changes or removes an existing entry; everything it adds is a directory among the path's ancestors-or-self |
| FileSystem.MkDirsReaches | boot-generator-be/src/main/java/in/boot/generator/service/GeneratorService.java:30-33 | an ancestor of a path that can be named is a directory afterwards whenever it and every ancestor above it was unblocked; a failure deeper down does not undo it |
| FileSystem.MkDirsStops | boot-generator-be/src/main/java/in/boot/generator/service/GeneratorService.java:30-33 | `mkdirs` creates nothing at or below a blocked ancestor: everything it adds is shorter than that ancestor |
| FileSystem.MkDirsWellFormed | boot-generator-be/src/main/java/in/boot/generator/service/GeneratorService.java:30-33 | `mkdirs` keeps the disk well formed, including after a partial failure |
| FileSystem.WrittenWellFormed | boot-generator-be/src/main/java/in/boot/generator/service/GeneratorService.java:64-68 | a write keeps the disk well formed |
| FileSystem.WrittenFrame | boot-generator-be/src/main/java/in/boot/generator/service/GeneratorService.java:64-68 | a write changes no directory and no entry other than its own path, and removes nothing |
| FileSystem.WriteEachHit | boot-generator-be/src/main/java/in/boot/generator/service/GeneratorService.java:15-20 | in a sequence of independently guarded writes to distinct paths, every write that can succeed leaves exactly its text, whatever the others do |
| FileSystem.WriteEachFrame | boot-generator-be/src/main/java/in/boot/generator/service/GeneratorService.java:15-20 | independently guarded writes touch only their own paths and create no directory |
| FileSystem.WriteUntilFailureSkips | boot-generator-be/src/main/java/in/boot/generator/service/GeneratorService.java:150-156 | in writes sharing one `try`, a write that cannot succeed, because it is refused or its directory is missing, leaves its own path and every later path exactly as it was |
| FileSystem.WriteUntilFailureAll | boot-generator-be/src/main/java/in/boot/generator/service/GeneratorService.java:150-156 | when every write in the shared `try` can succeed, every path holds exactly its text |
| FileSystem.WriteUntilFailureFrame | boot-generator-be/src/main/java/in/boot/generator/service/GeneratorService.java:150-156 | writes in the shared `try` touch only their own paths and create no directory |
| FileSystem.WriteEachWellFormed | boot-generator-be/src/main/java/in/boot/generator/service/GeneratorService.java:15-20 | independently guarded writes keep the disk well formed |
| FileSystem.WriteUntilFailureWellFormed | boot-generator-be/src/main/java/in/boot/generator/service/GeneratorService.java:150-156 | writes in the shared `try` keep the disk well formed |
| Project.DirectoriesResult | boot-generator-be/src/main/java/in/boot/generator/service/GeneratorService.java:24-34 | the tree after the four `mkdirs` calls in source order; stated by `DirectoriesFrame`, `DirectoriesClean`, `ProjectPathIsDir` and `WrapperDirMissing` |
| Project.FilesResult | boot-generator-be/src/main/java/in/boot/generator/service/GeneratorService.java:15-21 | the tree after the six guarded writes and the wrapper writes; stated by `FilesFrame` and `FilesClean` |
| Project.ProjectResult | boot-generator-be/src/main/java/in/boot/generator/service/GeneratorService.java:13-22 | the tree `createProjectStructure` leaves, or leaves when it throws: nothing written for a project path holding NUL, only the pom for a package name holding NUL; stated by the `Project` lemmas below |
| Project.WritesDistinct | boot-generator-be/src/main/java/in/boot/generator/service/GeneratorService.java:13-22 | the nine writes of one project go to pairwise different paths |
| Project.ProjectFileCount | boot-generator-be/src/main/java/in/boot/generator/service/GeneratorService.java:13-22 | a project has exactly nine file paths |
| Project.GroupsDistinct | boot-generator-be/src/main/java/in/boot/generator/service/GeneratorService.java:13-22 | the six separately guarded writes and the three wrapper writes are each distinct, and the two groups share no path |
| Project.SeparatePaths | boot-generator-be/src/main/java/in/boot/generator/service/GeneratorService.java:15-20 | the six separate `create*` steps write exactly the pom, Application class, properties, README, `.gitignore` and `Help.md` paths |
| Project.WrapperPaths | boot-generator-be/src/main/java/in/boot/generator/service/GeneratorService.java:151-153 | the wrapper step writes exactly the wrapper properties, `mvnw` and `mvnw.cmd` paths |
| Project.FilesUnder | boot-generator-be/src/main/java/in/boot/generator/service/GeneratorService.java:13-22 | every generated file lies strictly below the project path |
| Project.ProjectDirsShape | boot-generator-be/src/main/java/in/boot/generator/service/GeneratorService.java:24-34 | every directory `createDirectories` can make is the project path, one of its ancestors, or below it |
| Project.DirectoriesFrame | boot-generator-be/src/main/java/in/boot/generator/service/GeneratorService.java:24-34 | `createDirectories` keeps every existing entry unchanged and adds only directories of the layout |
| Project.DirectoriesClean | boot-generator-be/src/main/java/in/boot/generator/service/GeneratorService.java:24-34 | on a fresh project path with no failures below it and a package name that can be named, the four directories and all their ancestors are directories afterwards, and nothing else is added |
| Project.ProjectPathIsDir | boot-generator-be/src/main/java/in/boot/generator/service/GeneratorService.java:30-31 | on a fresh project path, the project path itself becomes a directory even if every path below it fails and whatever the package name |
| Project.FileParents | boot-generator-be/src/main/java/in/boot/generator/service/GeneratorService.java:65-153 | `Application.java` sits directly in the main source directory, the properties in resources, the wrapper properties in `.mvn/wrapper`, and the other six files directly in the project path, all of which are layout directories; the nine writes are at lines 65, 84, 95, 104, 122, 133 and 151-153 |
| Project.FilesFrame | boot-generator-be/src/main/java/in/boot/generator/service/GeneratorService.java:15-21 | the file-writing steps create no directory and change only the nine file paths |
| Project.WritesFrame | boot-generator-be/src/main/java/in/boot/generator/service/GeneratorService.java:15-21 | wherever `createProjectStructure` stops, the steps after `createDirectories` create no directory and change only the nine file paths |
| Project.ProjectFrame | boot-generator-be/src/main/java/in/boot/generator/service/GeneratorService.java:13-22 | `createProjectStructure` removes nothing and changes nothing outside the project path except by adding the path's missing ancestors as directories; an existing entry it changes is a file at one of the nine paths |
| Project.ProjectClean | boot-generator-be/src/main/java/in/boot/generator/service/GeneratorService.java:13-22 | with no failures on a fresh path and a package name that can be named, each of the nine files holds exactly its rendered text; below the project path the files are exactly the nine and the directories exactly the layout's |
| Project.FilesClean | boot-generator-be/src/main/java/in/boot/generator/service/GeneratorService.java:15-21 | when every target is writable, all nine files end with exactly their rendered text |
| Project.AllWritable | boot-generator-be/src/main/java/in/boot/generator/service/GeneratorService.java:24-34 | after a clean `createDirectories` with a package name that can be named, all nine target paths are writable |
| Project.ProjectDeterministic | boot-generator-be/src/main/java/in/boot/generator/service/GeneratorService.java:13-22 | two clean runs with the same metadata produce the same tree below the project path, whatever else is on the disk and whatever the package name |
| Project.ProjectIndependentWrites | boot-generator-be/src/main/java/in/boot/generator/service/GeneratorService.java:64-68 | on a fresh project path, the pom is written with its text whenever its own path does not fail; README, `.gitignore` and `Help.md` likewise whenever nothing has thrown before them, whatever happens to any other file |
| Project.RootFileWritable | boot-generator-be/src/main/java/in/boot/generator/service/GeneratorService.java:104 | after `createDirectories` on a fresh project path, a file that goes directly into it can be written unless its own write fails |
| Project.WrapperChain | boot-generator-be/src/main/java/in/boot/generator/service/GeneratorService.java:150-156 | on a fresh path, when the wrapper properties cannot be written (refused, or `.mvn/wrapper` missing), none of the three wrapper files is written; when `mvnw` cannot be, neither `mvnw` nor `mvnw.cmd` is |
| Project.WrapperDirMissing | boot-generator-be/src/main/java/in/boot/generator/service/GeneratorService.java:33 | when `.mvn` cannot be created below a fresh project path, `createDirectories` leaves no `.mvn/wrapper` |
| Project.WrapperDirBlocked | boot-generator-be/src/main/java/in/boot/generator/service/GeneratorService.java:33 | when `.mvn` cannot be created below a fresh project path, none of the three wrapper files is written |
| Project.ProjectUnchangedOnInvalidPath | boot-generator-be/src/main/java/in/boot/generator/service/GeneratorService.java:30-65 | for a project path holding NUL, the four `mkdirs` calls (lines 30-33) create nothing and `createProjectStructure` throws at the pom's `Paths.get` (line 65), so the disk is left exactly as it was |
| Project.ProjectAborts | boot-generator-be/src/main/java/in/boot/generator/service/GeneratorService.java:84 | for a package name holding NUL, `createProjectStructure` throws at the Application class: below the project path only the pom can be a file, every directory leads to the resources or wrapper directory, and the package directories and the class are absent |
| Project.AbortedClean | boot-generator-be/src/main/java/in/boot/generator/service/GeneratorService.java:30-33 | for a package name holding NUL with no failures below a fresh project path, the pom holds its text, it is the only file below the project path, and the directories there are exactly those leading to the resources and wrapper directories |
| Project.ProjectWellFormed | boot-generator-be/src/main/java/in/boot/generator/service/GeneratorService.java:13-22 | `createProjectStructure` keeps the disk well formed under any failures, including when it throws |
| Removal.DeleteResult | boot-generator-be/src/main/java/in/boot/generator/service/GeneratorService.java:159-167 | the tree after `deleteDirectory`: every unpinned entry of the subtree removed; stated by the `Removal` lemmas below |
| Removal.DeleteResultFrame | boot-generator-be/src/main/java/in/boot/generator/service/GeneratorService.java:159-167 | deletion only removes entries, never changes one, and removes nothing outside the deleted subtree |
| Removal.DeleteResultClean | boot-generator-be/src/main/java/in/boot/generator/service/GeneratorService.java:159-167 | with no failures in the subtree, exactly the subtree is gone and the rest of the disk is untouched |
| Removal.DeleteResultPostOrder | boot-generator-be/src/main/java/in/boot/generator/service/GeneratorService.java:162-166 | an entry is removed only if everything below it is removed: the walk deletes children before their parent |
| Removal.DeleteResultSurvivors | boot-generator-be/src/main/java/in/boot/generator/service/GeneratorService.java:166 | a surviving entry in the subtree either failed to delete itself or still has a surviving child |
| Removal.DeleteResultWellFormed | boot-generator-be/src/main/java/in/boot/generator/service/GeneratorService.java:159-167 | deletion keeps the disk well formed whatever fails |
| Removal.DeleteStep | boot-generator-be/src/main/java/in/boot/generator/service/GeneratorService.java:162-164 | deleting one more child subtree in the loop extends the result of the children already walked, so the loop's order does not matter |
| Removal.DeleteSucceedsIffUnpinned | boot-generator-be/src/main/java/in/boot/generator/service/GeneratorService.java:166 | after the children are walked, the final `delete` of a directory succeeds exactly when nothing at or below it fails |
| Removal.FinishDir | boot-generator-be/src/main/java/in/boot/generator/service/GeneratorService.java:160-166 | for a directory, walking all children and then deleting it gives the deletion result |
| Removal.FinishNotDir | boot-generator-be/src/main/java/in/boot/generator/service/GeneratorService.java:160-166 | for a file or missing path (`listFiles` is null), deleting it directly gives the deletion result |
| Generator.CreateProjectStructure | boot-generator-be/src/main/java/in/boot/generator/service/GeneratorService.java:13-22 | the disk ends in the `ProjectResult` state: the four `mkdirs`, six guarded writes and the wrapper writes, in source order, under the injected failures; it reports a throw exactly for a project path or package name holding NUL, and runs no step after it |
| Generator.CreateDirectories | boot-generator-be/src/main/java/in/boot/generator/service/GeneratorService.java:24-34 | the disk ends as the four `mkdirs` calls on the literal paths leave it, in order main, resources, test, wrapper |
| Generator.CreatePomXml | boot-generator-be/src/main/java/in/boot/generator/service/GeneratorService.java:36-69 | the disk ends as one guarded write of the rendered pom to `projectPath + "/pom.xml"` leaves it; `Paths.get` throws exactly when that path holds NUL, under a UTF-8 path encoding |
| Generator.CreateApplicationClass | boot-generator-be/src/main/java/in/boot/generator/service/GeneratorService.java:71-88 | the disk ends as one guarded write of the class source to the package's directory under `src/main/java` leaves it; `Paths.get` throws exactly when that path holds NUL, under a UTF-8 path encoding |
| Generator.CreateApplicationProperties | boot-generator-be/src/main/java/in/boot/generator/service/GeneratorService.java:90-99 | the disk ends as one guarded write of the fixed properties to `src/main/resources/application.properties` leaves it; `Paths.get` throws exactly when that path holds NUL, under a UTF-8 path encoding |
| Generator.CreateReadme | boot-generator-be/src/main/java/in/boot/generator/service/GeneratorService.java:101-109 | the disk ends as one guarded write of heading + description to `README.md` leaves it |
| Generator.CreateGitignore | boot-generator-be/src/main/java/in/boot/generator/service/GeneratorService.java:111-127 | the disk ends as one guarded write of the fixed ignore list to `.gitignore` leaves it |
| Generator.CreateHelpMd | boot-generator-be/src/main/java/in/boot/generator/service/GeneratorService.java:129-138 | the disk ends as one guarded write of the fixed help text to `Help.md` leaves it |
| Generator.CreateMavenWrapperFiles | boot-generator-be/src/main/java/in/boot/generator/service/GeneratorService.java:140-157 | the disk ends as the three wrapper writes in one `try` leave it, where the first failure skips the rest; `Paths.get` throws exactly when the first path holds NUL, under a UTF-8 path encoding |
| Generator.DeleteDirectory | boot-generator-be/src/main/java/in/boot/generator/service/GeneratorService.java:159-167 | the recursive post-order walk leaves the disk in the `DeleteResult` state, whatever order `listFiles` returns; it terminates because each child's subtree is smaller |
| Generator.GenerateProject | boot-generator-be/src/main/java/in/boot/generator/Controller/GeneratorController.java:31-49 | as written: when `createProjectStructure` returns, the disk ends as creating the project and then deleting the project path leaves it; when it throws, the created project stays |
| Generator.GenerateLeaksOnInvalidPackage | boot-generator-be/src/main/java/in/boot/generator/Controller/GeneratorController.java:32 | as written, a package name holding NUL makes the request throw with the project path left a directory, holding a new `pom.xml` unless that write failed |
| Generator.GenerateProjectWithCleanup | boot-generator-be/src/main/java/in/boot/generator/Controller/GeneratorController.java:47-49 | with the intended cleanup: the disk ends as creating the project and then deleting the project path leaves it, whether or not the creation throws |
| Generator.GenerateCleansUp | boot-generator-be/src/main/java/in/boot/generator/Controller/GeneratorController.java:47-49 | with the intended cleanup and no deletion below the project path failing, nothing of the project survives, whatever writes failed or threw; entries outside it are unchanged; the only leftovers are ancestors of the project path that `mkdirs` created |

## Left out

- HTTP, Spring wiring, the ZIP stream, `Files.walk`, `relativize` and the `Content-Disposition` header are not modelled. The generated tree is the model's output.
- The project path's name from `java.io.tmpdir` and `System.currentTimeMillis()` is not modelled. The project path is a parameter, so two concurrent requests are assumed to get different paths. Concurrency is not modelled at all.
- Byte encodings are not modelled. `getBytes()` uses the platform charset and `FileWriter` uses the default encoding, while file contents here are strings.
- A write either happens completely or not at all. A `FileWriter` that opens the file, truncating it, and then fails in `write` is not modelled.
- `printStackTrace` logging is not modelled. A swallowed exception is modelled as the write having no effect.
- Path normalisation is not modelled. `a//b`, a trailing `/`, `.`, `..` and absolute-versus-relative forms are distinct literal strings. The empty string stands for the root, so an empty project path is degenerate.
- Project.ProjectClean: "the directories below the project path are exactly the layout's" is literal. An empty package name, or one with a leading, trailing or doubled `.`, gives a package path with an empty component (`src/main/java/`, `src/main/java//com`). `java.io.File` normalises such a path to a shorter one, so on disk fewer directories exist than the literal layout lists. Project.DirectoriesClean is literal in the same way.
- Path validity is modelled only as Unix rejects paths: a NUL character makes a path invalid. Windows' reserved characters and names, and length limits, are not modelled.
- Project.StructureThrows, Project.ProjectResult, Generator.CreatePomXml, Generator.CreateApplicationClass, Generator.CreateApplicationProperties and Generator.CreateMavenWrapperFiles: the `thrown` results assume a path encoding that maps every character, such as UTF-8. Under another encoding, for example ASCII under a C locale, `Paths.get` also throws `InvalidPathException` for a character it cannot encode, while `java.io.File` substitutes it; that rejection is not modelled, and for such a name the model writes all nine files where the source throws at the Application class. A Java string can also hold an unpaired UTF-16 surrogate (the JSON escape `\ud800` decodes to one), which a model `char` cannot represent: `java.io.File` writes it as `?` and `mkdirs` succeeds, while `Paths.get` rejects it as malformed input even under UTF-8 and throws at the Application class.
- Null request fields are not modelled. Strings are never null here. In the source, a null domain name, description or dependency snippet is rendered as the text `null`, and a null package name raises a `NullPointerException` at `createDirectories` before anything is created.
- Symbolic links, permissions and file attributes are not modelled. In particular, `mvnw` is not made executable, here or in the source.
- `listFiles` returning null because of an I/O error on an existing directory is not modelled. Only a file or a missing path yields `None`.
- What causes a failure is not modelled. A failing creation or deletion comes from the injected sets `failWrite` and `failDelete`, and a failing path always fails.
- `ProjectMetadata` is only a datatype. Its getters, setters and JSON binding are not modelled.
- Project.ProjectIndependentWrites: covers only the four files written directly into the project path. The Application class and the properties file also depend on deeper `mkdirs` calls, and the three after the Application class also need a package name that can be named. For the two deeper files, independence follows from `FileSystem.WriteEachHit` only once their directory exists.
- Generator.GenerateCleansUp: states cleanup only when no deletion below the project path fails. With failures, `Removal.DeleteResultSurvivors` characterises what is left.

## Findings

| source | as written | input that shows it | evidently intended | confidence | as-written member | corrected member |
|---|---|---|---|---|---|---|
| boot-generator-be/src/main/java/in/boot/generator/Controller/GeneratorController.java:32-49 | The project directory is deleted in a `finally` that belongs to the response body. That body is built only after `createProjectStructure` returns. `Paths.get` in `createApplicationClass` (GeneratorService.java:84) throws an unchecked `InvalidPathException`, which is not caught, so the request fails and the directory stays on disk with its `pom.xml`. | a package name holding a NUL character, such as `"com\u0000x"`; also a name such as `"com.café"` on a JVM whose path encoding is ASCII, or `"com.\ud800"` (an unpaired surrogate) under UTF-8 | the project directory is removed after every request | not executed | Generator.GenerateLeaksOnInvalidPackage | Generator.GenerateCleansUp |

