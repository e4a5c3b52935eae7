# hermit core in Dafny

hermit manages dotfiles grouped into switchable "shells" (profiles) kept under
a hermit root, and applies filesystem changes to the home directory through a
deferred operation log. This project models the two sequential components of
that core against an abstract filesystem and proves their contracts.

- `filesystem.dfy`, module `FileSystem`: the abstract filesystem, a map from a
  path (the sequence of its name components, counted from the root `[]`) to a
  node that is `Dir`, `File(contents)` or `Symlink(target)`; the machine's
  filesystem as the mutable `Disk` object; and the primitive calls the core
  makes (`fs::create_dir`, `fs::create_dir_all`, `fs::remove_file`,
  `File::create` + `write_all`, `File::open` + `read_to_string`, git
  repository initialisation) as pure functions from the old state to an
  outcome and the new state. A directory is a repository when it has a
  `.git` child. Symbolic link creation is modelled too, but only for the
  `Link` variant, which nothing in the core enqueues.
- `file_operations.dfy`, module `FileOperations`: the `Op` variant type, the
  two-kind error tag (`IoError`, `Git2Error`), the `FileOperations` class with
  its fixed `root`, its append-only `operations` queue and a `spent` flag that
  stands for `commit` taking ownership of the log; `Apply` (one operation) and
  `Run` (a whole queue, in order, never stopping at a failure) specify
  `DoOp` and the loop in `Commit`.
- `config.dfy`, module `Config`: `FsConfig` (an immutable root and a cached
  `Option<string>` naming the current shell, with the marker file at
  `root/current_shell` and shells as directories under `root/shells`) and the
  test double `MockConfig` (a fixed list of allowed shell names and a current
  shell that is always set). `RootPath`, `ConfigPath`, `ShellRootPath`,
  `CurrentShellName` and `ShellExists` are plain functions of the root, the
  cache and the disk: the paths are recomputed from the root on every call and
  never stored.

Each queued operation records `root` joined with the caller's path, and
`DoOp` executes it at that recorded path: the match in `do_op` binds the
operation's payload, and the source's own tests expect the effects under
the log's root.
`Op` keeps only the root-joined path, and `do_op` executes at that path.

Caller arguments are component sequences, so they are relative by
construction and joining is concatenation; the case where `Path::join`
replaces the base with an absolute argument cannot arise. The outcome of a
device write, which the filesystem state does not determine, is a parameter
(`deviceOk`) of `FsConfig.SetCurrentShellName`. `Disk.Valid()` is the
well-formedness every real filesystem has (the root is a directory and every
entry sits in a directory); the operations preserve it.

## Model

| member | source | states |
|---|---|---|
| FileSystem.AncestorsAreDirs | src/file_operations.rs:118-124 | in a well-formed filesystem every proper prefix of an existing path is a directory, the fact `create_dir` and `create_dir_all` rely on |
| FileSystem.CreateDirSpec | src/file_operations.rs:118-120 | `create_dir` succeeds exactly when the target is new and its parent is a directory; it then adds only that directory; on failure it reports an I/O error and changes nothing |
| FileSystem.CreateDirNeedsAncestors | src/file_operations.rs:211-226 | a plain create never creates ancestors: success implies every proper prefix already existed, and failure leaves the filesystem untouched |
| FileSystem.CreateDirAll | src/file_operations.rs:122-124 | `create_dir_all` leaves the target a directory when it succeeds, adds nothing but prefixes of the target, and on failure reports an I/O error with the filesystem unchanged |
| FileSystem.CreateDirAllSpec | src/file_operations.rs:122-124 | `create_dir_all` succeeds exactly when no prefix of the target is a non-directory; afterwards the target and all its prefixes are directories and nothing else was added; failure changes nothing |
| FileSystem.RemoveFileSpec | src/file_operations.rs:130-132 | `remove_file` succeeds exactly on an existing non-directory, which afterwards no longer exists, and no other entry changes |
| FileSystem.SymlinkSpec | src/file_operations.rs:13 | a link is created only at a new path whose parent is a directory, and then points at its source |
| FileSystem.InitRepositorySpec | src/file_operations.rs:139-148 | initialisation with no-reinit succeeds exactly when `.git` is absent and no prefix is a non-directory, then the path, its ancestors and `.git` are directories; every failure is a git error and changes nothing |
| FileSystem.InitRepositoryRefusesReinit | src/file_operations.rs:143-148 | after a successful initialisation a second one at the same path fails with a git error |
| FileSystem.WriteThenRead | src/config.rs:69-72 | creating (truncating) a file and writing a name to it leaves exactly that name to be read back |
| FileSystem.CreateAndWriteConfined | src/config.rs:70-72 | `File::create` succeeds exactly on an existing file or a new path in a directory, and creating plus writing touches no other path and keeps the filesystem well-formed |
| FileOperations.Apply | src/file_operations.rs:82-89 | a failed operation changes nothing and carries `Git2Error` for repository initialisation and `IoError` otherwise; a successful create leaves its directory (or `.git`) in place, a successful remove leaves the file gone |
| FileOperations.ApplySpec | src/file_operations.rs:82-89 | each operation keeps the filesystem well-formed, changes nothing off the prefixes of the path it records, and on failure changes nothing and reports `Git2Error` for repository initialisation and `IoError` otherwise |
| FileOperations.Run | src/file_operations.rs:103-111 | running a queue yields exactly one outcome per queued operation |
| FileOperations.RunAt | src/file_operations.rs:108-110 | outcome i is operation i applied to the state left by the operations before it: one-to-one, in enqueue order, with no short-circuit after a failure |
| FileOperations.RunTwo | src/file_operations.rs:108-110 | a two-operation queue applies the second operation to the state the first left |
| FileOperations.RunConfined | src/file_operations.rs:118-136 | a queue whose operations all record paths under the root keeps the filesystem well-formed and changes nothing off the branch through the root |
| FileOperations.GitInitTwice | src/file_operations.rs:278-290 | two initialisations of one fresh path in one run give `[Ok, Err(Git2Error)]` |
| FileOperations.DirAllThenDir | src/file_operations.rs:122-124 | later operations see earlier ones: a recursive create lets a plain create of a new child inside it succeed in the same run |
| FileOperations.FileOperations.RootedAt | src/file_operations.rs:95-101 | the log records the given root exactly, starts with an empty queue and the no-reinit option |
| FileOperations.FileOperations.CreateDir | src/file_operations.rs:118 | appends exactly `MkDir(root + dir)` after the earlier entries; no disk access |
| FileOperations.FileOperations.CreateDirAll | src/file_operations.rs:122 | appends exactly `MkDirAll(root + dir)` after the earlier entries; no disk access |
| FileOperations.FileOperations.Remove | src/file_operations.rs:130 | appends exactly `Remove(root + file)` after the earlier entries; no disk access |
| FileOperations.FileOperations.CreateGitRepo | src/file_operations.rs:134 | appends exactly `GitInit(root + dir)` after the earlier entries; no disk access |
| FileOperations.FileOperations.Commit | src/file_operations.rs:103-111 | empties the queue and spends the log; returns one outcome per queued operation; the outcomes and the new disk are those of running the queue in order; nothing off the root's branch changes |
| FileOperations.FileOperations.DoOp | src/file_operations.rs:82-89 | executes one operation at the path it records |
| FileOperations.FileOperations.GitInit | src/file_operations.rs:139-141 | initialises a repository with the log's options |
| FileOperations.CreateOneDirectory | src/file_operations.rs:195-209 | a log with one plain create of a new child of an existing root commits to `[Ok]` and leaves the child a directory |
| FileOperations.InitRepositoryTwice | src/file_operations.rs:278-290 | a log asked twice to create a repository at a fresh root commits to `[Ok, Err(Git2Error)]`, with `.git` a directory afterwards |
| Config.FsConfig.constructor | src/config.rs:27-33 | records the root exactly and starts with no current shell, without touching the disk |
| Config.FsConfig.RootPath | src/config.rs:57-59 | the root recorded at construction, unchanged |
| Config.FsConfig.ConfigPath | src/config.rs:44-46 | the marker path is the child `current_shell` of the root |
| Config.FsConfig.ShellRootPath | src/config.rs:61-63 | the shells directory is the child `shells` of the root |
| Config.FsConfig.CurrentShellName | src/config.rs:65-67 | the cached shell name exactly as last loaded or set, `None` before either |
| Config.FsConfig.ShellExists | src/config.rs:79-82 | a shell exists exactly when `root/shells/name` is present on the disk at call time and is a directory |
| Config.FsConfig.ReadCurrentShell | src/config.rs:35-42 | succeeds exactly when the marker is a readable file and returns its whole contents; otherwise an I/O error |
| Config.FsConfig.Initialize | src/config.rs:50-55 | on success the cache holds the marker file's full contents; on failure an I/O error and the cache is unchanged |
| Config.FsConfig.SetCurrentShellName | src/config.rs:69-77 | succeeds exactly when the marker can be created and the write goes through; then the cache is the name and the marker reads back exactly the name; on failure the cache is unchanged; no path but the marker changes |
| Config.DerivedPathsApart | src/config.rs:44-63 | the marker and the shells directory are distinct children of the root, and no shell directory lies on the marker's branch |
| Config.ShellExistsNeedsShellsDir | src/config.rs:79-82 | a shell exists only when the shells directory and the root are directories; with the shells directory missing every name is absent |
| Config.MarkerWriteKeepsShells | src/config.rs:69-82 | writing the marker, successful or not, never changes which shells exist |
| Config.SetThenReload | src/config.rs:197-210 | setting the current shell and loading a fresh configuration over the same root reads back exactly the name set |
| Config.MockConfig.New | src/config.rs:100-106 | the double starts at root `/` with allowed names `["default"]` and current shell `default` |
| Config.MockConfig.WithRoot | src/config.rs:108-114 | as `New`, at the given root |
| Config.MockConfig.Initialize | src/config.rs:118-120 | always succeeds |
| Config.MockConfig.RootPath | src/config.rs:122-124 | the root given at construction, unchanged |
| Config.MockConfig.ShellRootPath | src/config.rs:126-128 | the child `shells` of the root |
| Config.MockConfig.ShellExists | src/config.rs:139-141 | a shell exists exactly when its name occurs in the list of allowed names; the disk is never consulted |
| Config.MockConfig.CurrentShellName | src/config.rs:130-132 | the double always has a current shell |
| Config.MockConfig.SetCurrentShellName | src/config.rs:134-137 | always succeeds and the current shell is then the new name |
| Config.MockDefaults | src/config.rs:139-141 | on a fresh double, a shell exists exactly when its name is `default`, which is the current shell |

## Left out

- The `Config` trait (src/config.rs:6-18) as a type: `FsConfig` and `MockConfig` both declare the six trait members under the same names, with no common supertype; `FsConfig`'s members take the disk (and, for `SetCurrentShellName`, `deviceOk`) as a parameter.
- `link` and `Op::Link`: the enqueue method is commented out in the source and `do_op` has no arm for it; `Op.Link` is kept in the variant type and given symbolic-link semantics in `Apply`, but no method enqueues it.
- The extra `MkDir` of an empty path that `commit` pushes onto the moved-out log: the log is consumed by `commit`, so it never runs; the model empties the queue and marks the log spent.
- The macro that generates the enqueue methods and `do_op`: modelled as the one dispatch over `Op` it is meant to produce.
- The `Display`, `error::Error` and `From` implementations of the error type, and the payloads of the errors: only the two-kind tag is kept.
- Symbolic links are never followed: `is_dir`, `File::open`, `File::create` and `mkdir` treat a link as a non-directory leaf, where the operating system would follow it.
- Repository initialisation creates only the `.git` directory; the repository contents git2 writes inside it are not modelled.
- Permissions, non-UTF-8 contents and other operating-system failures are not modelled, except a failed device write in `FsConfig.SetCurrentShellName`, which leaves the marker truncated (a partial write is not modelled).
- Shell names are single path components; a name containing a separator, or an absolute one, is not modelled.
- Path components `.`, `..` and the empty component: every component is an ordinary child name, so a `..` argument names a child called `..` rather than walking up, and `.` does not name the directory itself. The source's own uses of `"."` (src/file_operations.rs:251, 283-284) are modelled as the empty relative path `[]`, which joins to the root itself.
- RunConfined: holds only for arguments made of plain names (no `.`, `..` or empty component); with `..` the source can create or remove paths outside the root's branch, which the model does not capture.
- Commit: the promise that nothing off the root's branch changes holds only for arguments made of plain names; an argument with `..` escapes the root in the source.
- DerivedPathsApart: the marker and a shell directory are apart only for plain shell names; in the source `shell_exists("..")` looks at the root itself, which is a directory, and a name `../current_shell` reaches the marker.
- src/main.rs (argument parsing, dispatch, printing of outcomes) and src/status.rs are not part of this model.
