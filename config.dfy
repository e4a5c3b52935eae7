/**
 * The shell configuration store. A hermit root holds the marker file
 * `current_shell`, naming the active shell, and one directory per shell
 * under `shells/`. Two implementations share one interface: `FsConfig`,
 * backed by the filesystem, and `MockConfig`, an in-memory test double.
 */
module Config {
  import opened FileSystem

  datatype Option<T> = None | Some(value: T)

  const MarkerName: Name := "current_shell"
  const ShellsDirName: Name := "shells"

  /** The configuration kept on disk under `rootPath`, with the active shell cached. */
  class FsConfig {
    const rootPath: Path
    var currentShell: Option<string>

    /** Records the root; no disk access, and no shell is known yet. */
    constructor (rootPath: Path)
      ensures this.rootPath == rootPath && currentShell == None
    {
      this.rootPath := rootPath;
      currentShell := None;
    }

    /** The root given at construction, unchanged. */
    function RootPath(): (p: Path)
      ensures p == rootPath
    {
      rootPath
    }

    /** The marker file: the child `current_shell` of the root. */
    function ConfigPath(): (p: Path)
      ensures p != [] && Parent(p) == rootPath && p[|p| - 1] == MarkerName
    {
      rootPath + [MarkerName]
    }

    /** The directory holding the shells: the child `shells` of the root. */
    function ShellRootPath(): (p: Path)
      ensures p != [] && Parent(p) == rootPath && p[|p| - 1] == ShellsDirName
    {
      rootPath + [ShellsDirName]
    }

    /** The cached shell name, exactly as last loaded or set. */
    function CurrentShellName(): (r: Option<string>)
      reads this
      ensures r == currentShell
    {
      currentShell
    }

    /** Whether `rootPath/shells/name` is a directory, read from the disk at call time. */
    function ShellExists(disk: Disk, name: Name): (b: bool)
      reads disk
      ensures b <==> (ShellRootPath() + [name] in disk.fs && disk.fs[ShellRootPath() + [name]] == Dir)
    {
      IsDir(disk.fs, ShellRootPath() + [name])
    }

    /** Opens the marker file and reads all of it into a fresh buffer. */
    method ReadCurrentShell(disk: Disk) returns (r: Result<string>)
      ensures r.Ok? <==> ConfigPath() in disk.fs && disk.fs[ConfigPath()].File?
      ensures r.Ok? ==> disk.fs[ConfigPath()] == File(r.value)
      ensures r.Err? ==> r.kind == IoError
    {
      var file := ReadToString(disk.fs, ConfigPath());
      if file.Err? {
        return Err(IoError);
      }
      var buffer := "";
      buffer := buffer + file.value;
      r := Ok(buffer);
    }

    /**
     * Loads the cache from the marker file; when the file cannot be
     * opened or read, fails and keeps the cache.
     */
    method Initialize(disk: Disk) returns (r: Outcome)
      modifies this`currentShell
      ensures r.Ok? <==> ConfigPath() in disk.fs && disk.fs[ConfigPath()].File?
      ensures r.Ok? ==> currentShell.Some? && disk.fs[ConfigPath()] == File(currentShell.value)
      ensures r.Err? ==> r.kind == IoError && currentShell == old(currentShell)
    {
      var read := ReadCurrentShell(disk);
      if read.Err? {
        return Err(read.kind);
      }
      currentShell := Some(read.value);
      r := Ok(());
    }

    /**
     * Writes `name` as the whole marker file, and only once that has
     * succeeded caches it. `deviceOk` is the outcome of the device write.
     */
    method SetCurrentShellName(disk: Disk, name: string, deviceOk: bool) returns (r: Outcome)
      modifies this`currentShell, disk
      ensures r.Ok? <==> CreateFile(old(disk.fs), ConfigPath()).0.Ok? && deviceOk
      ensures r.Ok? ==> currentShell == Some(name) && ReadToString(disk.fs, ConfigPath()) == Ok(name)
      ensures r.Err? ==> r.kind == IoError && currentShell == old(currentShell)
      ensures disk.fs == WriteAll(CreateFile(old(disk.fs), ConfigPath()).1, ConfigPath(), name, deviceOk).1
      ensures forall q :: q != ConfigPath() ==> (q in disk.fs <==> q in old(disk.fs))
      ensures forall q :: q != ConfigPath() && q in old(disk.fs) ==> disk.fs[q] == old(disk.fs)[q]
      ensures old(disk.Valid()) ==> disk.Valid()
    {
      var path := ConfigPath();
      ghost var before := disk.fs;
      CreateAndWriteConfined(before, path, name, deviceOk);
      WriteThenRead(before, path, name);
      var (created, truncated) := CreateFile(disk.fs, path);
      disk.fs := truncated;
      if created.Err? {
        return created;
      }
      var (written, after) := WriteAll(disk.fs, path, name, deviceOk);
      disk.fs := after;
      if written.Err? {
        return written;
      }
      currentShell := Some(name);
      r := Ok(());
    }
  }

  /**
   * The marker file and the shells directory are distinct children of the
   * root, and no shell directory lies on the marker file's branch: the
   * marker can never be taken for a shell, nor a shell for the marker.
   */
  lemma DerivedPathsApart(c: FsConfig, name: Name)
    ensures Parent(c.ConfigPath()) == c.RootPath() && Parent(c.ShellRootPath()) == c.RootPath()
    ensures c.ConfigPath() != c.ShellRootPath()
    ensures Parent(c.ShellRootPath() + [name]) == c.ShellRootPath()
    ensures !(c.ConfigPath() <= c.ShellRootPath() + [name])
    ensures !(c.ShellRootPath() + [name] <= c.ConfigPath())
  {
    var marker, shell := c.ConfigPath(), c.ShellRootPath() + [name];
    assert marker[|c.rootPath|] == MarkerName != ShellsDirName == shell[|c.rootPath|];
  }

  /**
   * A shell can only exist when the root and the shells directory are
   * directories: with the shells directory missing every name is reported
   * absent.
   */
  lemma ShellExistsNeedsShellsDir(c: FsConfig, disk: Disk, name: Name)
    requires disk.Valid()
    ensures c.ShellExists(disk, name) ==> IsDir(disk.fs, c.ShellRootPath()) && IsDir(disk.fs, c.RootPath())
    ensures !IsDir(disk.fs, c.ShellRootPath()) ==> !c.ShellExists(disk, name)
  {
    var shell := c.ShellRootPath() + [name];
    if c.ShellExists(disk, name) {
      AncestorsAreDirs(disk.fs, shell, |c.rootPath|);
      AncestorsAreDirs(disk.fs, shell, |c.rootPath| + 1);
      assert shell[..|c.rootPath|] == c.rootPath;
      assert shell[..|c.rootPath| + 1] == c.ShellRootPath();
    }
  }

  /**
   * Writing the marker file, whether it succeeds or not, never changes
   * which shells exist.
   */
  lemma MarkerWriteKeepsShells(c: FsConfig, fs: FS, name: string, deviceOk: bool, shell: Name)
    ensures var fs2 := WriteAll(CreateFile(fs, c.ConfigPath()).1, c.ConfigPath(), name, deviceOk).1;
      IsDir(fs2, c.ShellRootPath() + [shell]) == IsDir(fs, c.ShellRootPath() + [shell])
  {
    DerivedPathsApart(c, shell);
    CreateAndWriteConfined(fs, c.ConfigPath(), name, deviceOk);
  }

  /**
   * Setting the active shell and then loading a fresh configuration over
   * the same root reads back exactly the name that was set.
   */
  method SetThenReload(disk: Disk, root: Path, name: string) returns (written: bool, reloaded: Option<string>)
    modifies disk
    ensures written <==> CreateFile(old(disk.fs), root + [MarkerName]).0.Ok?
    ensures written ==> reloaded == Some(name)
  {
    var writer := new FsConfig(root);
    var r := writer.SetCurrentShellName(disk, name, true);
    written := r.Ok?;
    var reader := new FsConfig(root);
    var loaded := reader.Initialize(disk);
    reloaded := reader.CurrentShellName();
  }

  /**
   * The test double: a fixed list of allowed shell names, and a current
   * shell that is always set.
   */
  class MockConfig {
    const rootPath: Path
    var currentShell: string
    const allowedShellNames: seq<string>

    constructor New()
      ensures rootPath == [] && currentShell == "default" && allowedShellNames == ["default"]
    {
      rootPath := [];
      allowedShellNames := ["default"];
      currentShell := "default";
    }

    constructor WithRoot(root: Path)
      ensures rootPath == root && currentShell == "default" && allowedShellNames == ["default"]
    {
      rootPath := root;
      allowedShellNames := ["default"];
      currentShell := "default";
    }

    /** Nothing to load: always succeeds. */
    method Initialize() returns (r: Outcome)
      ensures r == Ok(())
    {
      r := Ok(());
    }

    /** The root given at construction, unchanged. */
    function RootPath(): (p: Path)
      ensures p == rootPath
    {
      rootPath
    }

    /** The child `shells` of the root; the double never looks there. */
    function ShellRootPath(): (p: Path)
      ensures p != [] && Parent(p) == rootPath && p[|p| - 1] == ShellsDirName
    {
      rootPath + [ShellsDirName]
    }

    /** The current shell, which the double always has. */
    function CurrentShellName(): (r: Option<string>)
      reads this
      ensures r.Some?
    {
      Some(currentShell)
    }

    /** Always succeeds and overwrites the current shell. */
    method SetCurrentShellName(name: string) returns (r: Outcome)
      modifies this`currentShell
      ensures r == Ok(()) && CurrentShellName() == Some(name)
    {
      currentShell := name;
      r := Ok(());
    }

    /** Membership in the allowed names; the disk is never consulted. */
    function ShellExists(name: string): (b: bool)
      ensures b <==> exists i :: 0 <= i < |allowedShellNames| && allowedShellNames[i] == name
    {
      name in allowedShellNames
    }
  }

  /** A fresh double knows exactly one shell, `default`, and it is the current one. */
  lemma MockDefaults(m: MockConfig, name: string)
    requires m.allowedShellNames == ["default"] && m.currentShell == "default"
    ensures m.ShellExists(name) <==> name == "default"
    ensures m.CurrentShellName() == Some("default")
  {
  }
}
