/**
 * An abstract filesystem and the primitive calls the core makes on it
 * (`fs::create_dir`, `fs::create_dir_all`, `fs::remove_file`, a symbolic
 * link, `File::create` + `write_all`, `File::open` + `read_to_string`, and
 * git repository initialisation), each as a pure function from the old
 * state to an outcome and the new state.
 *
 * A path is the sequence of its name components, counted from the
 * filesystem root `[]`; joining a relative path onto a base is sequence
 * concatenation. A symbolic link is an opaque leaf: it is never followed.
 */
module FileSystem {

  type Name = string
  type Path = seq<Name>

  datatype Node = Dir | File(contents: string) | Symlink(target: Path)

  type FS = map<Path, Node>

  /** The two failure kinds of the file-operation log. */
  datatype ErrorKind = IoError | Git2Error

  datatype Result<T> = Ok(value: T) | Err(kind: ErrorKind)

  type Outcome = Result<()>

  /** Name of the directory whose presence makes a directory a repository. */
  const GitDirName: Name := ".git"

  function Parent(p: Path): Path
    requires p != []
  {
    p[..|p| - 1]
  }

  predicate IsDir(fs: FS, p: Path) {
    p in fs && fs[p].Dir?
  }

  /** The root is a directory, and every other entry sits in a directory. */
  ghost predicate WellFormed(fs: FS) {
    && IsDir(fs, [])
    && forall p :: p in fs && p != [] ==> IsDir(fs, Parent(p))
  }

  /** No prefix of `p` (`p` included) exists as anything but a directory. */
  ghost predicate Unobstructed(fs: FS, p: Path) {
    forall i :: 0 <= i <= |p| && p[..i] in fs ==> fs[p[..i]].Dir?
  }

  /** `fs'` keeps every entry of `fs` and adds only directories on the way to `p`. */
  ghost predicate AddsDirsAlong(fs: FS, fs': FS, p: Path) {
    && (forall q :: q in fs ==> q in fs' && fs'[q] == fs[q])
    && (forall q :: q in fs' && q !in fs ==> fs'[q] == Dir && q <= p)
  }

  /** Nothing outside the prefixes of `p` differs between `fs` and `fs'`. */
  ghost predicate ConfinedTo(fs: FS, fs': FS, p: Path) {
    && (forall q :: q in fs && !(q <= p) ==> q in fs' && fs'[q] == fs[q])
    && (forall q :: q in fs' && !(q <= p) ==> q in fs)
  }

  /** The machine's filesystem, which the core's calls change in place. */
  class Disk {
    var fs: FS

    ghost predicate Valid()
      reads this
    {
      WellFormed(fs)
    }

    constructor (fs: FS)
      ensures this.fs == fs
    {
      this.fs := fs;
    }
  }

  // ---------------------------------------------------------------------
  // Primitives

  /** `fs::create_dir`: the parent must be a directory and `p` must not exist. */
  function CreateDir(fs: FS, p: Path): (Outcome, FS) {
    if p in fs || p == [] || !IsDir(fs, Parent(p)) then (Err(IoError), fs)
    else (Ok(()), fs[p := Dir])
  }

  /** `fs::create_dir_all`: succeed on an existing directory, otherwise create the parent chain, then `p`. */
  function CreateDirAll(fs: FS, p: Path): (out: (Outcome, FS))
    ensures out.0.Ok? ==> IsDir(out.1, p)
    ensures out.0.Err? ==> out.0.kind == IoError && out.1 == fs
    ensures forall q :: q in out.1 && q !in fs ==> q <= p
    decreases |p|
  {
    if IsDir(fs, p) then (Ok(()), fs)
    else if p in fs || p == [] then (Err(IoError), fs)
    else
      var (r, mid) := CreateDirAll(fs, Parent(p));
      if r.Err? then (r, mid) else CreateDir(mid, p)
  }

  /** `fs::remove_file`: removes a file or a link, never a directory. */
  function RemoveFile(fs: FS, p: Path): (Outcome, FS) {
    if p in fs && !fs[p].Dir? then (Ok(()), fs - {p})
    else (Err(IoError), fs)
  }

  /** `std::os::unix::fs::symlink`: a new link at `link` pointing at `target`. */
  function CreateSymlink(fs: FS, target: Path, link: Path): (Outcome, FS) {
    if link in fs || link == [] || !IsDir(fs, Parent(link)) then (Err(IoError), fs)
    else (Ok(()), fs[link := Symlink(target)])
  }

  /**
   * git repository initialisation at `p`: the repository directory `p/.git`
   * is created together with every missing ancestor; an existing `.git`
   * is refused when `noReinit` is set. Every failure has kind Git2Error.
   */
  function InitRepository(fs: FS, p: Path, noReinit: bool): (Outcome, FS) {
    var git := p + [GitDirName];
    if git in fs then
      if !noReinit && fs[git].Dir? then (Ok(()), fs) else (Err(Git2Error), fs)
    else
      var (r, fs') := CreateDirAll(fs, git);
      if r.Ok? then (r, fs') else (Err(Git2Error), fs')
  }

  /** `File::create`: create the file, or truncate an existing one. */
  function CreateFile(fs: FS, p: Path): (Outcome, FS) {
    if p in fs then
      if fs[p].File? then (Ok(()), fs[p := File("")]) else (Err(IoError), fs)
    else if p == [] || !IsDir(fs, Parent(p)) then (Err(IoError), fs)
    else (Ok(()), fs[p := File("")])
  }

  /**
   * `write_all` on the handle open at `p`; `deviceOk` is the outcome of the
   * device write, which the filesystem state does not determine.
   */
  function WriteAll(fs: FS, p: Path, data: string, deviceOk: bool): (Outcome, FS) {
    if deviceOk && p in fs && fs[p].File? then (Ok(()), fs[p := File(fs[p].contents + data)])
    else (Err(IoError), fs)
  }

  /** `File::open` followed by `read_to_string`. */
  function ReadToString(fs: FS, p: Path): Result<string> {
    if p in fs && fs[p].File? then Ok(fs[p].contents) else Err(IoError)
  }

  // ---------------------------------------------------------------------
  // Lemmas

  /** In a well-formed filesystem every proper prefix of an existing path is a directory. */
  lemma {:induction false} AncestorsAreDirs(fs: FS, p: Path, i: nat)
    requires WellFormed(fs) && p in fs && i < |p|
    ensures IsDir(fs, p[..i])
    decreases |p|
  {
    var q := Parent(p);
    assert q in fs;
    if i < |q| {
      AncestorsAreDirs(fs, q, i);
      assert q[..i] == p[..i];
    } else {
      assert p[..i] == q;
    }
  }

  /**
   * `create_dir` never creates ancestors: when some proper prefix of `p`
   * is missing it fails with an I/O error and changes nothing.
   */
  lemma CreateDirNeedsAncestors(fs: FS, p: Path)
    requires WellFormed(fs)
    ensures var (r, fs') := CreateDir(fs, p);
      && (r.Ok? ==> forall i :: 0 <= i < |p| ==> p[..i] in fs)
      && (r.Err? ==> r.kind == IoError && fs' == fs)
  {
    if CreateDir(fs, p).0.Ok? {
      var q := Parent(p);
      forall i | 0 <= i < |p| ensures p[..i] in fs {
        if i < |q| {
          AncestorsAreDirs(fs, q, i);
          assert q[..i] == p[..i];
        } else {
          assert p[..i] == q;
        }
      }
    }
  }

  /** `create_dir` succeeds exactly when `p` is new and its parent is a directory. */
  lemma CreateDirSpec(fs: FS, p: Path)
    requires WellFormed(fs)
    ensures var (r, fs') := CreateDir(fs, p);
      && (r.Ok? <==> p != [] && p !in fs && IsDir(fs, Parent(p)))
      && (r.Ok? ==> IsDir(fs', p) && AddsDirsAlong(fs, fs', p))
      && (r.Err? ==> r.kind == IoError && fs' == fs)
      && WellFormed(fs')
  {
  }

  lemma UnobstructedParent(fs: FS, p: Path)
    requires p != [] && p !in fs
    ensures Unobstructed(fs, p) <==> Unobstructed(fs, Parent(p))
  {
    var q := Parent(p);
    forall i | 0 <= i <= |q| ensures q[..i] == p[..i] { }
    if Unobstructed(fs, q) {
      assert p[..|p|] == p;
      forall i | 0 <= i <= |p| && p[..i] in fs ensures fs[p[..i]].Dir? {
        if i < |p| { assert p[..i] == q[..i]; }
      }
    }
  }

  /**
   * `create_dir_all` succeeds exactly when no prefix of `p` is a
   * non-directory; it then leaves `p` and all its prefixes as directories
   * and adds nothing else. On failure nothing changes.
   */
  lemma {:induction false} CreateDirAllSpec(fs: FS, p: Path)
    requires WellFormed(fs)
    ensures var (r, fs') := CreateDirAll(fs, p);
      && (r.Ok? <==> Unobstructed(fs, p))
      && (r.Ok? ==> (forall i :: 0 <= i <= |p| ==> IsDir(fs', p[..i])) && AddsDirsAlong(fs, fs', p))
      && (r.Err? ==> r.kind == IoError && fs' == fs)
      && WellFormed(fs')
    decreases |p|
  {
    var (r, fs') := CreateDirAll(fs, p);
    if IsDir(fs, p) {
      forall i | 0 <= i <= |p| ensures IsDir(fs, p[..i]) {
        if i < |p| { AncestorsAreDirs(fs, p, i); } else { assert p[..i] == p; }
      }
    } else if p in fs {
      assert p[..|p|] == p;
    } else {
      var q := Parent(p);
      CreateDirAllSpec(fs, q);
      UnobstructedParent(fs, p);
      var (r1, mid) := CreateDirAll(fs, q);
      if r1.Ok? {
        assert q[..|q|] == q;
        assert p !in mid;
        assert fs'[p] == Dir;
        forall i | 0 <= i <= |p| ensures IsDir(fs', p[..i]) {
          if i < |p| { assert p[..i] == q[..i]; } else { assert p[..i] == p; }
        }
        forall x | x in fs' && x !in fs ensures fs'[x] == Dir && x <= p {
          if x != p { assert x in mid; }
        }
      }
    }
  }

  /** `remove_file` succeeds exactly on an existing non-directory, which is then gone. */
  lemma RemoveFileSpec(fs: FS, p: Path)
    requires WellFormed(fs)
    ensures var (r, fs') := RemoveFile(fs, p);
      && (r.Ok? <==> p in fs && !fs[p].Dir?)
      && (r.Ok? ==> p !in fs' && fs'.Keys == fs.Keys - {p} && ConfinedTo(fs, fs', p))
      && (r.Ok? ==> forall q :: q in fs' ==> fs'[q] == fs[q])
      && (r.Err? ==> r.kind == IoError && fs' == fs)
      && WellFormed(fs')
  {
  }

  /** A link is created only at a new path whose parent is a directory. */
  lemma SymlinkSpec(fs: FS, target: Path, link: Path)
    requires WellFormed(fs)
    ensures var (r, fs') := CreateSymlink(fs, target, link);
      && (r.Ok? <==> link != [] && link !in fs && IsDir(fs, Parent(link)))
      && (r.Ok? ==> link in fs' && fs'[link] == Symlink(target) && ConfinedTo(fs, fs', link))
      && (r.Err? ==> fs' == fs)
      && WellFormed(fs')
  {
  }

  lemma UnobstructedGitDir(fs: FS, p: Path)
    requires p + [GitDirName] !in fs
    ensures Unobstructed(fs, p + [GitDirName]) <==> Unobstructed(fs, p)
  {
    var git := p + [GitDirName];
    assert Parent(git) == p;
    UnobstructedParent(fs, git);
  }

  /**
   * Repository initialisation with the no-reinit option: it succeeds exactly
   * when `p/.git` does not exist and no prefix of `p` is a non-directory,
   * and then `p`, its ancestors and `p/.git` are directories. Every failure
   * is of kind Git2Error and changes nothing.
   */
  lemma InitRepositorySpec(fs: FS, p: Path)
    requires WellFormed(fs)
    ensures var git := p + [GitDirName];
      var (r, fs') := InitRepository(fs, p, true);
      && (r.Ok? <==> git !in fs && Unobstructed(fs, p))
      && (r.Ok? ==> IsDir(fs', git) && (forall i :: 0 <= i <= |p| ==> IsDir(fs', p[..i]))
                    && AddsDirsAlong(fs, fs', git))
      && (r.Err? ==> r.kind == Git2Error && fs' == fs)
      && WellFormed(fs')
  {
    var git := p + [GitDirName];
    if git !in fs {
      CreateDirAllSpec(fs, git);
      UnobstructedGitDir(fs, p);
      var (r, fs') := CreateDirAll(fs, git);
      if r.Ok? {
        assert git[..|git|] == git;
        forall i | 0 <= i <= |p| ensures IsDir(fs', p[..i]) {
          assert git[..i] == p[..i];
        }
      }
    }
  }

  /** Initialising the same path twice with the no-reinit option fails the second time. */
  lemma InitRepositoryRefusesReinit(fs: FS, p: Path)
    requires WellFormed(fs)
    ensures var (r, fs') := InitRepository(fs, p, true);
      r.Ok? ==> InitRepository(fs', p, true) == (Err(Git2Error), fs')
  {
    InitRepositorySpec(fs, p);
  }

  /**
   * Creating (truncating) a file and writing `data` to it leaves exactly
   * `data` to be read back, whatever the file held before.
   */
  lemma WriteThenRead(fs: FS, p: Path, data: string)
    ensures var (c, fs1) := CreateFile(fs, p);
      var (w, fs2) := WriteAll(fs1, p, data, true);
      c.Ok? ==> w.Ok? && ReadToString(fs2, p) == Ok(data)
  {
    var (c, fs1) := CreateFile(fs, p);
    if c.Ok? {
      assert fs1[p] == File("");
      assert "" + data == data;
    }
  }

  /** Creating or writing a file touches no other path and keeps the filesystem well-formed. */
  lemma CreateAndWriteConfined(fs: FS, p: Path, data: string, deviceOk: bool)
    ensures var (c, fs1) := CreateFile(fs, p);
      var (w, fs2) := WriteAll(fs1, p, data, deviceOk);
      && (c.Ok? <==> (p in fs && fs[p].File?) || (p !in fs && p != [] && IsDir(fs, Parent(p))))
      && (WellFormed(fs) ==> WellFormed(fs1) && WellFormed(fs2))
      && (forall q :: q != p ==> (q in fs2 <==> q in fs))
      && (forall q :: q != p && q in fs ==> fs2[q] == fs[q])
  {
  }
}
