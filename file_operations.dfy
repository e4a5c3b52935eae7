/**
 * The deferred file-operation log: operations are recorded, each at the
 * log's root joined with the caller's relative path, and nothing touches
 * the disk until `Commit` runs every recorded operation in order and
 * reports one outcome per operation.
 */
module FileOperations {
  import opened FileSystem

  datatype Op =
    | MkDir(path: Path)
    | MkDirAll(path: Path)
    | GitInit(path: Path)
    | Link(source: Path, dest: Path)
    | Remove(path: Path)

  /** The deepest path an operation may create, change or remove. */
  function Footprint(op: Op): Path {
    match op
    case GitInit(p) => p + [GitDirName]
    case Link(_, dest) => dest
    case MkDir(p) => p
    case MkDirAll(p) => p
    case Remove(p) => p
  }

  /** The failure kind an operation reports: repository operations fail as git errors. */
  function KindOf(op: Op): ErrorKind {
    if op.GitInit? then Git2Error else IoError
  }

  /**
   * One operation executed at the path it records. A failure changes
   * nothing and carries the operation's error kind; a success leaves the
   * created directory in place or the removed file gone.
   */
  function Apply(fs: FS, op: Op, noReinit: bool): (out: (Outcome, FS))
    ensures out.0.Err? ==> out.0.kind == KindOf(op) && out.1 == fs
    ensures out.0.Ok? && (op.MkDir? || op.MkDirAll?) ==> IsDir(out.1, op.path)
    ensures out.0.Ok? && op.GitInit? ==> IsDir(out.1, op.path + [GitDirName])
    ensures out.0.Ok? && op.Remove? ==> op.path !in out.1
  {
    match op
    case MkDir(dir) => FileSystem.CreateDir(fs, dir)
    case MkDirAll(dir) => FileSystem.CreateDirAll(fs, dir)
    case GitInit(dir) => InitRepository(fs, dir, noReinit)
    case Link(source, dest) => CreateSymlink(fs, source, dest)
    case Remove(file) => RemoveFile(fs, file)
  }

  /**
   * Every operation of `ops` executed in order, each on the state the
   * previous one left, whether or not earlier ones failed; the outcomes
   * in the same order.
   */
  function Run(fs: FS, ops: seq<Op>, noReinit: bool): (out: (seq<Outcome>, FS))
    ensures |out.0| == |ops|
    decreases |ops|
  {
    if ops == [] then ([], fs)
    else
      var (rs, mid) := Run(fs, ops[..|ops| - 1], noReinit);
      var (r, after) := Apply(mid, ops[|ops| - 1], noReinit);
      (rs + [r], after)
  }

  /** `a` and `b` lie on one branch of the tree: one is a prefix of the other. */
  ghost predicate OnOneBranch(a: Path, b: Path) {
    a <= b || b <= a
  }

  /** Only the paths on the branch through `root` differ between `fs` and `fs'`. */
  ghost predicate ConfinedToBranch(fs: FS, fs': FS, root: Path) {
    && (forall q :: q in fs && !OnOneBranch(q, root) ==> q in fs' && fs'[q] == fs[q])
    && (forall q :: q in fs' && !OnOneBranch(q, root) ==> q in fs)
  }

  /**
   * Each operation keeps the filesystem well-formed, changes nothing
   * outside the prefixes of its footprint, and changes nothing at all when
   * it fails, failing with its own kind.
   */
  lemma ApplySpec(fs: FS, op: Op, noReinit: bool)
    requires WellFormed(fs)
    ensures var (r, fs') := Apply(fs, op, noReinit);
      && WellFormed(fs')
      && ConfinedTo(fs, fs', Footprint(op))
      && (r.Err? ==> r.kind == KindOf(op) && fs' == fs)
  {
    match op
    case MkDir(p) => CreateDirSpec(fs, p);
    case MkDirAll(p) => CreateDirAllSpec(fs, p);
    case GitInit(p) => CreateDirAllSpec(fs, p + [GitDirName]);
    case Link(source, dest) => SymlinkSpec(fs, source, dest);
    case Remove(p) => RemoveFileSpec(fs, p);
  }

  /**
   * Outcome `i` of a run is the outcome of operation `i` applied to the
   * state left by operations `0..i`: results correspond one-to-one, in
   * enqueue order, and no failure stops the operations after it.
   */
  lemma {:induction false} RunAt(fs: FS, ops: seq<Op>, noReinit: bool, i: nat)
    requires i < |ops|
    ensures Run(fs, ops, noReinit).0[i] == Apply(Run(fs, ops[..i], noReinit).1, ops[i], noReinit).0
    decreases |ops|
  {
    var init := ops[..|ops| - 1];
    if i < |init| {
      RunAt(fs, init, noReinit, i);
      assert init[..i] == ops[..i];
    } else {
      assert init == ops[..i];
    }
  }

  lemma PrefixesOnOneBranch(q: Path, root: Path, p: Path)
    requires q <= p && root <= p
    ensures OnOneBranch(q, root)
  {
    if |q| <= |root| {
      assert q == p[..|q|] == root[..|q|];
    } else {
      assert root == p[..|root|] == q[..|root|];
    }
  }

  /**
   * A run of operations whose footprints all lie under `root` keeps the
   * filesystem well-formed and changes nothing off the branch through
   * `root` (only `root`'s ancestors, created where missing, and paths
   * below `root`).
   */
  lemma {:induction false} RunConfined(fs: FS, ops: seq<Op>, noReinit: bool, root: Path)
    requires WellFormed(fs)
    requires forall i :: 0 <= i < |ops| ==> root <= Footprint(ops[i])
    ensures WellFormed(Run(fs, ops, noReinit).1)
    ensures ConfinedToBranch(fs, Run(fs, ops, noReinit).1, root)
    decreases |ops|
  {
    if ops != [] {
      var init, op := ops[..|ops| - 1], ops[|ops| - 1];
      RunConfined(fs, init, noReinit, root);
      var mid := Run(fs, init, noReinit).1;
      ApplySpec(mid, op, noReinit);
      var after := Apply(mid, op, noReinit).1;
      assert root <= Footprint(op);
      forall q | !OnOneBranch(q, root) ensures !(q <= Footprint(op)) {
        if q <= Footprint(op) { PrefixesOnOneBranch(q, root, Footprint(op)); }
      }
    }
  }

  /** A run of two operations applies the second to the state the first left. */
  lemma RunTwo(fs: FS, a: Op, b: Op, noReinit: bool)
    ensures var (ra, mid) := Apply(fs, a, noReinit);
      var (rb, after) := Apply(mid, b, noReinit);
      Run(fs, [a, b], noReinit) == ([ra, rb], after)
  {
    var (ra, mid) := Apply(fs, a, noReinit);
    var one := [a];
    assert one[..|one| - 1] == [] && one[|one| - 1] == a;
    assert Run(fs, [], noReinit) == ([], fs);
    assert Run(fs, one, noReinit) == ([] + [ra], mid);
    assert [] + [ra] == [ra];
    var (rb, after) := Apply(mid, b, noReinit);
    var ops := [a, b];
    assert ops[..|ops| - 1] == [a] && ops[|ops| - 1] == b;
    assert Run(fs, ops, noReinit) == ([ra] + [rb], after);
    assert [ra] + [rb] == [ra, rb];
  }

  /**
   * With the no-reinit option, two initialisations of one fresh path in
   * one run give an Ok and then a git error.
   */
  lemma GitInitTwice(fs: FS, p: Path)
    requires WellFormed(fs)
    requires p + [GitDirName] !in fs && Unobstructed(fs, p)
    ensures Run(fs, [GitInit(p), GitInit(p)], true).0 == [Ok(()), Err(Git2Error)]
  {
    RunTwo(fs, GitInit(p), GitInit(p), true);
    InitRepositorySpec(fs, p);
    InitRepositoryRefusesReinit(fs, p);
  }

  /**
   * Operations see the effects of earlier ones: a recursive create makes
   * room for a plain create of a new child inside it.
   */
  lemma DirAllThenDir(fs: FS, p: Path, n: Name)
    requires WellFormed(fs)
    requires Unobstructed(fs, p) && p + [n] !in fs
    ensures Run(fs, [MkDirAll(p), MkDir(p + [n])], true).0 == [Ok(()), Ok(())]
  {
    RunTwo(fs, MkDirAll(p), MkDir(p + [n]), true);
    CreateDirAllSpec(fs, p);
    var mid := CreateDirAll(fs, p).1;
    assert p[..|p|] == p;
    assert Parent(p + [n]) == p;
    assert !(p + [n] <= p);
  }

  /**
   * The log. `root` is fixed at construction; `operations` only grows
   * until `Commit`, which moves the queue out and leaves the log spent.
   */
  class FileOperations {
    const root: Path
    /** The repository-initialisation option of the log: refuse to re-initialise. */
    const noReinit: bool
    var operations: seq<Op>
    var spent: bool

    /** Every recorded operation acts at or below the root. */
    ghost predicate Valid()
      reads this
    {
      forall i :: 0 <= i < |operations| ==> root <= Footprint(operations[i])
    }

    constructor RootedAt(path: Path)
      ensures root == path && noReinit
      ensures operations == [] && !spent && Valid()
    {
      root := path;
      noReinit := true;
      operations := [];
      spent := false;
    }

    method CreateDir(dir: Path)
      requires !spent && Valid()
      modifies this`operations
      ensures operations == old(operations) + [MkDir(root + dir)]
      ensures Valid()
    {
      operations := operations + [MkDir(root + dir)];
    }

    method CreateDirAll(dir: Path)
      requires !spent && Valid()
      modifies this`operations
      ensures operations == old(operations) + [MkDirAll(root + dir)]
      ensures Valid()
    {
      operations := operations + [MkDirAll(root + dir)];
    }

    method Remove(file: Path)
      requires !spent && Valid()
      modifies this`operations
      ensures operations == old(operations) + [Op.Remove(root + file)]
      ensures Valid()
    {
      operations := operations + [Op.Remove(root + file)];
    }

    method CreateGitRepo(dir: Path)
      requires !spent && Valid()
      modifies this`operations
      ensures operations == old(operations) + [Op.GitInit(root + dir)]
      ensures Valid()
    {
      operations := operations + [Op.GitInit(root + dir)];
      assert Footprint(Op.GitInit(root + dir)) == root + (dir + [GitDirName]);
    }

    /**
     * Runs every queued operation in order against `disk` and returns one
     * outcome per operation; the log is spent afterwards.
     */
    method Commit(disk: Disk) returns (results: seq<Outcome>)
      requires !spent && Valid() && disk.Valid()
      modifies this, disk
      ensures spent && operations == []
      ensures |results| == |old(operations)|
      ensures (results, disk.fs) == Run(old(disk.fs), old(operations), noReinit)
      ensures disk.Valid() && ConfinedToBranch(old(disk.fs), disk.fs, root)
    {
      var ops := operations;
      operations := [];
      spent := true;
      results := [];
      var i := 0;
      while i < |ops|
        modifies disk
        invariant 0 <= i <= |ops|
        invariant (results, disk.fs) == Run(old(disk.fs), ops[..i], noReinit)
        invariant disk.Valid()
      {
        var r := DoOp(disk, ops[i]);
        assert ops[..i + 1][..i] == ops[..i];
        results := results + [r];
        i := i + 1;
      }
      assert ops[..i] == ops;
      RunConfined(old(disk.fs), ops, noReinit, root);
    }

    /** Executes one operation at the path it records. */
    method DoOp(disk: Disk, op: Op) returns (r: Outcome)
      requires disk.Valid()
      modifies disk
      ensures (r, disk.fs) == Apply(old(disk.fs), op, noReinit)
      ensures disk.Valid()
    {
      ApplySpec(disk.fs, op, noReinit);
      match op {
        case MkDir(dir) =>
          var (res, next) := FileSystem.CreateDir(disk.fs, dir);
          r, disk.fs := res, next;
        case MkDirAll(dir) =>
          var (res, next) := FileSystem.CreateDirAll(disk.fs, dir);
          r, disk.fs := res, next;
        case GitInit(dir) =>
          r := GitInit(disk, dir);
        case Link(source, dest) =>
          var (res, next) := CreateSymlink(disk.fs, source, dest);
          r, disk.fs := res, next;
        case Remove(file) =>
          var (res, next) := RemoveFile(disk.fs, file);
          r, disk.fs := res, next;
      }
    }

    /** Initialises a repository at `dir` with the log's options. */
    method GitInit(disk: Disk, dir: Path) returns (r: Outcome)
      modifies disk
      ensures (r, disk.fs) == InitRepository(old(disk.fs), dir, noReinit)
    {
      var (res, next) := InitRepository(disk.fs, dir, noReinit);
      r, disk.fs := res, next;
    }
  }

  /**
   * A log rooted at `root` with one plain create of a new child of an
   * existing directory: nothing happens before the commit, and the commit
   * reports one success and leaves the child a directory.
   */
  method CreateOneDirectory(disk: Disk, root: Path, name: Name) returns (results: seq<Outcome>)
    requires disk.Valid() && IsDir(disk.fs, root) && root + [name] !in disk.fs
    modifies disk
    ensures results == [Ok(())] && IsDir(disk.fs, root + [name])
  {
    var log := new FileOperations.RootedAt(root);
    log.CreateDir([name]);
    assert disk.fs == old(disk.fs);
    results := log.Commit(disk);
    assert Parent(root + [name]) == root;
    assert [MkDir(root + [name])][..0] == [];
  }

  /**
   * A log rooted at a fresh `root` asked twice to create a repository at
   * the root itself: the first attempt succeeds and the second is refused
   * with a git error.
   */
  method InitRepositoryTwice(disk: Disk, root: Path) returns (results: seq<Outcome>)
    requires disk.Valid() && root + [GitDirName] !in disk.fs && Unobstructed(disk.fs, root)
    modifies disk
    ensures results == [Ok(()), Err(Git2Error)]
    ensures IsDir(disk.fs, root + [GitDirName])
  {
    var log := new FileOperations.RootedAt(root);
    log.CreateGitRepo([]);
    log.CreateGitRepo([]);
    assert root + [] == root;
    results := log.Commit(disk);
    GitInitTwice(old(disk.fs), root);
    RunTwo(old(disk.fs), GitInit(root), GitInit(root), true);
    InitRepositorySpec(old(disk.fs), root);
  }
}
