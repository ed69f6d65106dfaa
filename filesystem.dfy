/**
 * An abstract disk: a map from path to directory or file, with the failure
 * behaviour of `File.mkdirs`, `Files.write`/`FileWriter`, `File.listFiles` and
 * `File.delete` that the generator relies on. Which paths refuse to be created
 * or deleted is injected as two sets, standing for permissions, a full disk and
 * every other cause of an `IOException`.
 */
module FileSystem {
  import opened Paths

  datatype Option<T> = None | Some(value: T)

  datatype Node = Dir | File(content: string)

  type Tree = map<Path, Node>

  predicate IsDir(m: Tree, p: Path)
  {
    p in m && m[p].Dir?
  }

  /** The directory holding `p` exists: it is the root or a directory entry. */
  predicate ParentIsDir(m: Tree, p: Path)
  {
    Parent(p) == "" || IsDir(m, Parent(p))
  }

  /**
   * The root is implicit, every entry hangs from the root or from a directory,
   * and no entry has a name the platform refuses.
   */
  predicate WellFormed(m: Tree)
  {
    "" !in m && forall q :: q in m ==> ParentIsDir(m, q) && ValidPath(q)
  }

  predicate HasChild(m: Tree, d: Path)
  {
    exists c :: c in m && Parent(c) == d
  }

  /** What `listFiles` returns for a directory: its direct entries. */
  function Children(m: Tree, d: Path): set<Path>
  {
    set c | c in m.Keys && Parent(c) == d
  }

  /** The paths below `d`, with `d` itself, that are entries of `m`. */
  function Subtree(m: Tree, d: Path): set<Path>
  {
    set q | q in m.Keys && InSubtree(q, d)
  }

  /**
   * `Files.write` (and `new FileWriter`) succeed when the path can be named, is
   * not injected as failing, is not the root or a directory, and its parent
   * directory exists. (For a path that cannot be named, `new FileWriter` throws
   * an `IOException`; `Files.write` never gets that far, see `Generator`.)
   */
  predicate CanWrite(m: Tree, fail: set<Path>, p: Path)
  {
    p != "" && ValidPath(p) && p !in fail && !IsDir(m, p) && ParentIsDir(m, p)
  }

  /** The tree after writing `text` to `p`: created or truncated, or unchanged on failure. */
  function Written(m: Tree, fail: set<Path>, p: Path, text: string): Tree
  {
    if CanWrite(m, fail, p) then m[p := File(text)] else m
  }

  /** A path that `mkdirs` cannot pass: an existing file, or a missing path whose creation fails. */
  predicate Blocked(m: Tree, fail: set<Path>, q: Path)
  {
    (q in m && m[q].File?) || (q !in m && q in fail)
  }

  /**
   * `mkdirs` from cut position `i` of `p` on: each ancestor of `p`, then `p`,
   * is created when missing; the walk stops at the first one that is a file or
   * cannot be created.
   */
  function MkDirsFrom(m: Tree, fail: set<Path>, p: Path, i: nat): Tree
    requires 0 < i
    decreases |p| + 1 - i
  {
    if i > |p| then m
    else if !IsCutAt(p, i) then MkDirsFrom(m, fail, p, i + 1)
    else
      var q := p[..i];
      if q in m then
        if m[q].Dir? then MkDirsFrom(m, fail, p, i + 1) else m
      else if q in fail then m
      else MkDirsFrom(m[q := Dir], fail, p, i + 1)
  }

  /**
   * The tree after `new File(p).mkdirs()`. For a path that cannot be named,
   * `mkdirs` creates nothing, not even the ancestors that could be named.
   */
  function MkDirsResult(m: Tree, fail: set<Path>, p: Path): Tree
  {
    if ValidPath(p) then MkDirsFrom(m, fail, p, 1) else m
  }

  function CutsFrom(p: Path, i: nat): set<Path>
  {
    set j | i <= j <= |p| && IsCutAt(p, j) :: p[..j]
  }

  /** `m` with a directory added at every path of `s` that has no entry yet. */
  function Fill(m: Tree, s: set<Path>): Tree
  {
    map q | q in m.Keys + s :: if q in m then m[q] else Dir
  }

  lemma {:induction false} MkDirsFromFrame(m: Tree, fail: set<Path>, p: Path, i: nat)
    requires 0 < i
    ensures forall q :: q in m ==> q in MkDirsFrom(m, fail, p, i) && MkDirsFrom(m, fail, p, i)[q] == m[q]
    ensures forall q :: q in MkDirsFrom(m, fail, p, i) && q !in m ==>
              q in CutsFrom(p, i) && MkDirsFrom(m, fail, p, i)[q] == Dir
    decreases |p| + 1 - i
  {
    if i > |p| {
    } else if !IsCutAt(p, i) {
      MkDirsFromFrame(m, fail, p, i + 1);
      assert CutsFrom(p, i + 1) <= CutsFrom(p, i);
    } else {
      var q := p[..i];
      assert CutsFrom(p, i + 1) <= CutsFrom(p, i);
      if q in m {
        if m[q].Dir? {
          MkDirsFromFrame(m, fail, p, i + 1);
        }
      } else if q !in fail {
        MkDirsFromFrame(m[q := Dir], fail, p, i + 1);
        assert q in CutsFrom(p, i);
      }
    }
  }

  /** One step of the walk: the cuts from `i` on are those from `i + 1` on, plus `p[..i]` when `i` is a cut. */
  lemma CutsFromStep(p: Path, i: nat)
    ensures i > |p| ==> CutsFrom(p, i) == {}
    ensures i <= |p| && !IsCutAt(p, i) ==> CutsFrom(p, i) == CutsFrom(p, i + 1)
    ensures i <= |p| && IsCutAt(p, i) ==> CutsFrom(p, i) == CutsFrom(p, i + 1) + {p[..i]}
  {
  }

  /** Adding one missing directory first and filling the rest gives the same tree as filling both. */
  lemma FillOne(m: Tree, q: Path, s: set<Path>)
    ensures q !in m ==> Fill(m[q := Dir], s) == Fill(m, s + {q})
    ensures q in m ==> Fill(m, s + {q}) == Fill(m, s)
  {
  }

  /** With nothing blocking the way, `mkdirs` adds a directory at every missing cut. */
  lemma {:induction false} MkDirsFromClean(m: Tree, fail: set<Path>, p: Path, i: nat)
    requires 0 < i
    requires forall j :: i <= j <= |p| && IsCutAt(p, j) ==> !Blocked(m, fail, p[..j])
    ensures MkDirsFrom(m, fail, p, i) == Fill(m, CutsFrom(p, i))
    decreases |p| + 1 - i
  {
    CutsFromStep(p, i);
    if i > |p| {
      assert Fill(m, {}) == m;
    } else if !IsCutAt(p, i) {
      MkDirsFromClean(m, fail, p, i + 1);
    } else {
      var q := p[..i];
      FillOne(m, q, CutsFrom(p, i + 1));
      if q in m {
        MkDirsFromClean(m, fail, p, i + 1);
      } else {
        var m' := m[q := Dir];
        forall j | i + 1 <= j <= |p| && IsCutAt(p, j)
          ensures !Blocked(m', fail, p[..j])
        {
          assert |p[..j]| != |q|;
        }
        MkDirsFromClean(m', fail, p, i + 1);
      }
    }
  }

  /**
   * When no cut of `p` is blocked, `mkdirs` leaves `p` and all its ancestors as
   * directories and changes nothing else.
   */
  lemma MkDirsClean(m: Tree, fail: set<Path>, p: Path)
    requires ValidPath(p)
    requires forall q :: q in Cuts(p) ==> !Blocked(m, fail, q)
    ensures MkDirsResult(m, fail, p) == Fill(m, Cuts(p))
    ensures forall q :: q in Cuts(p) ==> IsDir(MkDirsResult(m, fail, p), q)
  {
    assert Cuts(p) == CutsFrom(p, 1);
    forall j | 1 <= j <= |p| && IsCutAt(p, j)
      ensures !Blocked(m, fail, p[..j])
    {
      assert p[..j] in Cuts(p);
    }
    MkDirsFromClean(m, fail, p, 1);
  }

  /** `mkdirs` keeps the tree well formed: it creates ancestors before descendants. */
  lemma {:induction false} MkDirsFromWellFormed(m: Tree, fail: set<Path>, p: Path, i: nat)
    requires 0 < i && WellFormed(m) && ValidPath(p)
    requires forall j :: 0 < j < i && IsCutAt(p, j) ==> IsDir(m, p[..j])
    ensures WellFormed(MkDirsFrom(m, fail, p, i))
    decreases |p| + 1 - i
  {
    if i > |p| {
    } else if !IsCutAt(p, i) {
      MkDirsFromWellFormed(m, fail, p, i + 1);
    } else {
      var q := p[..i];
      if q in m {
        if m[q].Dir? {
          MkDirsFromWellFormed(m, fail, p, i + 1);
        }
      } else if q !in fail {
        var m' := m[q := Dir];
        var r := Parent(q);
        if r != "" {
          assert p[|r|] == '/' && p[..|r|] == r;
          assert IsCutAt(p, |r|);
        }
        assert ParentIsDir(m, q);
        assert q in Cuts(p);
        ValidCut(p, q);
        forall x | x in m'
          ensures ParentIsDir(m', x) && ValidPath(x)
        {
          if x != q {
            assert ParentIsDir(m, x) && ValidPath(x);
          }
        }
        MkDirsFromWellFormed(m', fail, p, i + 1);
      }
    }
  }

  lemma MkDirsWellFormed(m: Tree, fail: set<Path>, p: Path)
    requires WellFormed(m)
    ensures WellFormed(MkDirsResult(m, fail, p))
  {
    if ValidPath(p) {
      MkDirsFromWellFormed(m, fail, p, 1);
    }
  }

  /** `mkdirs` only adds directories, all of them `p` or ancestors of `p`, and changes no existing entry. */
  lemma MkDirsFrame(m: Tree, fail: set<Path>, p: Path)
    ensures forall q :: q in m ==> q in MkDirsResult(m, fail, p) && MkDirsResult(m, fail, p)[q] == m[q]
    ensures forall q :: q in MkDirsResult(m, fail, p) && q !in m ==>
              q in Cuts(p) && MkDirsResult(m, fail, p)[q] == Dir
  {
    if ValidPath(p) {
      MkDirsFromFrame(m, fail, p, 1);
      assert CutsFrom(p, 1) == Cuts(p);
    }
  }

  /**
   * `mkdirs` reaches the ancestor ending at cut `n` of `p` when no cut up to
   * there blocks it, even if a deeper one does.
   */
  lemma {:induction false} MkDirsFromReaches(m: Tree, fail: set<Path>, p: Path, i: nat, n: nat)
    requires 0 < i <= n && IsCutAt(p, n)
    requires forall j :: i <= j <= n && IsCutAt(p, j) ==> !Blocked(m, fail, p[..j])
    ensures IsDir(MkDirsFrom(m, fail, p, i), p[..n])
    decreases |p| + 1 - i
  {
    if !IsCutAt(p, i) {
      MkDirsFromReaches(m, fail, p, i + 1, n);
    } else {
      var q := p[..i];
      var m' := if q in m then m else m[q := Dir];
      assert MkDirsFrom(m, fail, p, i) == MkDirsFrom(m', fail, p, i + 1);
      if i < n {
        forall j | i + 1 <= j <= n && IsCutAt(p, j)
          ensures !Blocked(m', fail, p[..j])
        {
          assert |p[..j]| != |q|;
        }
        MkDirsFromReaches(m', fail, p, i + 1, n);
      } else {
        MkDirsFromFrame(m', fail, p, i + 1);
      }
    }
  }

  /** When no ancestor of `p` up to cut `n` is blocked, `mkdirs` leaves that ancestor a directory. */
  lemma MkDirsReaches(m: Tree, fail: set<Path>, p: Path, n: nat)
    requires ValidPath(p) && IsCutAt(p, n)
    requires forall j :: 0 < j <= n && IsCutAt(p, j) ==> !Blocked(m, fail, p[..j])
    ensures IsDir(MkDirsResult(m, fail, p), p[..n])
  {
    MkDirsFromReaches(m, fail, p, 1, n);
  }

  /**
   * `mkdirs` stops at a blocked ancestor: nothing it adds is as long as the
   * ancestor ending at cut `n`, so nothing at or below that ancestor is created.
   */
  lemma {:induction false} MkDirsFromStops(m: Tree, fail: set<Path>, p: Path, i: nat, n: nat)
    requires 0 < i <= n && IsCutAt(p, n) && Blocked(m, fail, p[..n])
    ensures forall q :: q in MkDirsFrom(m, fail, p, i) && q !in m ==> |q| < n
    decreases |p| + 1 - i
  {
    if !IsCutAt(p, i) {
      MkDirsFromStops(m, fail, p, i + 1, n);
    } else if i < n {
      var q := p[..i];
      if q !in m && q !in fail {
        var m' := m[q := Dir];
        assert |q| != |p[..n]|;
        MkDirsFromStops(m', fail, p, i + 1, n);
      } else if q in m && m[q].Dir? {
        MkDirsFromStops(m, fail, p, i + 1, n);
      }
    }
  }

  /** `mkdirs` creates nothing at or below a blocked ancestor of its path. */
  lemma MkDirsStops(m: Tree, fail: set<Path>, p: Path, n: nat)
    requires IsCutAt(p, n) && Blocked(m, fail, p[..n])
    ensures forall q :: q in MkDirsResult(m, fail, p) && q !in m ==> |q| < n
  {
    if ValidPath(p) {
      MkDirsFromStops(m, fail, p, 1, n);
    }
  }

  /** Filling in two rounds is filling once with both sets. */
  lemma FillFill(m: Tree, a: set<Path>, b: set<Path>)
    ensures Fill(Fill(m, a), b) == Fill(m, a + b)
  {
  }

  /** A successful write keeps the tree well formed; a failed one changes nothing. */
  lemma WrittenWellFormed(m: Tree, fail: set<Path>, p: Path, text: string)
    requires WellFormed(m)
    ensures WellFormed(Written(m, fail, p, text))
  {
    if CanWrite(m, fail, p) {
      var m' := m[p := File(text)];
      forall x | x in m'
        ensures ParentIsDir(m', x) && ValidPath(x)
      {
        if x != p {
          assert ParentIsDir(m, x) && ValidPath(x);
        }
      }
    }
  }

  /** In a well-formed tree every non-root ancestor of an entry is a directory entry. */
  lemma {:induction false} AncestorIsDir(m: Tree, r: Path, j: nat)
    requires WellFormed(m) && r in m
    requires 0 < j < |r| && r[j] == '/'
    ensures IsDir(m, r[..j])
    decreases |r|
  {
    var pr := Parent(r);
    assert ParentIsDir(m, r);
    if |pr| == j {
      assert pr == r[..j];
    } else {
      assert |pr| > j;
      assert pr[j] == '/';
      AncestorIsDir(m, pr, j);
      assert pr[..j] == r[..j];
    }
  }

  // ---------------------------------------------------------------------------
  // Sequences of writes

  /** A file to be written: where, and what. */
  datatype Entry = Entry(path: Path, text: string)

  function PathsOf(ws: seq<Entry>): set<Path>
  {
    set k | 0 <= k < |ws| :: ws[k].path
  }

  lemma PathsOfTail(ws: seq<Entry>)
    requires ws != []
    ensures PathsOf(ws) == {ws[0].path} + PathsOf(ws[1..])
  {
    forall q | q in PathsOf(ws[1..])
      ensures q in PathsOf(ws)
    {
      var k :| 0 <= k < |ws[1..]| && ws[1..][k].path == q;
      assert ws[k + 1].path == q;
    }
    forall q | q in PathsOf(ws)
      ensures q in {ws[0].path} + PathsOf(ws[1..])
    {
      var k :| 0 <= k < |ws| && ws[k].path == q;
      if k > 0 {
        assert ws[1..][k - 1].path == q;
      }
    }
  }

  predicate DistinctPaths(ws: seq<Entry>)
  {
    forall i, j :: 0 <= i < j < |ws| ==> ws[i].path != ws[j].path
  }

  lemma DistinctNotInTail(ws: seq<Entry>)
    requires ws != [] && DistinctPaths(ws)
    ensures ws[0].path !in PathsOf(ws[1..])
  {
    forall k | 0 <= k < |ws[1..]|
      ensures ws[1..][k].path != ws[0].path
    {
      assert ws[1..][k] == ws[k + 1];
    }
  }

  /** Each entry written in its own `try`: a failure is swallowed and the next write still runs. */
  function WriteEach(m: Tree, fail: set<Path>, ws: seq<Entry>): Tree
    decreases |ws|
  {
    if ws == [] then m
    else WriteEach(Written(m, fail, ws[0].path, ws[0].text), fail, ws[1..])
  }

  /** All entries written in one `try`: the first failure skips the rest. */
  function WriteUntilFailure(m: Tree, fail: set<Path>, ws: seq<Entry>): Tree
    decreases |ws|
  {
    if ws == [] then m
    else if CanWrite(m, fail, ws[0].path) then
      WriteUntilFailure(m[ws[0].path := File(ws[0].text)], fail, ws[1..])
    else m
  }

  /** A write never turns a path into or out of a directory, and touches no other path. */
  lemma WrittenFrame(m: Tree, fail: set<Path>, p: Path, text: string)
    ensures var r := Written(m, fail, p, text);
      && (forall q :: IsDir(r, q) <==> IsDir(m, q))
      && (forall q :: q in m ==> q in r)
      && (forall q :: q != p ==> (q in r <==> q in m) && (q in m ==> r[q] == m[q]))
  {
  }

  /** Writes in separate `try` blocks only add files at their own paths and keep every directory. */
  lemma {:induction false} WriteEachFrame(m: Tree, fail: set<Path>, ws: seq<Entry>)
    ensures var r := WriteEach(m, fail, ws);
      && (forall q :: IsDir(r, q) <==> IsDir(m, q))
      && (forall q :: q in m ==> q in r)
      && (forall q :: q !in PathsOf(ws) ==> (q in r <==> q in m) && (q in m ==> r[q] == m[q]))
    decreases |ws|
  {
    if ws != [] {
      var m' := Written(m, fail, ws[0].path, ws[0].text);
      WrittenFrame(m, fail, ws[0].path, ws[0].text);
      WriteEachFrame(m', fail, ws[1..]);
      PathsOfTail(ws);
    }
  }

  /**
   * In a sequence of separately guarded writes to distinct paths, entry `k` is
   * written whenever its own write can succeed in the starting tree, whatever
   * happens to the others.
   */
  lemma {:induction false} WriteEachHit(m: Tree, fail: set<Path>, ws: seq<Entry>, k: nat)
    requires DistinctPaths(ws) && k < |ws|
    requires CanWrite(m, fail, ws[k].path)
    ensures ws[k].path in WriteEach(m, fail, ws)
    ensures WriteEach(m, fail, ws)[ws[k].path] == File(ws[k].text)
    decreases |ws|
  {
    var m' := Written(m, fail, ws[0].path, ws[0].text);
    WrittenFrame(m, fail, ws[0].path, ws[0].text);
    if k == 0 {
      WriteEachFrame(m', fail, ws[1..]);
      DistinctNotInTail(ws);
    } else {
      assert ws[1..][k - 1] == ws[k];
      assert CanWrite(m', fail, ws[k].path);
      WriteEachHit(m', fail, ws[1..], k - 1);
    }
  }

  /** Writes in one `try` block only add files at their own paths and keep every directory. */
  lemma {:induction false} WriteUntilFailureFrame(m: Tree, fail: set<Path>, ws: seq<Entry>)
    ensures var r := WriteUntilFailure(m, fail, ws);
      && (forall q :: IsDir(r, q) <==> IsDir(m, q))
      && (forall q :: q in m ==> q in r)
      && (forall q :: q !in PathsOf(ws) ==> (q in r <==> q in m) && (q in m ==> r[q] == m[q]))
    decreases |ws|
  {
    if ws != [] && CanWrite(m, fail, ws[0].path) {
      var m' := m[ws[0].path := File(ws[0].text)];
      WriteUntilFailureFrame(m', fail, ws[1..]);
      PathsOfTail(ws);
    }
  }

  /**
   * In one `try` block, a write that cannot succeed, whether it is refused
   * itself or its directory is missing, leaves that path and every later one as
   * they were.
   */
  lemma {:induction false} WriteUntilFailureSkips(m: Tree, fail: set<Path>, ws: seq<Entry>, k: nat)
    requires DistinctPaths(ws) && k < |ws|
    requires !CanWrite(m, fail, ws[k].path)
    ensures forall j :: k <= j < |ws| ==>
              var r := WriteUntilFailure(m, fail, ws);
              (ws[j].path in r <==> ws[j].path in m) && (ws[j].path in m ==> r[ws[j].path] == m[ws[j].path])
    decreases |ws|
  {
    if k == 0 {
      assert !CanWrite(m, fail, ws[0].path);
    } else if CanWrite(m, fail, ws[0].path) {
      var m' := m[ws[0].path := File(ws[0].text)];
      assert ws[1..][k - 1] == ws[k];
      assert forall x :: IsDir(m', x) <==> IsDir(m, x);
      assert !CanWrite(m', fail, ws[k].path);
      WriteUntilFailureSkips(m', fail, ws[1..], k - 1);
      forall j | k <= j < |ws|
        ensures ws[j].path != ws[0].path && ws[1..][j - 1] == ws[j]
      {
      }
    }
  }

  /**
   * In one `try` block, when every write can succeed in the tree as it then
   * stands, all entries are written.
   */
  lemma {:induction false} WriteUntilFailureAll(m: Tree, fail: set<Path>, ws: seq<Entry>)
    requires DistinctPaths(ws)
    requires forall k :: 0 <= k < |ws| ==> CanWrite(m, fail, ws[k].path)
    ensures forall k :: 0 <= k < |ws| ==>
              ws[k].path in WriteUntilFailure(m, fail, ws) &&
              WriteUntilFailure(m, fail, ws)[ws[k].path] == File(ws[k].text)
    decreases |ws|
  {
    if ws != [] {
      var m' := m[ws[0].path := File(ws[0].text)];
      forall k | 0 <= k < |ws[1..]|
        ensures CanWrite(m', fail, ws[1..][k].path)
      {
        assert ws[1..][k] == ws[k + 1];
        assert CanWrite(m, fail, ws[k + 1].path);
      }
      WriteUntilFailureAll(m', fail, ws[1..]);
      WriteUntilFailureFrame(m', fail, ws[1..]);
      DistinctNotInTail(ws);
      forall k | 0 <= k < |ws|
        ensures ws[k].path in WriteUntilFailure(m, fail, ws)
        ensures WriteUntilFailure(m, fail, ws)[ws[k].path] == File(ws[k].text)
      {
        if k > 0 {
          assert ws[1..][k - 1] == ws[k];
        }
      }
    }
  }

  /** Separately guarded writes keep the tree well formed. */
  lemma {:induction false} WriteEachWellFormed(m: Tree, fail: set<Path>, ws: seq<Entry>)
    requires WellFormed(m)
    ensures WellFormed(WriteEach(m, fail, ws))
    decreases |ws|
  {
    if ws != [] {
      WrittenWellFormed(m, fail, ws[0].path, ws[0].text);
      WriteEachWellFormed(Written(m, fail, ws[0].path, ws[0].text), fail, ws[1..]);
    }
  }

  /** Writes sharing one `try` keep the tree well formed. */
  lemma {:induction false} WriteUntilFailureWellFormed(m: Tree, fail: set<Path>, ws: seq<Entry>)
    requires WellFormed(m)
    ensures WellFormed(WriteUntilFailure(m, fail, ws))
    decreases |ws|
  {
    if ws != [] && CanWrite(m, fail, ws[0].path) {
      WrittenWellFormed(m, fail, ws[0].path, ws[0].text);
      WriteUntilFailureWellFormed(m[ws[0].path := File(ws[0].text)], fail, ws[1..]);
    }
  }

  /** The disk itself, whose entries the generator creates and deletes in place. */
  class Disk {
    var nodes: Tree
    /** Paths whose creation (by `mkdirs` or a write) fails. */
    const failWrite: set<Path>
    /** Paths whose deletion fails. */
    const failDelete: set<Path>

    predicate Valid()
      reads this
    {
      WellFormed(nodes)
    }

    constructor (initial: Tree, failWrite: set<Path>, failDelete: set<Path>)
      requires WellFormed(initial)
      ensures Valid()
      ensures nodes == initial && this.failWrite == failWrite && this.failDelete == failDelete
    {
      nodes := initial;
      this.failWrite := failWrite;
      this.failDelete := failDelete;
    }

    /**
     * `new FileWriter(p).write(text)`, or `Files.write` once `Paths.get` has
     * accepted `p`: reports whether the write happened.
     */
    method Write(p: Path, text: string) returns (ok: bool)
      requires Valid()
      modifies this
      ensures Valid()
      ensures ok == CanWrite(old(nodes), failWrite, p)
      ensures nodes == Written(old(nodes), failWrite, p, text)
    {
      WrittenWellFormed(nodes, failWrite, p, text);
      ok := p != "" && ValidPath(p) && p !in failWrite && !(p in nodes && nodes[p].Dir?) &&
            (Parent(p) == "" || (Parent(p) in nodes && nodes[Parent(p)].Dir?));
      if ok {
        nodes := nodes[p := File(text)];
      }
    }

    /** `new File(p).mkdirs()`: walks from the topmost ancestor down to `p`. */
    method MkDirs(p: Path)
      requires Valid()
      modifies this
      ensures Valid()
      ensures nodes == MkDirsResult(old(nodes), failWrite, p)
    {
      MkDirsWellFormed(nodes, failWrite, p);
      if !ValidPath(p) {
        return;
      }
      var i := 1;
      var stopped := false;
      while i <= |p| && !stopped
        invariant 1 <= i <= |p| + 1
        invariant !stopped ==> MkDirsFrom(nodes, failWrite, p, i) == MkDirsResult(old(nodes), failWrite, p)
        invariant stopped ==> nodes == MkDirsResult(old(nodes), failWrite, p)
        decreases |p| + 1 - i
      {
        if i == |p| || p[i] == '/' {
          var q := p[..i];
          if q in nodes {
            stopped := nodes[q].File?;
          } else if q in failWrite {
            stopped := true;
          } else {
            nodes := nodes[q := Dir];
          }
        }
        i := i + 1;
      }
    }

    /** `listFiles()`: the direct entries of a directory, or null (`None`) for anything else. */
    method ListFiles(d: Path) returns (children: Option<set<Path>>)
      ensures children == if IsDir(nodes, d) then Some(Children(nodes, d)) else None
    {
      if d in nodes && nodes[d].Dir? {
        children := Some(set c | c in nodes.Keys && Parent(c) == d);
      } else {
        children := None;
      }
    }

    /** `delete()`: removes a file or an empty directory, and reports whether it did. */
    method Delete(p: Path) returns (ok: bool)
      requires Valid()
      modifies this
      ensures Valid()
      ensures ok == (p in old(nodes) && p !in failDelete && !HasChild(old(nodes), p))
      ensures nodes == if ok then old(nodes) - {p} else old(nodes)
    {
      var busy := exists c | c in nodes.Keys :: Parent(c) == p;
      ok := p in nodes && p !in failDelete && !busy;
      if ok {
        var m := nodes - {p};
        forall x | x in m
          ensures ParentIsDir(m, x) && ValidPath(x)
        {
          assert ParentIsDir(nodes, x) && ValidPath(x);
        }
        nodes := m;
      }
    }
  }
}
