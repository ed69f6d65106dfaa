/**
 * What `deleteDirectory` does to the disk. The walk lists a directory, deletes
 * each entry's subtree, then deletes the directory itself; `delete` refuses a
 * directory that still has entries. So an entry survives exactly when it, or
 * something below it, refuses to be deleted: the result does not depend on the
 * order in which `listFiles` returns the entries.
 */
module Removal {
  import opened Paths
  import opened FileSystem

  /** Some entry at or below `q` refuses deletion, so `q` can never be emptied and deleted. */
  predicate Pinned(m: Tree, fail: set<Path>, q: Path)
  {
    exists f :: f in m && f in fail && InSubtree(f, q)
  }

  /** `deleteDirectory(d)` removes `q`: it is `d` or below it, and nothing pins it. */
  predicate Removed(m: Tree, fail: set<Path>, d: Path, q: Path)
  {
    d != "" && InSubtree(q, d) && !Pinned(m, fail, q)
  }

  /** The tree after `deleteDirectory(d)`. */
  function DeleteResult(m: Tree, fail: set<Path>, d: Path): Tree
  {
    map q | q in m && !Removed(m, fail, d, q) :: m[q]
  }

  /** The tree after `deleteDirectory` has run on each path of `cs`, as the walk over a listing does. */
  function DeleteAll(m: Tree, fail: set<Path>, cs: set<Path>): Tree
  {
    map q | q in m && !(exists c :: c in cs && Removed(m, fail, c, q)) :: m[q]
  }

  // ---------------------------------------------------------------------------
  // Properties of the result

  /**
   * `deleteDirectory` only removes entries, only at or below `d`, and changes no
   * entry it keeps.
   */
  lemma DeleteResultFrame(m: Tree, fail: set<Path>, d: Path)
    ensures var r := DeleteResult(m, fail, d);
      && (forall q :: q in r ==> q in m && r[q] == m[q])
      && (forall q :: q in m && !InSubtree(q, d) ==> q in r)
  {
  }

  /**
   * When nothing at or below a non-root `d` refuses deletion, the whole subtree
   * goes and everything else stays.
   */
  lemma DeleteResultClean(m: Tree, fail: set<Path>, d: Path)
    requires d != ""
    requires forall q :: q in m && InSubtree(q, d) ==> q !in fail
    ensures DeleteResult(m, fail, d) == map q | q in m && !InSubtree(q, d) :: m[q]
  {
    forall q | q in m && InSubtree(q, d)
      ensures !Pinned(m, fail, q)
    {
      forall f | f in m && InSubtree(f, q)
        ensures f !in fail
      {
        SubtreeTrans(f, q, d);
      }
    }
  }

  /** Post-order: an entry is removed only together with everything below it. */
  lemma DeleteResultPostOrder(m: Tree, fail: set<Path>, d: Path, q: Path, x: Path)
    requires q in m && q !in DeleteResult(m, fail, d)
    requires x in m && InSubtree(x, q)
    ensures x !in DeleteResult(m, fail, d)
  {
    SubtreeTrans(x, q, d);
    forall f | f in m && InSubtree(f, x)
      ensures !(f in fail)
    {
      SubtreeTrans(f, x, q);
    }
  }

  /**
   * Every entry at or below `d` that survives refused deletion itself or is a
   * directory that still has an entry: the two ways `delete` fails.
   */
  lemma DeleteResultSurvivors(m: Tree, fail: set<Path>, d: Path, q: Path)
    requires WellFormed(m) && d != ""
    requires q in DeleteResult(m, fail, d) && InSubtree(q, d)
    ensures q in fail || HasChild(DeleteResult(m, fail, d), q)
  {
    var r := DeleteResult(m, fail, d);
    var f :| f in m && f in fail && InSubtree(f, q);
    if f != q {
      assert q != "";
      var c := FirstLevel(f, q);
      if c != f {
        AncestorIsDir(m, f, |c|);
        assert f[..|c|] == c;
      }
      assert c in m && InSubtree(f, c);
      assert Pinned(m, fail, c);
      assert c in r;
    }
  }

  /** Deleting keeps the tree well formed: the parent of a surviving entry survives. */
  lemma DeleteResultWellFormed(m: Tree, fail: set<Path>, d: Path)
    requires WellFormed(m)
    ensures WellFormed(DeleteResult(m, fail, d))
  {
    var r := DeleteResult(m, fail, d);
    forall x | x in r
      ensures ParentIsDir(r, x)
    {
      assert ParentIsDir(m, x);
      var p := Parent(x);
      if p != "" && d != "" && InSubtree(p, d) {
        ChildIsUnder(x, p);
        SubtreeTrans(x, p, d);
        var f :| f in m && f in fail && InSubtree(f, x);
        SubtreeTrans(f, x, p);
        assert p in r;
      }
    }
  }

  // ---------------------------------------------------------------------------
  // The walk, one step at a time

  lemma DeleteAllEmpty(m: Tree, fail: set<Path>)
    ensures DeleteAll(m, fail, {}) == m
  {
  }

  /** Whether `q` is pinned depends only on the entries at or below `q`. */
  lemma PinnedLocal(m: Tree, t: Tree, fail: set<Path>, q: Path)
    requires forall f :: InSubtree(f, q) ==> (f in m <==> f in t)
    ensures Pinned(m, fail, q) <==> Pinned(t, fail, q)
  {
    if Pinned(m, fail, q) {
      var f :| f in m && f in fail && InSubtree(f, q);
      assert f in t;
    }
    if Pinned(t, fail, q) {
      var f :| f in t && f in fail && InSubtree(f, q);
      assert f in m;
    }
  }

  /** Deleting the subtrees of some children of `d` leaves the subtree of every other child untouched. */
  lemma DeleteAllSibling(m: Tree, fail: set<Path>, d: Path, done: set<Path>, c: Path, q: Path)
    requires d != "" && Parent(c) == d && c !in done
    requires forall x :: x in done ==> Parent(x) == d
    requires InSubtree(q, c)
    ensures q in DeleteAll(m, fail, done) <==> q in m
  {
    forall x | x in done
      ensures !Removed(m, fail, x, q)
    {
      SiblingsDisjoint(c, x, d, q);
    }
  }

  /**
   * One turn of the walk: after the subtrees of the children in `done`, deleting
   * the subtree of one more child `c` is the same as deleting all of them at once
   * from the starting tree.
   */
  lemma DeleteStep(m: Tree, fail: set<Path>, d: Path, done: set<Path>, c: Path)
    requires d != "" && Parent(c) == d && c !in done
    requires forall x :: x in done ==> Parent(x) == d
    ensures DeleteResult(DeleteAll(m, fail, done), fail, c) == DeleteAll(m, fail, done + {c})
  {
    var t := DeleteAll(m, fail, done);
    var lhs := DeleteResult(t, fail, c);
    var rhs := DeleteAll(m, fail, done + {c});
    forall q | InSubtree(q, c)
      ensures (q in t <==> q in m) && (Pinned(t, fail, q) <==> Pinned(m, fail, q))
    {
      DeleteAllSibling(m, fail, d, done, c, q);
      forall f | InSubtree(f, q)
        ensures f in m <==> f in t
      {
        SubtreeTrans(f, q, c);
        DeleteAllSibling(m, fail, d, done, c, f);
      }
      PinnedLocal(m, t, fail, q);
    }
    assert c != "";
    forall q | q in m
      ensures q in lhs <==> q in rhs
    {
      if InSubtree(q, c) {
        assert Removed(t, fail, c, q) <==> Removed(m, fail, c, q);
      }
    }
    assert lhs.Keys == rhs.Keys;
  }

  /** A subtree's entries are a subset, so its size is no larger. */
  lemma SubsetSize(a: set<Path>, b: set<Path>)
    requires a <= b
    ensures |a| <= |b|
  {
    assert b == a + (b - a);
  }

  /**
   * The walk terminates: while it works on the children of `d`, the subtree
   * below a child is smaller than the subtree of `d` was at the start.
   */
  lemma SubtreeShrinks(m: Tree, t: Tree, d: Path, c: Path)
    requires t.Keys <= m.Keys && d in m && d != "" && Parent(c) == d
    ensures |Subtree(t, c)| < |Subtree(m, d)|
  {
    forall q | q in Subtree(t, c)
      ensures q in Subtree(m, d) - {d}
    {
      UnderChild(q, c, d);
    }
    SubsetSize(Subtree(t, c), Subtree(m, d) - {d});
  }

  /** In a well-formed tree, an entry below a non-root `d` lies in the subtree of a child of `d` that exists. */
  lemma BelowChild(m: Tree, d: Path, q: Path) returns (c: Path)
    requires WellFormed(m) && d != "" && q in m && IsUnder(q, d)
    ensures c in m && Parent(c) == d && InSubtree(q, c)
  {
    c := FirstLevel(q, d);
    if c != q {
      AncestorIsDir(m, q, |c|);
    }
  }

  /** After the walk over the children of `d`, an entry below `d` is left exactly when it is pinned. */
  lemma DeleteAllBelow(m: Tree, fail: set<Path>, d: Path, q: Path)
    requires WellFormed(m) && d != "" && q in m && IsUnder(q, d)
    ensures q in DeleteAll(m, fail, Children(m, d)) <==> Pinned(m, fail, q)
  {
    var c := BelowChild(m, d, q);
    assert c != "";
    forall x | x in Children(m, d) && InSubtree(q, x)
      ensures x == c
    {
      if x != c {
        SiblingsDisjoint(c, x, d, q);
      }
    }
    assert c in Children(m, d);
  }

  /** The walk over the children of `d` leaves `d` and everything outside its subtree. */
  lemma DeleteAllAbove(m: Tree, fail: set<Path>, d: Path, q: Path)
    requires d != "" && q in m && !IsUnder(q, d)
    ensures q in DeleteAll(m, fail, Children(m, d))
  {
    forall x | x in Children(m, d)
      ensures !InSubtree(q, x)
    {
      if InSubtree(q, x) {
        UnderChild(q, x, d);
      }
    }
  }

  /** A non-root directory is pinned exactly when it refuses deletion itself or one of its children is pinned. */
  lemma PinnedDir(m: Tree, fail: set<Path>, d: Path)
    requires WellFormed(m) && d != "" && d in m
    ensures Pinned(m, fail, d) <==>
              d in fail || exists c :: c in m && Parent(c) == d && Pinned(m, fail, c)
  {
    if Pinned(m, fail, d) {
      var f :| f in m && f in fail && InSubtree(f, d);
      if f != d {
        var c := BelowChild(m, d, f);
        assert Pinned(m, fail, c);
      }
    }
    forall c | c in m && Parent(c) == d && Pinned(m, fail, c)
      ensures Pinned(m, fail, d)
    {
      var f :| f in m && f in fail && InSubtree(f, c);
      ChildIsUnder(c, d);
      SubtreeTrans(f, c, d);
    }
  }

  /** After the walk over its children, `delete` on a directory succeeds exactly when it is not pinned. */
  lemma DeleteSucceedsIffUnpinned(m: Tree, fail: set<Path>, d: Path)
    requires WellFormed(m) && IsDir(m, d)
    ensures var t := DeleteAll(m, fail, Children(m, d));
      d in t && ((d !in fail && !HasChild(t, d)) <==> !Pinned(m, fail, d))
  {
    var t := DeleteAll(m, fail, Children(m, d));
    DeleteAllAbove(m, fail, d, d);
    PinnedDir(m, fail, d);
    if HasChild(t, d) {
      var c :| c in t && Parent(c) == d;
      ChildIsUnder(c, d);
      DeleteAllBelow(m, fail, d, c);
    }
    if Pinned(m, fail, d) && d !in fail {
      var c :| c in m && Parent(c) == d && Pinned(m, fail, c);
      ChildIsUnder(c, d);
      DeleteAllBelow(m, fail, d, c);
      assert c in t;
    }
  }

  /**
   * The last step on a directory: once its children's subtrees are walked,
   * `delete` on it leaves exactly `DeleteResult`.
   */
  lemma FinishDir(m: Tree, fail: set<Path>, d: Path)
    requires WellFormed(m) && IsDir(m, d)
    ensures var t := DeleteAll(m, fail, Children(m, d));
      d in t &&
      (if d !in fail && !HasChild(t, d) then t - {d} else t) == DeleteResult(m, fail, d)
  {
    var t := DeleteAll(m, fail, Children(m, d));
    var r := DeleteResult(m, fail, d);
    DeleteSucceedsIffUnpinned(m, fail, d);
    var lhs := if d !in fail && !HasChild(t, d) then t - {d} else t;
    assert d in lhs <==> Pinned(m, fail, d);
    forall q | q in m && q != d
      ensures q in lhs <==> q in r
    {
      if IsUnder(q, d) {
        DeleteAllBelow(m, fail, d, q);
      } else {
        DeleteAllAbove(m, fail, d, q);
      }
    }
    assert lhs.Keys == r.Keys;
  }

  /**
   * The walk on anything but a directory: `listFiles` gives nothing, and
   * `delete` alone gives `DeleteResult`.
   */
  lemma FinishNotDir(m: Tree, fail: set<Path>, d: Path)
    requires WellFormed(m) && !IsDir(m, d)
    ensures (if d in m && d !in fail && !HasChild(m, d) then m - {d} else m) == DeleteResult(m, fail, d)
  {
    var r := DeleteResult(m, fail, d);
    forall q | q in m && d != ""
      ensures !IsUnder(q, d)
    {
      if IsUnder(q, d) {
        AncestorIsDir(m, q, |d|);
      }
    }
    if d in m && d !in fail {
      forall c | c in m
        ensures Parent(c) != d
      {
        assert ParentIsDir(m, c);
      }
    }
    assert d in m ==> (Pinned(m, fail, d) <==> d in fail);
  }
}
