/**
 * Path strings as the generator builds them: plain concatenations joined by '/'.
 * The empty path stands for the root (the directory every relative or absolute
 * path hangs from); it is never itself a file or directory of the tree.
 */
module Paths {

  type Path = string

  /** `dir + "/" + name`, the way every generated path is assembled. */
  function Join(dir: Path, name: string): Path
  {
    dir + "/" + name
  }

  /** Index of the last '/' in `s`, or -1 when there is none. */
  function SlashIndex(s: string): (r: int)
    ensures -1 <= r < |s|
    ensures r >= 0 ==> s[r] == '/'
    ensures forall k :: r < k < |s| ==> s[k] != '/'
  {
    if |s| == 0 then -1
    else if s[|s| - 1] == '/' then |s| - 1
    else SlashIndex(s[..|s| - 1])
  }

  /** The directory holding `p`: everything before its last '/', or the root. */
  function Parent(p: Path): (r: Path)
    ensures |r| < |p| || (p == "" && r == "")
    ensures r != "" ==> |r| < |p| && r == p[..|r|] && p[|r|] == '/' &&
                        forall k :: |r| < k < |p| ==> p[k] != '/'
  {
    var k := SlashIndex(p);
    if k <= 0 then "" else p[..k]
  }

  /**
   * Position `i` of `p` ends one of the directories that `mkdirs` walks through:
   * just before a '/', or at the end of `p`. Position 0 (the root) is excluded.
   */
  predicate IsCutAt(p: Path, i: int)
  {
    0 < i <= |p| && (i == |p| || p[i] == '/')
  }

  /** `p` and every proper ancestor of `p` other than the root. */
  function Cuts(p: Path): set<Path>
  {
    set i | 0 < i <= |p| && IsCutAt(p, i) :: p[..i]
  }

  /** `q` lies strictly below the directory `d`. */
  predicate IsUnder(q: Path, d: Path)
  {
    |d| < |q| && q[..|d|] == d && q[|d|] == '/'
  }

  /** `q` is `d` itself or lies below it. */
  predicate InSubtree(q: Path, d: Path)
  {
    q == d || IsUnder(q, d)
  }

  /**
   * A path the platform can name. Characters here are Unicode scalar values.
   * On Unix, `java.io.File` refuses exactly the paths that hold a NUL
   * character; for such strings `Paths.get` refuses exactly those too when the
   * platform's path encoding maps every character, as UTF-8 does.
   */
  predicate ValidPath(p: Path)
  {
    forall k :: 0 <= k < |p| ==> p[k] != '\0'
  }

  /** `dir/name` can be named exactly when both parts can. */
  lemma ValidJoin(dir: Path, name: string)
    ensures ValidPath(Join(dir, name)) <==> ValidPath(dir) && ValidPath(name)
  {
    var p := Join(dir, name);
    assert forall k :: 0 <= k < |dir| ==> p[k] == dir[k];
    assert forall k :: 0 <= k < |name| ==> p[|dir| + 1 + k] == name[k];
    if ValidPath(dir) && ValidPath(name) {
      forall k | 0 <= k < |p|
        ensures p[k] != '\0'
      {
        if |dir| < k {
          assert p[k] == name[k - |dir| - 1];
        }
      }
    }
  }

  /** Every ancestor `mkdirs` walks through on the way to a path that can be named can be named too. */
  lemma ValidCut(p: Path, q: Path)
    requires ValidPath(p) && q in Cuts(p)
    ensures ValidPath(q)
  {
    CutShape(p, q);
    assert forall k :: 0 <= k < |q| ==> q[k] == p[k];
  }

  /** A path below one that cannot be named cannot be named either. */
  lemma InvalidBelow(q: Path, d: Path)
    requires InSubtree(q, d) && !ValidPath(d)
    ensures !ValidPath(q)
  {
    var k :| 0 <= k < |d| && d[k] == '\0';
    assert q[..|d|] == d;
    assert q[k] == '\0';
  }

  /** A list of pairwise different paths names as many paths as it is long. */
  lemma {:induction false} DistinctCount(ps: seq<Path>)
    requires forall i, j :: 0 <= i < j < |ps| ==> ps[i] != ps[j]
    ensures |set k | 0 <= k < |ps| :: ps[k]| == |ps|
    decreases |ps|
  {
    var s := set k | 0 <= k < |ps| :: ps[k];
    if ps == [] {
      assert s == {};
    } else {
      var t := set k | 0 <= k < |ps[1..]| :: ps[1..][k];
      assert s == {ps[0]} + t by {
        forall q | q in s ensures q in {ps[0]} + t {
          var k :| 0 <= k < |ps| && ps[k] == q;
          if k > 0 { assert ps[1..][k - 1] == q; }
        }
        forall q | q in t ensures q in s {
          var k :| 0 <= k < |ps[1..]| && ps[1..][k] == q;
          assert ps[k + 1] == q;
        }
      }
      assert ps[0] !in t;
      DistinctCount(ps[1..]);
    }
  }

  /** The parent of `dir/name` is `dir` whenever `name` holds no '/'. */
  lemma ParentOfJoin(dir: Path, name: string)
    requires '/' !in name
    ensures Parent(Join(dir, name)) == dir
  {
    var p := Join(dir, name);
    assert p[|dir|] == '/';
    assert forall k :: |dir| < k < |p| ==> p[k] == name[k - |dir| - 1];
    assert forall k :: |dir| < k < |p| ==> p[k] in name;
    assert SlashIndex(p) == |dir|;
  }

  /** The parent of `dir + tail` is `dir` when `tail` is '/' followed by a name without '/'. */
  lemma ParentOfTail(dir: Path, tail: string)
    requires |tail| > 0 && tail[0] == '/'
    requires forall k :: 0 < k < |tail| ==> tail[k] != '/'
    ensures Parent(dir + tail) == dir
  {
    var p := dir + tail;
    assert p[|dir|] == '/';
    assert forall k :: |dir| < k < |p| ==> p[k] == tail[k - |dir|];
    assert SlashIndex(p) == |dir|;
  }

  /** Every member of `Cuts(p)` is a non-empty prefix of `p` cut just before a '/' or at its end. */
  lemma CutShape(p: Path, q: Path)
    requires q in Cuts(p)
    ensures 0 < |q| <= |p| && q == p[..|q|] && IsCutAt(p, |q|)
  {
  }

  /**
   * The cuts of a path below `pp` are the cuts of `pp` itself (its ancestors and
   * `pp`) and paths strictly below `pp`.
   */
  lemma CutsOfJoin(pp: Path, rest: string, q: Path)
    requires q in Cuts(Join(pp, rest))
    ensures q in Cuts(pp) || IsUnder(q, pp)
  {
    var p := Join(pp, rest);
    var i := |q|;
    CutShape(p, q);
    if i < |pp| {
      assert p[..i] == pp[..i];
      assert IsCutAt(pp, i);
    } else if i == |pp| {
      assert q == pp;
      assert IsCutAt(pp, |pp|) && pp[..|pp|] == pp;
    } else {
      assert q[..|pp|] == pp;
    }
  }

  /** A non-empty `pp` is itself one of the cuts of any path joined below it. */
  lemma JoinHasCut(pp: Path, rest: string)
    requires pp != ""
    ensures pp in Cuts(Join(pp, rest))
  {
    var p := Join(pp, rest);
    assert IsCutAt(p, |pp|) && p[..|pp|] == pp;
  }

  /** A child `c` of a non-root directory `d` lies below `d`. */
  lemma ChildIsUnder(c: Path, d: Path)
    requires d != "" && Parent(c) == d
    ensures IsUnder(c, d)
  {
  }

  /** Everything in the subtree of a child of `d` lies strictly below `d`. */
  lemma UnderChild(q: Path, c: Path, d: Path)
    requires d != "" && Parent(c) == d && InSubtree(q, c)
    ensures IsUnder(q, d)
  {
    ChildIsUnder(c, d);
    if q != c {
      assert q[..|c|] == c;
      assert q[..|d|] == c[..|d|];
    }
  }

  /** The subtrees of two different children of one directory do not overlap. */
  lemma SiblingsDisjoint(c1: Path, c2: Path, d: Path, q: Path)
    requires d != "" && Parent(c1) == d && Parent(c2) == d && c1 != c2
    ensures !(InSubtree(q, c1) && InSubtree(q, c2))
  {
    ChildIsUnder(c1, d);
    ChildIsUnder(c2, d);
    SharedSubtree(q, c1, c2);
    SharedSubtree(q, c2, c1);
  }

  /** Two directories whose subtrees share a path are nested, the shorter one first. */
  lemma SharedSubtree(q: Path, a: Path, b: Path)
    ensures InSubtree(q, a) && InSubtree(q, b) && |a| <= |b| ==>
              b[..|a|] == a && (|a| < |b| ==> b[|a|] == '/')
  {
    if InSubtree(q, a) && InSubtree(q, b) && |a| <= |b| {
      assert q[..|a|] == a && q[..|b|] == b;
      assert b[..|a|] == q[..|a|];
    }
  }

  /** Being in a subtree is transitive. */
  lemma SubtreeTrans(a: Path, b: Path, c: Path)
    requires InSubtree(a, b) && InSubtree(b, c)
    ensures InSubtree(a, c)
  {
    if a != b && b != c {
      assert a[..|c|] == a[..|b|][..|c|];
    }
  }

  /**
   * A path strictly below a non-root `d` lies in the subtree of exactly the child
   * of `d` that its first component after `d` names.
   */
  lemma FirstLevel(q: Path, d: Path) returns (c: Path)
    requires d != "" && IsUnder(q, d)
    ensures Parent(c) == d && InSubtree(q, c) && |c| <= |q| && c == q[..|c|]
    ensures c == q || q[|c|] == '/'
  {
    var k := |d| + 1;
    while k < |q| && q[k] != '/'
      invariant |d| < k <= |q|
      invariant forall j :: |d| < j < k ==> q[j] != '/'
    {
      k := k + 1;
    }
    c := q[..k];
    assert c[|d|] == '/';
    assert SlashIndex(c) == |d|;
    if k < |q| {
      assert q[..|c|] == c;
    }
  }
}
