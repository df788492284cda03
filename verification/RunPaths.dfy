/** Node addresses within a run: the parent of a path, what lies at or below a path, and the order in which a tree of paths
    is listed (parents first, siblings by path). */
module RunPaths {

  type Path = string

  /** The path with its final '.'-segment trimmed; the root "" for a top-level node. */
  function ParentPath(path: Path): (r: Path)
    ensures path != "" ==> |r| < |path|
    ensures r <= path
  {
    if path == "" then ""
    else
      var front := path[..|path| - 1];
      if path[|path| - 1] == '.' then front else ParentPath(front)
  }

  /** Trimming undoes joining, for every segment that has no dot of its own. */
  lemma {:induction false} ParentOfJoin(parent: Path, segment: string)
    requires '.' !in segment
    ensures ParentPath(parent + "." + segment) == parent
  {
    var path := parent + "." + segment;
    var front := path[..|path| - 1];
    if segment == "" {
      assert front == parent;
    } else {
      var last := segment[|segment| - 1];
      assert last in segment;
      assert path[|path| - 1] == last;
      assert front == parent + "." + segment[..|segment| - 1];
      ParentOfJoin(parent, segment[..|segment| - 1]);
    }
  }

  /** A path of one segment stands right under the root. */
  lemma {:induction false} ParentOfSegment(segment: string)
    requires '.' !in segment
    ensures ParentPath(segment) == ""
  {
    if segment != "" {
      assert segment[|segment| - 1] in segment;
      ParentOfSegment(segment[..|segment| - 1]);
    }
  }

  /** How many steps a path is away from the root. */
  function Depth(path: Path): nat
    decreases |path|
  {
    if path == "" then 0 else 1 + Depth(ParentPath(path))
  }

  /** Depth counts segments: 0 for the root, 1 for a single segment, one more for each segment joined. */
  lemma DepthCountsSegments(parent: Path, segment: string)
    requires '.' !in segment
    ensures Depth("") == 0
    ensures segment != "" ==> Depth(segment) == 1
    ensures Depth(parent + "." + segment) == Depth(parent) + 1
  {
    ParentOfSegment(segment);
    ParentOfJoin(parent, segment);
  }

  /** `q` lies in the subtree of `p`. */
  predicate AtOrBelow(q: Path, p: Path)
    decreases |q|
  {
    q == p || (q != "" && AtOrBelow(ParentPath(q), p))
  }

  predicate Below(q: Path, p: Path) {
    q != "" && AtOrBelow(ParentPath(q), p)
  }

  lemma {:induction false} BelowIsDeeper(q: Path, p: Path)
    requires AtOrBelow(q, p)
    ensures Depth(p) <= Depth(q)
    ensures q != p ==> Depth(p) < Depth(q)
    decreases |q|
  {
    if q != p {
      BelowIsDeeper(ParentPath(q), p);
    }
  }

  lemma {:induction false} BelowIsTransitive(r: Path, q: Path, p: Path)
    requires AtOrBelow(r, q) && AtOrBelow(q, p)
    ensures AtOrBelow(r, p)
    decreases |r|
  {
    if r != q {
      BelowIsTransitive(ParentPath(r), q, p);
    }
  }

  lemma {:induction false} AllBelowRoot(q: Path)
    ensures AtOrBelow(q, "")
    decreases |q|
  {
    if q != "" {
      AllBelowRoot(ParentPath(q));
    }
  }

  /** Two ancestors of one path that are equally deep are the same. */
  lemma {:induction false} AncestorAtDepth(q: Path, a: Path, b: Path)
    requires AtOrBelow(q, a) && AtOrBelow(q, b) && Depth(a) == Depth(b)
    ensures a == b
    decreases |q|
  {
    if q == a {
      if q != b {
        BelowIsDeeper(q, b);
      }
    } else if q == b {
      BelowIsDeeper(q, a);
    } else {
      AncestorAtDepth(ParentPath(q), a, b);
    }
  }

  /** The child of `p` on the way down to `q`. */
  function ChildToward(q: Path, p: Path): (c: Path)
    requires Below(q, p)
    ensures c != "" && ParentPath(c) == p && AtOrBelow(q, c)
    decreases |q|
  {
    if ParentPath(q) == p then q else ChildToward(ParentPath(q), p)
  }

  /** Byte order of paths. */
  predicate Before(a: Path, b: Path) {
    b != "" && (a == "" || a[0] < b[0] || (a[0] == b[0] && Before(a[1..], b[1..])))
  }

  /** A path comes before another if it is a proper prefix of it, or has the smaller byte where they first differ. */
  lemma {:induction false} BeforeIff(a: Path, b: Path)
    ensures Before(a, b) <==> a < b || exists k :: SmallerAt(a, b, k)
  {
    if a != "" && b != "" {
      var x, y := a[1..], b[1..];
      BeforeIff(x, y);
      assert a == [a[0]] + x && b == [b[0]] + y;
      if a[0] == b[0] {
        SmallerLater(a, b);
        assert a < b <==> x < y;
      } else if a[0] < b[0] {
        assert SmallerAt(a, b, 0);
      }
    }
  }

  ghost predicate SmallerAt(a: Path, b: Path, k: int) {
    0 <= k < |a| && k < |b| && a[..k] == b[..k] && a[k] < b[k]
  }

  lemma SmallerLater(a: Path, b: Path)
    requires a != "" && b != "" && a[0] == b[0]
    ensures (exists k :: SmallerAt(a, b, k)) <==> (exists k :: SmallerAt(a[1..], b[1..], k))
  {
    var x, y := a[1..], b[1..];
    if k :| SmallerAt(a, b, k) {
      assert a[..k][1..] == x[..k - 1] && b[..k][1..] == y[..k - 1];
      assert SmallerAt(x, y, k - 1);
    }
    if k :| SmallerAt(x, y, k) {
      assert a[..k + 1] == [a[0]] + x[..k] && b[..k + 1] == [b[0]] + y[..k];
      assert SmallerAt(a, b, k + 1);
    }
  }

  lemma {:induction false} BeforeIsTotal(a: Path, b: Path)
    ensures a == b || Before(a, b) || Before(b, a)
    ensures !(Before(a, b) && Before(b, a))
    ensures !Before(a, a)
  {
    if a != "" && b != "" {
      BeforeIsTotal(a[1..], b[1..]);
      BeforeIsTotal(a[1..], a[1..]);
      assert a == [a[0]] + a[1..] && b == [b[0]] + b[1..];
    } else if a != "" {
      BeforeIsTotal(a[1..], a[1..]);
    }
  }

  lemma {:induction false} BeforeIsTransitive(a: Path, b: Path, c: Path)
    requires Before(a, b) && Before(b, c)
    ensures Before(a, c)
  {
    if a != "" && a[0] == b[0] == c[0] {
      BeforeIsTransitive(a[1..], b[1..], c[1..]);
    }
  }

  /** Some pair of siblings separates `a` from `b`, the earlier one leading to `a`. */
  ghost predicate Parted(a: Path, b: Path) {
    exists c, d :: AtOrBelow(a, c) && AtOrBelow(b, d) && Siblings(c, d) && Before(c, d)
  }

  ghost predicate Siblings(c: Path, d: Path) {
    c != "" && d != "" && ParentPath(c) == ParentPath(d)
  }

  /** Sibling-sorted preorder: an ancestor precedes its descendants, and of two siblings the one with the smaller path precedes,
      with all that lies below it. */
  ghost predicate Precedes(a: Path, b: Path) {
    Below(b, a) || Parted(a, b)
  }

  /** Siblings that lie above a common path are the same. */
  lemma SiblingsAbove(q: Path, c: Path, d: Path)
    requires Siblings(c, d) && AtOrBelow(q, c) && AtOrBelow(q, d)
    ensures c == d
  {
    assert Depth(c) == Depth(d);
    AncestorAtDepth(q, c, d);
  }

  /** A sibling pair separating two paths is the only one. */
  lemma OnePartingPair(a: Path, b: Path, c: Path, d: Path, c': Path, d': Path)
    requires AtOrBelow(a, c) && AtOrBelow(b, d) && Siblings(c, d) && c != d
    requires AtOrBelow(a, c') && AtOrBelow(b, d') && Siblings(c', d') && c' != d'
    ensures c == c' && d == d'
  {
    if Depth(c) == Depth(c') {
      AncestorAtDepth(a, c, c');
      AncestorAtDepth(b, d, d');
    } else if Depth(c) < Depth(c') {
      ShallowerPairMeets(a, b, c, d, c', d');
    } else {
      ShallowerPairMeets(a, b, c', d', c, d);
    }
  }

  lemma ShallowerPairMeets(a: Path, b: Path, c: Path, d: Path, c': Path, d': Path)
    requires AtOrBelow(a, c) && AtOrBelow(b, d) && Siblings(c, d)
    requires AtOrBelow(a, c') && AtOrBelow(b, d') && Siblings(c', d')
    requires Depth(c) < Depth(c')
    ensures c == d
  {
    var p := ParentPath(c');
    AncestorAbove(a, c, c');
    AncestorAbove(b, d, d');
    assert AtOrBelow(p, c) && AtOrBelow(p, d);
    SiblingsAbove(p, c, d);
  }

  /** Of two ancestors of one path, the shallower lies above the deeper one's parent. */
  lemma {:induction false} AncestorAbove(q: Path, a: Path, b: Path)
    requires AtOrBelow(q, a) && AtOrBelow(q, b) && Depth(a) < Depth(b)
    ensures Below(b, a)
    decreases |q|
  {
    if q == b {
    } else if q == a {
      BelowIsDeeper(q, b);
    } else {
      AncestorAbove(ParentPath(q), a, b);
    }
  }

  /** The order is total and strict, so a sequence that ascends in it holds nothing twice and is fixed by its elements. */
  lemma PrecedesIsStrict(a: Path, b: Path)
    requires Precedes(a, b)
    ensures a != b && !Precedes(b, a)
  {
    if Below(b, a) {
      BelowIsDeeper(ParentPath(b), a);
      if Below(a, b) {
        BelowIsDeeper(ParentPath(a), b);
      }
      if Parted(b, a) {
        NotPartedFromBelow(b, a);
      }
    } else {
      if Below(a, b) {
        NotPartedFromBelow(a, b);
      }
      var c, d :| AtOrBelow(a, c) && AtOrBelow(b, d) && Siblings(c, d) && Before(c, d);
      BeforeIsTotal(c, d);
      if a == b {
        SiblingsAbove(a, c, d);
      }
      if Parted(b, a) {
        var d', c' :| AtOrBelow(b, d') && AtOrBelow(a, c') && Siblings(d', c') && Before(d', c');
        BeforeIsTotal(d', c');
        OnePartingPair(a, b, c, d, c', d');
      }
    }
  }

  lemma NotPartedFromBelow(b: Path, a: Path)
    requires AtOrBelow(b, a)
    ensures !Parted(b, a)
  {
    if Parted(b, a) {
      var c, d :| AtOrBelow(b, c) && AtOrBelow(a, d) && Siblings(c, d) && Before(c, d);
      BelowIsTransitive(b, a, d);
      SiblingsAbove(b, c, d);
      BeforeIsTotal(c, d);
    }
  }

  lemma PrecedesIsTotal(a: Path, b: Path)
    ensures a == b || Precedes(a, b) || Precedes(b, a)
  {
    AllBelowRoot(a);
    AllBelowRoot(b);
    Compare(a, b, "");
  }

  /** Two paths below `p` compare: follow the way down to both until the ways part. */
  lemma {:induction false} Compare(a: Path, b: Path, p: Path)
    requires AtOrBelow(a, p) && AtOrBelow(b, p)
    ensures a == b || Precedes(a, b) || Precedes(b, a)
    decreases Depth(a) - Depth(p)
  {
    if a != p && b != p {
      var c, d := ChildToward(a, p), ChildToward(b, p);
      BelowIsDeeper(a, c);
      BeforeIsTotal(c, d);
      if c == d {
        Compare(a, b, c);
      }
    }
  }
}
