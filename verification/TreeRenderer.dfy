/** `renderTree` as it runs: index the spans, sort the children, mark once which subtrees are notable, then print. */
module TreeRenderer {
  import opened RunPaths
  import opened InspectTree

  function KidsIn(children: map<Path, seq<Span>>, p: Path): seq<Span> {
    if p in children then children[p] else []
  }

  class TreeView {
    var byPath: map<Path, Span>
    var children: map<Path, seq<Span>>
    var notable: map<Path, bool>
    var out: seq<Line>

    /** The indexes describe `spans`, children sorted. */
    ghost predicate Indexed(spans: seq<Span>)
      reads this`byPath, this`children
    {
      && (forall p :: p in byPath <==> HasPath(spans, p))
      && (forall p :: p in byPath ==> byPath[p] in spans && byPath[p].path == p)
      && (forall p :: KidsIn(children, p) == Kids(spans, p))
    }

    /** What the memo says is true. */
    ghost predicate Memo(spans: seq<Span>)
      reads this`notable
    {
      forall p :: p in notable ==> HasPath(spans, p) && (notable[p] <==> NotableUnder(spans, p))
    }

    /** The memo covers the subtree of `p`. */
    ghost predicate Covers(spans: seq<Span>, p: Path)
      reads this`notable
    {
      CoversWith(notable.Keys, spans, p)
    }

    constructor (spans: seq<Span>)
      requires Projected(spans)
      ensures Indexed(spans) && notable == map[] && out == []
    {
      byPath, children, notable, out := map[], map[], map[], [];
      new;
      Index(spans);
      SortChildren(spans);
    }

    lemma KnowsPaths(spans: seq<Span>)
      requires Indexed(spans)
      ensures "" in byPath <==> HasPath(spans, "")
    {
    }

    method Index(spans: seq<Span>)
      requires Projected(spans) && byPath == map[] && children == map[]
      modifies this`byPath, this`children
      ensures forall p :: p in byPath <==> HasPath(spans, p)
      ensures forall p :: p in byPath ==> byPath[p] in spans && byPath[p].path == p
      ensures forall p :: KidsIn(children, p) == ChildrenOf(spans, p)
    {
      for i := 0 to |spans|
        invariant forall p :: p in byPath <==> HasPath(spans[..i], p)
        invariant forall p :: p in byPath ==> byPath[p] in spans[..i] && byPath[p].path == p
        invariant forall p :: KidsIn(children, p) == ChildrenOf(spans[..i], p)
      {
        var s := spans[i];
        HasPathSnoc(spans[..i], s);
        ChildrenSnoc(spans[..i], s);
        assert spans[..i + 1] == spans[..i] + [s];
        byPath := byPath[s.path := s];
        if s.path != "" {
          children := children[s.parentPath := KidsIn(children, s.parentPath) + [s]];
        }
      }
      assert spans[..|spans|] == spans;
    }

    method SortChildren(ghost spans: seq<Span>)
      requires forall p :: KidsIn(children, p) == ChildrenOf(spans, p)
      modifies this`children
      ensures forall p :: KidsIn(children, p) == Kids(spans, p)
    {
      var todo := children.Keys;
      while todo != {}
        invariant todo <= children.Keys
        invariant forall p :: KidsIn(children, p) == if p in todo then ChildrenOf(spans, p) else Kids(spans, p)
        decreases |todo|
      {
        var p :| p in todo;
        children := children[p := SortByPath(children[p])];
        todo := todo - {p};
      }
    }

    /** Marks the subtree of `path`; the memo then holds, for every span there, whether its subtree has something notable. */
    method MarkNotable(path: Path, ghost spans: seq<Span>) returns (any: bool)
      requires Projected(spans) && Indexed(spans) && HasPath(spans, path) && Memo(spans)
      modifies this`notable
      ensures Memo(spans) && Covers(spans, path) && old(notable).Keys <= notable.Keys
      ensures any <==> NotableUnder(spans, path)
      decreases Longest(spans) - |path|
    {
      hide Projected, NotableUnder, Longest, Kids, AllCoveredWith, Depth, AtOrBelow;
      var s := byPath[path];
      AreKidsOf(spans, path);
      var below := MarkAll(path, KidsIn(children, path), spans);
      any := Notable(s) || below;
      MarkedUnder(spans, s);
      ghost var marked := notable.Keys;
      notable := notable[path := any];
      CoveredByKids(marked, spans, path);
    }

    /** The loop over the children. */
    method MarkAll(ghost path: Path, kids: seq<Span>, ghost spans: seq<Span>) returns (any: bool)
      requires Projected(spans) && Indexed(spans) && AreKids(spans, kids, path) && Memo(spans)
      modifies this`notable
      ensures Memo(spans) && AllCovered(spans, kids) && old(notable).Keys <= notable.Keys
      ensures any <==> SomeNotable(spans, kids)
      decreases Longest(spans) - |path|, 0
    {
      hide Projected, NotableUnder, Longest, Kids, Indexed, Memo, SomeNotable, AllCoveredWith, Depth, AtOrBelow;
      any := false;
      NoKids(spans);
      for i := 0 to |kids|
        invariant Memo(spans) && old(notable).Keys <= notable.Keys
        invariant any <==> SomeNotable(spans, kids[..i])
        invariant AllCovered(spans, kids[..i])
      {
        var c := kids[i];
        KidIsLonger(spans, path, c);
        ghost var marked := notable.Keys;
        var below := MarkNotable(c.path, spans);
        if below {
          any := true;
        }
        assert kids[..i + 1] == kids[..i] + [c];
        SomeNotableSnoc(spans, kids[..i], c);
        CoveredStill(marked, spans, kids[..i], c);
      }
      assert kids[..|kids|] == kids;
    }

    ghost predicate AllCovered(spans: seq<Span>, kids: seq<Span>)
      reads this`notable
    {
      AllCoveredWith(notable.Keys, spans, kids)
    }

    lemma NoKids(spans: seq<Span>)
      ensures AllCovered(spans, []) && !SomeNotable(spans, [])
    {
    }

    /** What was covered stays covered when the memo grows. */
    lemma CoveredStill(marked: set<Path>, spans: seq<Span>, kids: seq<Span>, c: Span)
      requires marked <= notable.Keys && Covers(spans, c.path)
      requires AllCoveredWith(marked, spans, kids)
      ensures AllCovered(spans, kids + [c])
    {
    }

    /** Once the memo covers the subtrees of all children and the path itself, it covers the subtree of the path. */
    lemma CoveredByKids(marked: set<Path>, spans: seq<Span>, path: Path)
      requires Projected(spans) && path in notable && marked <= notable.Keys
      requires AllCoveredWith(marked, spans, Kids(spans, path))
      ensures Covers(spans, path)
    {
      forall q | HasPath(spans, q) && AtOrBelow(q, path) ensures q in notable {
        if q != path {
          var kid := KidToward(spans, SpanAt(spans, q), path);
          assert q in marked;
        }
      }
    }

    lemma Marked(spans: seq<Span>, p: Path)
      requires Covers(spans, "") && HasPath(spans, p)
      ensures p in notable
    {
      AllBelowRoot(p);
    }

    method SubtreeNotableBelow(path: Path, ghost spans: seq<Span>) returns (found: bool)
      requires Projected(spans) && Indexed(spans) && Memo(spans) && Covers(spans, "")
      ensures found <==> NotableBelow(spans, path)
    {
      hide Projected, NotableUnder, NotableBelow, Longest, Kids, CoversWith, HasPath, Depth, AtOrBelow, SomeNotable;
      NoKids(spans);
      NotableBelowIsUnderAKid(spans, path);
      AreKidsOf(spans, path);
      var kids := KidsIn(children, path);
      for i := 0 to |kids|
        invariant !SomeNotable(spans, kids[..i])
      {
        var c := kids[i];
        KidIsLonger(spans, path, c);
        Marked(spans, c.path);
        if c.path in notable && notable[c.path] {
          HoldsNotable(spans, kids, i);
          return true;
        }
        assert kids[..i + 1] == kids[..i] + [c];
        SomeNotableSnoc(spans, kids[..i], c);
      }
      assert kids[..|kids|] == kids;
      return false;
    }

    /** Prints the subtree of `path`. */
    method Render(path: Path, depth: nat, o: Options, ghost spans: seq<Span>)
      requires Projected(spans) && Indexed(spans) && Memo(spans) && Covers(spans, "")
      requires HasPath(spans, path) && depth == Depth(path)
      modifies this`out
      ensures out == old(out) + View(spans, o, path)
      decreases Longest(spans) - |path|
    {
      hide Projected, NotableUnder, NotableBelow, Longest, Kids, Memo, Covers, ViewAll;
      var s := byPath[path];
      SameSpan(spans, s);
      out := out + [Row(depth, s)];
      if o.maxDepth >= 0 && depth >= o.maxDepth {
        return;
      }
      var kids := KidsIn(children, path);
      AreKidsOf(spans, path);
      var below := SubtreeNotableBelow(path, spans);
      if depth > 0 && NodeStatusToken(s) in o.fold && !below {
        if |kids| > 0 {
          out := out + [Collapsed(depth + 1, |kids|)];
        }
        return;
      }
      RenderAll(path, kids, depth + 1, o, spans);
    }

    /** The loop over the children. */
    method RenderAll(ghost path: Path, kids: seq<Span>, depth: nat, o: Options, ghost spans: seq<Span>)
      requires Projected(spans) && Indexed(spans) && Memo(spans) && Covers(spans, "")
      requires HasPath(spans, path) && depth == Depth(path) + 1 && AreKids(spans, kids, path)
      modifies this`out
      ensures out == old(out) + ViewAll(spans, o, path, kids)
      decreases Longest(spans) - |path|, 0
    {
      hide Projected, NotableUnder, NotableBelow, Longest, Kids, Memo, Covers, Indexed, View, Depth, AtOrBelow, HasPath;
      for i := 0 to |kids|
        invariant out == old(out) + ViewAll(spans, o, path, kids[..i])
      {
        var c := kids[i];
        KidIsLonger(spans, path, c);
        Render(c.path, depth, o, spans);
        assert kids[..i + 1][..i] == kids[..i];
      }
      assert kids[..|kids|] == kids;
    }
  }

  ghost predicate CoversWith(marked: set<Path>, spans: seq<Span>, p: Path) {
    forall q :: HasPath(spans, q) && AtOrBelow(q, p) ==> q in marked
  }

  ghost predicate AllCoveredWith(marked: set<Path>, spans: seq<Span>, kids: seq<Span>) {
    forall k :: k in kids ==> CoversWith(marked, spans, k.path)
  }

  lemma SameSpan(spans: seq<Span>, s: Span)
    requires Projected(spans) && s in spans
    ensures HasPath(spans, s.path) && SpanAt(spans, s.path) == s
  {
    OneSpanPerPath(spans, s, SpanAt(spans, s.path));
  }

  lemma AreKidsOf(spans: seq<Span>, p: Path)
    requires Projected(spans)
    ensures AreKids(spans, Kids(spans, p), p)
  {
    KidsAre(spans, p);
  }

  lemma HoldsNotable(spans: seq<Span>, kids: seq<Span>, i: nat)
    requires i < |kids| && NotableUnder(spans, kids[i].path)
    ensures SomeNotable(spans, kids)
  {
    hide NotableUnder;
    assert kids[i] in kids;
  }

  lemma SomeNotableSnoc(spans: seq<Span>, kids: seq<Span>, k: Span)
    ensures SomeNotable(spans, kids + [k]) <==> SomeNotable(spans, kids) || NotableUnder(spans, k.path)
  {
    assert k in kids + [k];
  }

  lemma HasPathSnoc(spans: seq<Span>, s: Span)
    ensures forall p :: HasPath(spans + [s], p) <==> HasPath(spans, p) || p == s.path
  {
    assert s in spans + [s];
  }

  lemma ChildrenSnoc(spans: seq<Span>, s: Span)
    ensures forall p :: ChildrenOf(spans + [s], p) == ChildrenOf(spans, p) + if s.path != "" && s.parentPath == p then [s] else []
  {
    assert (spans + [s])[..|spans|] == spans;
  }

  /** A subtree has something notable exactly when its root is notable or the subtree of a child has. */
  lemma MarkedUnder(spans: seq<Span>, s: Span)
    requires Projected(spans) && s in spans
    ensures NotableUnder(spans, s.path) <==> Notable(s) || SomeNotable(spans, Kids(spans, s.path))
  {
    NotableBelowIsUnderAKid(spans, s.path);
    if t :| t in spans && AtOrBelow(t.path, s.path) && Notable(t) {
      if t.path == s.path {
        OneSpanPerPath(spans, s, t);
      } else {
        assert Below(t.path, s.path);
      }
    }
    if NotableBelow(spans, s.path) {
      var t :| t in spans && Below(t.path, s.path) && Notable(t);
      assert AtOrBelow(t.path, s.path);
    }
  }

  /** The whole command: nothing without a run span, else exactly the view from the root. */
  method RenderTree(spans: seq<Span>, o: Options) returns (lines: seq<Line>)
    requires Projected(spans)
    ensures lines == if HasPath(spans, "") then View(spans, o, "") else []
  {
    hide Projected, View, HasPath, CoversWith, NotableUnder;
    var view := new TreeView(spans);
    view.KnowsPaths(spans);
    if "" in view.byPath {
      var any := view.MarkNotable("", spans);
      view.Render("", 0, o, spans);
    }
    return view.out;
  }
}
