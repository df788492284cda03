/** Which spans the inspect tree shows, in which order, and where it says that it left some out. */
module InspectLaws {
  import opened RunPaths
  import opened InspectTree

  /** Rendering does not go past `p`. */
  ghost predicate Stops(spans: seq<Span>, o: Options, p: Path)
    requires HasPath(spans, p)
  {
    DepthReached(o, p) || Folded(spans, o, p)
  }

  /** Nothing on the way from `p` down to `q` stops the rendering. */
  ghost predicate Open(spans: seq<Span>, o: Options, q: Path, p: Path)
    requires Projected(spans) && HasPath(spans, q)
    decreases |q|
  {
    q == p || (q != "" && ParentPresent(spans, q) && !Stops(spans, o, ParentPath(q)) && Open(spans, o, ParentPath(q), p))
  }

  ghost predicate ParentPresent(spans: seq<Span>, q: Path) {
    HasPath(spans, ParentPath(q))
  }

  lemma ParentIsPresent(spans: seq<Span>, q: Path)
    requires Projected(spans) && HasPath(spans, q) && q != ""
    ensures ParentPresent(spans, q)
  {
    var s := SpanAt(spans, q);
  }

  /** The first step down decides for `p`, the rest for the child. */
  lemma {:induction false} OpenSplits(spans: seq<Span>, o: Options, q: Path, p: Path)
    requires Projected(spans) && HasPath(spans, q) && HasPath(spans, p) && Below(q, p)
    ensures Open(spans, o, q, p) <==> !Stops(spans, o, p) && Open(spans, o, q, ChildToward(q, p))
    decreases |q|
  {
    ParentIsPresent(spans, q);
    var up := ParentPath(q);
    BelowIsDeeper(up, p);
    var c := ChildToward(q, p);
    if up != p {
      OpenSplits(spans, o, up, p);
      BelowIsDeeper(up, c);
    }
  }

  lemma {:induction false} OpenIsBelow(spans: seq<Span>, o: Options, q: Path, p: Path)
    requires Projected(spans) && HasPath(spans, q) && Open(spans, o, q, p)
    ensures AtOrBelow(q, p)
    decreases |q|
  {
    if q != p {
      OpenIsBelow(spans, o, ParentPath(q), p);
    }
  }

  // ----- membership -----

  ghost predicate Shown(spans: seq<Span>, o: Options, q: Path, p: Path)
    requires Projected(spans)
  {
    HasPath(spans, q) && Open(spans, o, q, p)
  }

  ghost predicate ShownUnderSome(spans: seq<Span>, o: Options, q: Path, kids: seq<Span>)
    requires Projected(spans)
  {
    exists k :: k in kids && Shown(spans, o, q, k.path)
  }

  lemma {:induction false} ViewShows(spans: seq<Span>, o: Options, p: Path, q: Path)
    requires Projected(spans) && HasPath(spans, p)
    ensures q in RowPaths(View(spans, o, p)) <==> Shown(spans, o, q, p)
    decreases Longest(spans) - |p|, |Kids(spans, p)| + 1
  {
    var kids := Kids(spans, p);
    KidsAre(spans, p);
    ViewRows(spans, o, p);
    if !Stops(spans, o, p) {
      ViewAllShows(spans, o, p, kids, q);
    }
    if q != p {
      ShownThroughKids(spans, o, p, q);
    }
  }

  /** The rows of a subtree: its root, then the rows below unless rendering stops here. */
  lemma ViewRows(spans: seq<Span>, o: Options, p: Path)
    requires Projected(spans) && HasPath(spans, p) && AreKids(spans, Kids(spans, p), p)
    ensures RowPaths(View(spans, o, p)) ==
      [p] + if Stops(spans, o, p) then [] else RowPaths(ViewAll(spans, o, p, Kids(spans, p)))
  {
    hide Projected, Folded;
    var row := Row(Depth(p), SpanAt(spans, p));
    if DepthReached(o, p) {
      RowAndRest(row, []);
    } else if Folded(spans, o, p) {
      RowAndRest(row, []);
      RowAndRest(row, [Collapsed(Depth(p) + 1, |Kids(spans, p)|)]);
    } else {
      RowAndRest(row, ViewAll(spans, o, p, Kids(spans, p)));
    }
  }

  lemma RowAndRest(row: Line, rest: seq<Line>)
    requires row.Row?
    ensures RowPaths([row] + rest) == [row.span.path] + RowPaths(rest)
    ensures |rest| == 1 && rest[0].Collapsed? ==> RowPaths(rest) == []
  {
    RowPathsConcat([row], rest);
    assert RowPaths([row][..0]) == [];
    if |rest| == 1 {
      assert RowPaths(rest[..0]) == [];
    }
  }

  lemma ShownThroughKids(spans: seq<Span>, o: Options, p: Path, q: Path)
    requires Projected(spans) && HasPath(spans, p) && q != p
    ensures Shown(spans, o, q, p) <==> !Stops(spans, o, p) && ShownUnderSome(spans, o, q, Kids(spans, p))
  {
    KidsAre(spans, p);
    if Shown(spans, o, q, p) {
      OpenIsBelow(spans, o, q, p);
      OpenSplits(spans, o, q, p);
      var kid := KidToward(spans, SpanAt(spans, q), p);
      assert Shown(spans, o, q, kid.path);
    }
    if !Stops(spans, o, p) && ShownUnderSome(spans, o, q, Kids(spans, p)) {
      var k :| k in Kids(spans, p) && Shown(spans, o, q, k.path);
      OpenIsBelow(spans, o, q, k.path);
      ChildDescends(q, k.path, p);
      SiblingsAbove(q, k.path, ChildToward(q, p));
      OpenSplits(spans, o, q, p);
    }
  }

  lemma {:induction false} ViewAllShows(spans: seq<Span>, o: Options, p: Path, kids: seq<Span>, q: Path)
    requires Projected(spans) && HasPath(spans, p) && AreKids(spans, kids, p)
    ensures q in RowPaths(ViewAll(spans, o, p, kids)) <==> ShownUnderSome(spans, o, q, kids)
    decreases Longest(spans) - |p|, |kids|
  {
    hide Projected, Shown, View, Longest, Kids, Depth, AtOrBelow;
    if kids != [] {
      var front, last := kids[..|kids| - 1], kids[|kids| - 1];
      KidIsLonger(spans, p, last);
      ViewAllShows(spans, o, p, front, q);
      ViewShows(spans, o, last.path, q);
      RowPathsConcat(ViewAll(spans, o, p, front), View(spans, o, last.path));
      SnocMember(RowPaths(ViewAll(spans, o, p, front)), RowPaths(View(spans, o, last.path)), q);
      ShownSnoc(spans, o, q, front, last);
      assert kids == front + [last];
    }
  }

  lemma SnocMember(a: seq<Path>, b: seq<Path>, q: Path)
    ensures q in a + b <==> q in a || q in b
  {
  }

  lemma ShownSnoc(spans: seq<Span>, o: Options, q: Path, kids: seq<Span>, k: Span)
    requires Projected(spans)
    ensures ShownUnderSome(spans, o, q, kids + [k]) <==> ShownUnderSome(spans, o, q, kids) || Shown(spans, o, q, k.path)
  {
    hide Shown;
    assert k in kids + [k];
  }

  // ----- order -----

  ghost predicate InOrder(rows: seq<Path>) {
    forall i, j :: 0 <= i < j < |rows| ==> Precedes(rows[i], rows[j])
  }

  lemma InOrderConcat(a: seq<Path>, b: seq<Path>)
    requires InOrder(a) && InOrder(b) && forall x, y :: x in a && y in b ==> Precedes(x, y)
    ensures InOrder(a + b)
  {
  }

  lemma {:induction false} ViewInOrder(spans: seq<Span>, o: Options, p: Path)
    requires Projected(spans) && HasPath(spans, p)
    ensures InOrder(RowPaths(View(spans, o, p)))
    decreases Longest(spans) - |p|, |Kids(spans, p)| + 1
  {
    var kids := Kids(spans, p);
    KidsAre(spans, p);
    ViewRows(spans, o, p);
    if !Stops(spans, o, p) {
      ViewAllInOrder(spans, o, p, kids);
      var rows := RowPaths(ViewAll(spans, o, p, kids));
      forall x, y | x in [p] && y in rows ensures Precedes(x, y) {
        ViewAllShows(spans, o, p, kids, y);
        var k := ShowingKid(spans, o, kids, y);
        ChildDescends(y, k.path, p);
      }
      InOrderConcat([p], rows);
    }
  }

  lemma ShowingKid(spans: seq<Span>, o: Options, kids: seq<Span>, y: Path) returns (k: Span)
    requires Projected(spans) && ShownUnderSome(spans, o, y, kids)
    ensures k in kids && AtOrBelow(y, k.path)
  {
    k :| k in kids && Shown(spans, o, y, k.path);
    OpenIsBelow(spans, o, y, k.path);
  }

  lemma {:induction false} ViewAllInOrder(spans: seq<Span>, o: Options, p: Path, kids: seq<Span>)
    requires Projected(spans) && HasPath(spans, p) && AreKids(spans, kids, p) && Ascending(kids)
    ensures InOrder(RowPaths(ViewAll(spans, o, p, kids)))
    decreases Longest(spans) - |p|, |kids|
  {
    if kids != [] {
      var front, last := kids[..|kids| - 1], kids[|kids| - 1];
      ViewAllInOrder(spans, o, p, front);
      ViewInOrder(spans, o, last.path);
      var a, b := RowPaths(ViewAll(spans, o, p, front)), RowPaths(View(spans, o, last.path));
      forall x, y | x in a && y in b ensures Precedes(x, y) {
        ViewAllShows(spans, o, p, front, x);
        ViewShows(spans, o, last.path, y);
        var k := ShowingKid(spans, o, front, x);
        OpenIsBelow(spans, o, y, last.path);
        assert Siblings(k.path, last.path) && Before(k.path, last.path);
      }
      InOrderConcat(a, b);
      RowPathsConcat(ViewAll(spans, o, p, front), View(spans, o, last.path));
    }
  }

  // ----- the whole tree -----

  /** Sibling-sorted preorder, every span at most once. */
  lemma TreeIsInPreorder(spans: seq<Span>, o: Options, i: nat, j: nat)
    requires Projected(spans) && HasPath(spans, "") && i < j < |RowPaths(View(spans, o, ""))|
    ensures var rows := RowPaths(View(spans, o, ""));
      Precedes(rows[i], rows[j]) && !Precedes(rows[j], rows[i]) && rows[i] != rows[j]
  {
    ViewInOrder(spans, o, "");
    var rows := RowPaths(View(spans, o, ""));
    PrecedesIsStrict(rows[i], rows[j]);
  }

  /** A span is printed exactly when rendering stops at none of its proper ancestors. */
  lemma TreeShowsIff(spans: seq<Span>, o: Options, q: Path)
    requires Projected(spans) && HasPath(spans, "")
    ensures q in RowPaths(View(spans, o, "")) <==>
      HasPath(spans, q) && forall a :: Below(q, a) && HasPath(spans, a) ==> !Stops(spans, o, a)
  {
    ViewShows(spans, o, "", q);
    if HasPath(spans, q) {
      OpenFromRoot(spans, o, q);
    }
  }

  lemma {:induction false} OpenFromRoot(spans: seq<Span>, o: Options, q: Path)
    requires Projected(spans) && HasPath(spans, q)
    ensures Open(spans, o, q, "") <==> forall a :: Below(q, a) && HasPath(spans, a) ==> !Stops(spans, o, a)
    decreases |q|
  {
    if q != "" {
      var up := ParentPath(q);
      ParentIsPresent(spans, q);
      OpenFromRoot(spans, o, up);
      assert forall a :: Below(q, a) <==> a == up || Below(up, a);
    }
  }

  /** With unlimited depth, every notable span is printed, whatever the fold set, and so is every ancestor of one. */
  lemma NotableIsShown(spans: seq<Span>, o: Options, q: Path)
    requires Projected(spans) && HasPath(spans, "") && o.maxDepth < 0
    requires HasPath(spans, q) && NotableUnder(spans, q)
    ensures q in RowPaths(View(spans, o, ""))
  {
    hide View, RowPaths, Projected;
    TreeShowsIff(spans, o, q);
    forall a | Below(q, a) && HasPath(spans, a) ensures !Stops(spans, o, a) {
      NotableKeepsOpen(spans, o, q, a);
    }
  }

  lemma NotableKeepsOpen(spans: seq<Span>, o: Options, q: Path, a: Path)
    requires o.maxDepth < 0 && NotableUnder(spans, q) && Below(q, a) && HasPath(spans, a)
    ensures !Stops(spans, o, a)
  {
    hide AtOrBelow, Depth;
    var s :| s in spans && AtOrBelow(s.path, q) && Notable(s);
    ProperlyBelow(s.path, q, a);
  }

  lemma {:induction false} ProperlyBelow(r: Path, q: Path, a: Path)
    requires AtOrBelow(r, q) && Below(q, a)
    ensures Below(r, a)
    decreases |r|
  {
    if r != q {
      ProperlyBelow(ParentPath(r), q, a);
    }
  }

  /** The same with the reasons spelled out: an error, a step still pending, or one of four outcomes, anywhere below. */
  lemma TroubleIsShown(spans: seq<Span>, o: Options, s: Span, q: Path)
    requires Projected(spans) && HasPath(spans, "") && o.maxDepth < 0
    requires s in spans && AtOrBelow(s.path, q)
    requires s.status == StatusError || s.pending
      || s.outcome in {"rejected", "retryable_failure", "permanent_failure", "incomplete"}
    ensures q in RowPaths(View(spans, o, ""))
  {
    assert Notable(s);
    hide Projected, View, Notable;
    assert HasPath(spans, s.path);
    AncestorsPresent(spans, s.path, q);
    NotableIsShown(spans, o, q);
  }

  /** The fold set names the status of this span: "incomplete" while it is pending, else its outcome, else "failed" after
      an error, else "ok". */
  ghost predicate NamedIn(s: Span, fold: set<string>) {
    || (s.pending && "incomplete" in fold)
    || (!s.pending && s.outcome != "" && s.outcome in fold)
    || (!s.pending && s.outcome == "" && s.status == StatusError && "failed" in fold)
    || (!s.pending && s.outcome == "" && s.status != StatusError && "ok" in fold)
  }

  /** Nothing to report: no error, not pending, and none of the four outcomes. */
  ghost predicate Uneventful(s: Span) {
    && s.status != StatusError && !s.pending
    && s.outcome != "rejected" && s.outcome != "retryable_failure"
    && s.outcome != "permanent_failure" && s.outcome != "incomplete"
  }

  /** And the converse: what lies below a span other than the root whose status the fold set names, and below which
      everything is uneventful, is not printed. Nothing else is left out. */
  lemma UneventfulIsHiddenIff(spans: seq<Span>, o: Options, q: Path)
    requires Projected(spans) && HasPath(spans, "") && o.maxDepth < 0 && HasPath(spans, q)
    ensures q !in RowPaths(View(spans, o, "")) <==> exists s :: Hides(spans, o.fold, s, q)
  {
    HiddenIff(spans, o, q);
    hide Projected, View, RowPaths, Below, NotableBelow, NodeStatusToken, Hides;
    forall s ensures Hides(spans, o.fold, s, q) <==>
      s in spans && s.path != "" && Below(q, s.path) && NodeStatusToken(s) in o.fold && !NotableBelow(spans, s.path)
    {
      HidesIff(spans, o.fold, s, q);
    }
  }

  lemma HidesIff(spans: seq<Span>, fold: set<string>, s: Span, q: Path)
    ensures Hides(spans, fold, s, q) <==>
      s in spans && s.path != "" && Below(q, s.path) && NodeStatusToken(s) in fold && !NotableBelow(spans, s.path)
  {
    TokenIsNamed(s, fold);
    QuietBelowIff(spans, s.path);
    hide NamedIn, NodeStatusToken, NotableBelow, Below, Uneventful;
  }

  lemma TokenIsNamed(s: Span, fold: set<string>)
    ensures NodeStatusToken(s) in fold <==> NamedIn(s, fold)
  {
  }

  lemma QuietBelowIff(spans: seq<Span>, p: Path)
    ensures !NotableBelow(spans, p) <==> forall t :: t in spans && Below(t.path, p) ==> Uneventful(t)
  {
    hide Below;
    assert forall t: Span :: Uneventful(t) <==> !Notable(t);
  }

  ghost predicate Hides(spans: seq<Span>, fold: set<string>, s: Span, q: Path) {
    && s in spans && s.path != "" && Below(q, s.path) && NamedIn(s, fold)
    && forall t :: t in spans && Below(t.path, s.path) ==> Uneventful(t)
  }

  /** With nothing to fold, the depth limit alone decides: exactly the spans down to that depth are printed. */
  lemma DepthLimitShows(spans: seq<Span>, o: Options, q: Path)
    requires Projected(spans) && HasPath(spans, "") && o.fold == {} && o.maxDepth >= 0
    ensures q in RowPaths(View(spans, o, "")) <==> HasPath(spans, q) && Depth(q) <= o.maxDepth
  {
    TreeShowsIff(spans, o, q);
    if HasPath(spans, q) {
      hide View, RowPaths;
      forall a | Below(q, a) ensures Depth(a) < Depth(q) {
        BelowIsDeeper(ParentPath(q), a);
      }
      if q != "" {
        ParentIsPresent(spans, q);
        assert Below(q, ParentPath(q));
      }
    }
  }

  /** With unlimited depth, a span is hidden exactly when it lies below a folded ancestor: not the root, its status in the
      fold set, nothing notable beneath it. */
  lemma HiddenIff(spans: seq<Span>, o: Options, q: Path)
    requires Projected(spans) && HasPath(spans, "") && o.maxDepth < 0 && HasPath(spans, q)
    ensures q !in RowPaths(View(spans, o, "")) <==>
      exists s :: s in spans && s.path != "" && Below(q, s.path) && NodeStatusToken(s) in o.fold && !NotableBelow(spans, s.path)
  {
    TreeShowsIff(spans, o, q);
    if a :| Below(q, a) && HasPath(spans, a) && Stops(spans, o, a) {
      var s := SpanAt(spans, a);
      assert s.path != "" && Below(q, s.path);
    }
    if s :| s in spans && s.path != "" && Below(q, s.path) && NodeStatusToken(s) in o.fold && !NotableBelow(spans, s.path) {
      OneSpanPerPath(spans, s, SpanAt(spans, s.path));
      assert Stops(spans, o, s.path);
    }
  }

  // ----- the notes about collapsed children -----

  ghost predicate Elides(spans: seq<Span>, o: Options, p: Path)
    requires HasPath(spans, p)
  {
    !DepthReached(o, p) && Folded(spans, o, p) && Kids(spans, p) != []
  }

  /** A row shows its span at the span's depth; it is followed by a note exactly when its children are folded away, the
      note gives their number, and there are no other notes. */
  ghost predicate Annotated(spans: seq<Span>, o: Options, lines: seq<Line>, i: nat)
    requires i < |lines|
  {
    match lines[i]
    case Row(depth, s) =>
      && s in spans && HasPath(spans, s.path) && depth == Depth(s.path)
      && (Elides(spans, o, s.path) <==> i + 1 < |lines| && lines[i + 1].Collapsed?)
      && (Elides(spans, o, s.path) ==> lines[i + 1] == Collapsed(depth + 1, |Kids(spans, s.path)|))
    case Collapsed(_, _) =>
      i > 0 && lines[i - 1].Row?
  }

  ghost predicate AllAnnotated(spans: seq<Span>, o: Options, lines: seq<Line>) {
    && (lines != [] ==> lines[0].Row?)
    && forall i :: 0 <= i < |lines| ==> Annotated(spans, o, lines, i)
  }

  lemma AnnotatedConcat(spans: seq<Span>, o: Options, a: seq<Line>, b: seq<Line>)
    requires AllAnnotated(spans, o, a) && AllAnnotated(spans, o, b)
    ensures AllAnnotated(spans, o, a + b)
  {
    forall i | 0 <= i < |a + b| ensures Annotated(spans, o, a + b, i) {
      if i < |a| {
        assert Annotated(spans, o, a, i);
      } else {
        assert Annotated(spans, o, b, i - |a|);
      }
    }
  }

  lemma RowAlone(spans: seq<Span>, o: Options, p: Path)
    requires HasPath(spans, p) && !Elides(spans, o, p)
    ensures AllAnnotated(spans, o, [Row(Depth(p), SpanAt(spans, p))])
  {
  }

  lemma RowAndNote(spans: seq<Span>, o: Options, p: Path)
    requires HasPath(spans, p) && Elides(spans, o, p)
    ensures AllAnnotated(spans, o, [Row(Depth(p), SpanAt(spans, p)), Collapsed(Depth(p) + 1, |Kids(spans, p)|)])
  {
  }

  /** Every printed tree is annotated in this way. */
  lemma {:induction false} ViewIsAnnotated(spans: seq<Span>, o: Options, p: Path)
    requires Projected(spans) && HasPath(spans, p)
    ensures AllAnnotated(spans, o, View(spans, o, p))
    decreases Longest(spans) - |p|, |Kids(spans, p)| + 1
  {
    KidsAre(spans, p);
    var row := Row(Depth(p), SpanAt(spans, p));
    hide Projected, Longest, Folded, AllAnnotated, Kids, Depth;
    if !Stops(spans, o, p) {
      var rest := ViewAll(spans, o, p, Kids(spans, p));
      ViewAllIsAnnotated(spans, o, p, Kids(spans, p));
      RowAlone(spans, o, p);
      AnnotatedConcat(spans, o, [row], rest);
    } else if Elides(spans, o, p) {
      var note := Collapsed(Depth(p) + 1, |Kids(spans, p)|);
      assert View(spans, o, p) == [row, note];
      RowAndNote(spans, o, p);
    } else {
      assert View(spans, o, p) == [row];
      RowAlone(spans, o, p);
    }
  }

  lemma {:induction false} ViewAllIsAnnotated(spans: seq<Span>, o: Options, p: Path, kids: seq<Span>)
    requires Projected(spans) && HasPath(spans, p) && AreKids(spans, kids, p)
    ensures AllAnnotated(spans, o, ViewAll(spans, o, p, kids))
    decreases Longest(spans) - |p|, |kids|
  {
    if kids != [] {
      var front, last := kids[..|kids| - 1], kids[|kids| - 1];
      KidIsLonger(spans, p, last);
      ViewAllIsAnnotated(spans, o, p, front);
      ViewIsAnnotated(spans, o, last.path);
      AnnotatedConcat(spans, o, ViewAll(spans, o, p, front), View(spans, o, last.path));
    }
  }
}
