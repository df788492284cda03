/** What `awf inspect` prints: the span tree of a run, folded by status. The lines are defined here by the tree alone; that
    the memoised renderer writes exactly these lines is proved in TreeRenderer. */
module InspectTree {
  import opened RunPaths

  datatype Status = StatusUnset | StatusOk | StatusError

  /** `outcome` is the node-outcome attribute, "" when there is none. */
  datatype Span = Span(path: Path, parentPath: Path, status: Status, pending: bool, outcome: string)

  datatype Options = Options(fold: set<string>, maxDepth: int)

  /** A printed line: a span, or the note that its children are left out. */
  datatype Line = Row(depth: nat, span: Span) | Collapsed(depth: nat, count: nat)

  predicate IsNotableOutcome(s: Span) {
    s.outcome == "rejected" || s.outcome == "retryable_failure" || s.outcome == "permanent_failure" || s.outcome == "incomplete"
  }

  predicate Notable(s: Span) {
    s.status == StatusError || s.pending || IsNotableOutcome(s)
  }

  function NodeStatusToken(s: Span): string {
    if s.pending then "incomplete"
    else if s.outcome != "" then s.outcome
    else if s.status == StatusError then "failed"
    else "ok"
  }

  ghost predicate HasPath(spans: seq<Span>, p: Path) {
    exists s :: s in spans && s.path == p
  }

  ghost predicate UniquePaths(spans: seq<Span>) {
    forall i, j :: 0 <= i < j < |spans| ==> spans[i].path != spans[j].path
  }

  /** What the projection of a log guarantees: one span a path, each under its parent's path, all ancestors present. */
  ghost predicate Projected(spans: seq<Span>) {
    && UniquePaths(spans)
    && forall s :: s in spans && s.path != "" ==> s.parentPath == ParentPath(s.path) && HasPath(spans, s.parentPath)
  }

  ghost function SpanAt(spans: seq<Span>, p: Path): (s: Span)
    requires HasPath(spans, p)
    ensures s in spans && s.path == p
  {
    var s :| s in spans && s.path == p;
    s
  }

  lemma OneSpanPerPath(spans: seq<Span>, s: Span, t: Span)
    requires UniquePaths(spans) && s in spans && t in spans && s.path == t.path
    ensures s == t
  {
  }

  lemma {:induction false} AncestorsPresent(spans: seq<Span>, q: Path, a: Path)
    requires Projected(spans) && HasPath(spans, q) && AtOrBelow(q, a)
    ensures HasPath(spans, a)
    decreases |q|
  {
    if q != a {
      var s := SpanAt(spans, q);
      AncestorsPresent(spans, ParentPath(q), a);
    }
  }

  // ----- children, sorted by path -----

  function ChildrenOf(spans: seq<Span>, p: Path): seq<Span> {
    if spans == [] then []
    else
      var last := spans[|spans| - 1];
      ChildrenOf(spans[..|spans| - 1], p) + if last.path != "" && last.parentPath == p then [last] else []
  }

  function Insert(s: Span, sorted: seq<Span>): seq<Span> {
    if sorted == [] || Before(s.path, sorted[0].path) then [s] + sorted
    else [sorted[0]] + Insert(s, sorted[1..])
  }

  function SortByPath(spans: seq<Span>): seq<Span> {
    if spans == [] then [] else Insert(spans[0], SortByPath(spans[1..]))
  }

  function Kids(spans: seq<Span>, p: Path): seq<Span> {
    SortByPath(ChildrenOf(spans, p))
  }

  ghost predicate Ascending(kids: seq<Span>) {
    forall i, j :: 0 <= i < j < |kids| ==> Before(kids[i].path, kids[j].path)
  }

  lemma {:induction false} InsertKeeps(s: Span, sorted: seq<Span>)
    requires Ascending(sorted) && forall t :: t in sorted ==> t.path != s.path
    ensures Ascending(Insert(s, sorted)) && |Insert(s, sorted)| == |sorted| + 1
    ensures forall t :: t in Insert(s, sorted) <==> t == s || t in sorted
  {
    if sorted != [] {
      var first, rest := sorted[0], sorted[1..];
      BeforeIsTotal(s.path, first.path);
      if Before(s.path, first.path) {
        forall j | 0 <= j < |rest| ensures Before(s.path, rest[j].path) {
          BeforeIsTransitive(s.path, first.path, rest[j].path);
        }
      } else {
        InsertKeeps(s, rest);
        var more := Insert(s, rest);
        forall j | 0 <= j < |more| ensures Before(first.path, more[j].path) {
          assert more[j] in more;
          if more[j] != s {
            var k :| 0 <= k < |rest| && rest[k] == more[j];
            assert sorted[k + 1] == rest[k];
          }
        }
      }
    }
  }

  lemma {:induction false} SortSorts(spans: seq<Span>)
    requires UniquePaths(spans)
    ensures Ascending(SortByPath(spans)) && |SortByPath(spans)| == |spans|
    ensures forall t :: t in SortByPath(spans) <==> t in spans
  {
    if spans != [] {
      SortSorts(spans[1..]);
      forall t | t in SortByPath(spans[1..]) ensures t.path != spans[0].path {
        assert t in spans[1..];
      }
      InsertKeeps(spans[0], SortByPath(spans[1..]));
    }
  }

  lemma {:induction false} ChildrenAre(spans: seq<Span>, p: Path)
    ensures forall t :: t in ChildrenOf(spans, p) <==> t in spans && t.path != "" && t.parentPath == p
    ensures UniquePaths(spans) ==> UniquePaths(ChildrenOf(spans, p))
  {
    if spans != [] {
      var front, last := spans[..|spans| - 1], spans[|spans| - 1];
      ChildrenAre(front, p);
      assert spans == front + [last];
      if UniquePaths(spans) {
        assert UniquePaths(front);
        forall t | t in ChildrenOf(front, p) ensures t.path != last.path {
          assert t in front;
        }
      }
    }
  }

  /** The children of a path: in byte order of their paths, each once, and all of them. */
  lemma KidsAre(spans: seq<Span>, p: Path)
    requires UniquePaths(spans)
    ensures Ascending(Kids(spans, p))
    ensures forall t :: t in Kids(spans, p) <==> t in spans && t.path != "" && t.parentPath == p
  {
    ChildrenAre(spans, p);
    SortSorts(ChildrenOf(spans, p));
  }

  // ----- what is worth expanding -----

  /** Some span in the subtree of `p` is notable. */
  ghost predicate NotableUnder(spans: seq<Span>, p: Path) {
    exists s :: s in spans && AtOrBelow(s.path, p) && Notable(s)
  }

  ghost predicate NotableBelow(spans: seq<Span>, p: Path) {
    exists s :: s in spans && Below(s.path, p) && Notable(s)
  }

  ghost predicate SomeNotable(spans: seq<Span>, kids: seq<Span>) {
    exists k :: k in kids && NotableUnder(spans, k.path)
  }

  lemma KidToward(spans: seq<Span>, s: Span, p: Path) returns (kid: Span)
    requires Projected(spans) && s in spans && Below(s.path, p)
    ensures kid in Kids(spans, p) && AtOrBelow(s.path, kid.path) && kid.path == ChildToward(s.path, p)
  {
    var c := ChildToward(s.path, p);
    AncestorsPresent(spans, s.path, c);
    kid := SpanAt(spans, c);
    KidsAre(spans, p);
  }

  /** Something notable lies strictly below a path exactly when the subtree of one of its children holds it. */
  lemma NotableBelowIsUnderAKid(spans: seq<Span>, p: Path)
    requires Projected(spans)
    ensures NotableBelow(spans, p) <==> SomeNotable(spans, Kids(spans, p))
  {
    KidsAre(spans, p);
    if NotableBelow(spans, p) {
      var s :| s in spans && Below(s.path, p) && Notable(s);
      var kid := KidToward(spans, s, p);
    }
    if k :| k in Kids(spans, p) && NotableUnder(spans, k.path) {
      var s :| s in spans && AtOrBelow(s.path, k.path) && Notable(s);
      ChildDescends(s.path, k.path, p);
    }
  }

  lemma {:induction false} ChildDescends(q: Path, c: Path, p: Path)
    requires AtOrBelow(q, c) && c != "" && ParentPath(c) == p
    ensures Below(q, p)
    decreases |q|
  {
    if q != c {
      ChildDescends(ParentPath(q), c, p);
    }
  }

  // ----- the view -----

  predicate DepthReached(o: Options, p: Path) {
    o.maxDepth >= 0 && Depth(p) >= o.maxDepth
  }

  /** The fold set covers the status of a span other than the root, and nothing below it is notable. */
  ghost predicate Folded(spans: seq<Span>, o: Options, p: Path)
    requires HasPath(spans, p)
  {
    Depth(p) > 0 && NodeStatusToken(SpanAt(spans, p)) in o.fold && !NotableBelow(spans, p)
  }

  function Longest(spans: seq<Span>): (n: nat)
    ensures forall s :: s in spans ==> |s.path| <= n
  {
    if spans == [] then 0
    else
      var n := Longest(spans[1..]);
      if n < |spans[0].path| then |spans[0].path| else n
  }

  ghost predicate AreKids(spans: seq<Span>, kids: seq<Span>, p: Path) {
    forall k :: k in kids ==> k in spans && k.path != "" && k.parentPath == p
  }

  /** The lines for the subtree of `p`. */
  ghost function View(spans: seq<Span>, o: Options, p: Path): seq<Line>
    requires Projected(spans) && HasPath(spans, p)
    decreases Longest(spans) - |p|, |Kids(spans, p)| + 1
  {
    KidsAre(spans, p);
    [Row(Depth(p), SpanAt(spans, p))]
    + if DepthReached(o, p) then []
      else if Folded(spans, o, p) then if Kids(spans, p) == [] then [] else [Collapsed(Depth(p) + 1, |Kids(spans, p)|)]
      else ViewAll(spans, o, p, Kids(spans, p))
  }

  ghost function ViewAll(spans: seq<Span>, o: Options, p: Path, kids: seq<Span>): seq<Line>
    requires Projected(spans) && HasPath(spans, p) && AreKids(spans, kids, p)
    decreases Longest(spans) - |p|, |kids|
  {
    if kids == [] then []
    else
      var front, last := kids[..|kids| - 1], kids[|kids| - 1];
      ViewAll(spans, o, p, front) + View(spans, o, last.path)
  }

  lemma KidIsLonger(spans: seq<Span>, p: Path, kid: Span)
    requires Projected(spans) && kid in spans && kid.path != "" && kid.parentPath == p
    ensures HasPath(spans, kid.path) && Depth(kid.path) == Depth(p) + 1 && |p| < |kid.path| <= Longest(spans)
  {
  }

  function RowPaths(lines: seq<Line>): seq<Path> {
    if lines == [] then []
    else
      var last := lines[|lines| - 1];
      RowPaths(lines[..|lines| - 1]) + if last.Row? then [last.span.path] else []
  }

  lemma {:induction false} RowPathsConcat(a: seq<Line>, b: seq<Line>)
    ensures RowPaths(a + b) == RowPaths(a) + RowPaths(b)
  {
    if b == [] {
      assert a + b == a;
    } else {
      var front, last := b[..|b| - 1], b[|b| - 1];
      RowPathsConcat(a, front);
      assert (a + b)[..|a + b| - 1] == a + front;
      var tail := if last.Row? then [last.span.path] else [];
      assert RowPaths(a) + RowPaths(front) + tail == RowPaths(a) + (RowPaths(front) + tail);
    }
  }
}
