/** The guard against persistent-session adapters under a gate's evaluate block. It follows calls out of such a block
    into the called module, and from there into further modules. */
module PersistentGuard {
  import opened WorkflowTree

  datatype Verdict = Accept | AdapterNotFound(ref: Ref) | PersistentInEvaluate(id: string, ref: Ref)

  function FindModule(modules: seq<Module>, id: string): (m: Option<Module>)
    ensures m.Some? ==> m.value in modules && m.value.id == id
    ensures m.None? ==> forall k :: 0 <= k < |modules| ==> modules[k].id != id
  {
    if modules == [] then None
    else if modules[0].id == id then Some(modules[0])
    else FindModule(modules[1..], id)
  }

  /** `persistentGuardCallTargetModule`: the first edge with this parent and import name decides. */
  function CallTarget(ld: Definition, edges: seq<Edge>, parentId: string, importId: string): Option<Module> {
    if edges == [] then None
    else if edges[0].parentId == parentId && edges[0].importId == importId then FindModule(ld.modules, edges[0].childId)
    else CallTarget(ld, edges[1..], parentId, importId)
  }

  /** Where a call leads: to the loaded module that the first import edge of this parent and name points to. */
  lemma {:induction false} CallTargetIs(ld: Definition, edges: seq<Edge>, parentId: string, importId: string)
    ensures var target := CallTarget(ld, edges, parentId, importId);
      && (forall k :: FirstEdge(edges, parentId, importId, k) ==>
            && (target.Some? <==> exists m :: m in ld.modules && m.id == edges[k].childId)
            && (target.Some? ==> target.value in ld.modules && target.value.id == edges[k].childId))
      && ((forall k :: 0 <= k < |edges| ==> !(edges[k].parentId == parentId && edges[k].importId == importId)) ==> target.None?)
      && (target.Some? ==> target.value in ld.modules)
  {
    if edges != [] {
      var rest := edges[1..];
      CallTargetIs(ld, rest, parentId, importId);
      forall k | FirstEdge(edges, parentId, importId, k) && k > 0 ensures FirstEdge(rest, parentId, importId, k - 1) {
        assert forall i :: 0 <= i < k - 1 ==> rest[i] == edges[i + 1];
      }
    }
  }

  ghost predicate FirstEdge(edges: seq<Edge>, parentId: string, importId: string, k: int) {
    && 0 <= k < |edges| && edges[k].parentId == parentId && edges[k].importId == importId
    && forall i :: 0 <= i < k ==> !(edges[i].parentId == parentId && edges[i].importId == importId)
  }

  /** Imports are acyclic: along every edge to a loaded module the rank falls. */
  ghost predicate Ranked(ld: Definition, rank: string -> nat) {
    forall k :: 0 <= k < |ld.edges| && FindModule(ld.modules, ld.edges[k].childId).Some?
      ==> rank(ld.edges[k].childId) < rank(ld.edges[k].parentId)
  }

  lemma {:induction false} TargetRankFalls(ld: Definition, rank: string -> nat, edges: seq<Edge>, parentId: string, importId: string)
    requires Ranked(ld, rank) && (forall e :: e in edges ==> e in ld.edges)
    requires CallTarget(ld, edges, parentId, importId).Some?
    ensures rank(CallTarget(ld, edges, parentId, importId).value.id) < rank(parentId)
  {
    if edges[0].parentId == parentId && edges[0].importId == importId {
      assert edges[0] in ld.edges;
      var k :| 0 <= k < |ld.edges| && ld.edges[k] == edges[0];
    } else {
      TargetRankFalls(ld, rank, edges[1..], parentId, importId);
    }
  }

  /** Ids as the loader makes them (the parent's id, a dot, the import name) always have such a rank. */
  lemma LoadedIdsAreRanked(ld: Definition, bound: nat)
    requires forall k :: 0 <= k < |ld.edges| ==> |ld.edges[k].childId| > |ld.edges[k].parentId|
    requires forall k :: 0 <= k < |ld.modules| ==> |ld.modules[k].id| <= bound
    ensures Ranked(ld, id => if |id| <= bound then bound - |id| else 0)
  {
  }

  function CheckAgent(m: Module, step: AgentStep, resolver: Resolver): Verdict {
    var ref := RuntimeRef(m, step.uses);
    if ref !in resolver then AdapterNotFound(ref)
    else if resolver[ref].persistentSession then PersistentInEvaluate(step.id, ref)
    else Accept
  }

  /** `checkPersistentSessionNodes`: the first error in document order, or none. */
  function CheckNodes(ld: Definition, ghost rank: string -> nat, m: Module, nodes: seq<Node>, resolver: Resolver, judging: bool): Verdict
    requires Ranked(ld, rank)
    decreases rank(m.id), nodes, 1
  {
    if nodes == [] then Accept
    else
      var v := CheckNode(ld, rank, m, nodes[0], resolver, judging);
      if v != Accept then v else CheckNodes(ld, rank, m, nodes[1..], resolver, judging)
  }

  function CheckNode(ld: Definition, ghost rank: string -> nat, m: Module, n: Node, resolver: Resolver, judging: bool): Verdict
    requires Ranked(ld, rank)
    decreases rank(m.id), n, 2
  {
    match n
    case Agent(step) => if !judging then Accept else CheckAgent(m, step, resolver)
    case Call(callee) =>
      var child := CallTarget(ld, ld.edges, m.id, callee);
      if judging && child.Some? then
        TargetRankFalls(ld, rank, ld.edges, m.id, callee);
        CheckNodes(ld, rank, child.value, child.value.graph, resolver, true)
      else Accept
    case Plain => Accept
    case If(thn, els) =>
      var v := CheckNodes(ld, rank, m, thn, resolver, judging);
      if v != Accept then v else CheckNodes(ld, rank, m, els, resolver, judging)
    case Loop(body) => CheckNodes(ld, rank, m, body, resolver, judging)
    case Try(attempt, handler, finish) =>
      var v := CheckNodes(ld, rank, m, attempt, resolver, judging);
      if v != Accept then v
      else
        var w := CheckNodes(ld, rank, m, handler, resolver, judging);
        if w != Accept then w else CheckNodes(ld, rank, m, finish, resolver, judging)
    case Parallel(branches) => CheckNodes(ld, rank, m, branches, resolver, judging)
    case Gate(generate, evaluate) =>
      var v := CheckNodes(ld, rank, m, generate, resolver, judging);
      if v != Accept then v else CheckNodes(ld, rank, m, evaluate, resolver, true)
    case Map(body) => CheckNodes(ld, rank, m, body, resolver, judging)
    case Compose(body) => CheckNodes(ld, rank, m, body, resolver, judging)
  }

  // ---------------------------------------------------------------------------------------------
  // What the guard means

  /** An agent step that judges, and the module it stands in. */
  datatype Judge = Judge(m: Module, step: AgentStep)

  /** The judging agent steps among these visits, with every judging call replaced by those of the called module. */
  ghost function Judges(ld: Definition, rank: string -> nat, m: Module, visits: seq<Visit>): seq<Judge>
    requires Ranked(ld, rank)
    decreases rank(m.id), |visits|
  {
    if visits == [] then [] else JudgesAt(ld, rank, m, visits[0]) + Judges(ld, rank, m, visits[1..])
  }

  ghost function JudgesAt(ld: Definition, rank: string -> nat, m: Module, v: Visit): seq<Judge>
    requires Ranked(ld, rank)
    decreases rank(m.id), 0
  {
    if !v.judging then []
    else match v.node
      case Agent(step) => [Judge(m, step)]
      case Call(callee) =>
        var child := CallTarget(ld, ld.edges, m.id, callee);
        if child.None? then []
        else
          TargetRankFalls(ld, rank, ld.edges, m.id, callee);
          Judges(ld, rank, child.value, Visits(child.value.graph, true))
      case _ => []
  }

  function FirstFault(judges: seq<Judge>, resolver: Resolver): Verdict {
    if judges == [] then Accept
    else
      var v := CheckAgent(judges[0].m, judges[0].step, resolver);
      if v != Accept then v else FirstFault(judges[1..], resolver)
  }

  lemma {:induction false} FirstFaultConcat(a: seq<Judge>, b: seq<Judge>, resolver: Resolver)
    ensures FirstFault(a + b, resolver)
      == if FirstFault(a, resolver) != Accept then FirstFault(a, resolver) else FirstFault(b, resolver)
  {
    if a == [] {
      assert a + b == b;
    } else {
      FirstFaultConcat(a[1..], b, resolver);
      assert (a + b)[1..] == a[1..] + b;
    }
  }

  lemma {:induction false} JudgesConcat(ld: Definition, rank: string -> nat, m: Module, a: seq<Visit>, b: seq<Visit>)
    requires Ranked(ld, rank)
    ensures Judges(ld, rank, m, a + b) == Judges(ld, rank, m, a) + Judges(ld, rank, m, b)
    decreases a
  {
    if a == [] {
      assert a + b == b;
    } else {
      JudgesConcat(ld, rank, m, a[1..], b);
      assert (a + b)[1..] == a[1..] + b;
      var first, rest := JudgesAt(ld, rank, m, a[0]), Judges(ld, rank, m, a[1..]);
      assert first + (rest + Judges(ld, rank, m, b)) == first + rest + Judges(ld, rank, m, b);
    }
  }

  /** The verdict on two stretches of the listing, one after the other. */
  lemma FaultConcat(ld: Definition, rank: string -> nat, m: Module, a: seq<Visit>, b: seq<Visit>, resolver: Resolver)
    requires Ranked(ld, rank)
    ensures var x, y := FirstFault(Judges(ld, rank, m, a), resolver), FirstFault(Judges(ld, rank, m, b), resolver);
      FirstFault(Judges(ld, rank, m, a + b), resolver) == if x != Accept then x else y
  {
    JudgesConcat(ld, rank, m, a, b);
    FirstFaultConcat(Judges(ld, rank, m, a), Judges(ld, rank, m, b), resolver);
  }

  /** The guard returns the verdict on the first faulty judge in document order, calls expanded in place. */
  lemma {:induction false} GuardFindsFirstFault(ld: Definition, rank: string -> nat, m: Module, nodes: seq<Node>, resolver: Resolver, judging: bool)
    requires Ranked(ld, rank)
    ensures CheckNodes(ld, rank, m, nodes, resolver, judging) == FirstFault(Judges(ld, rank, m, Visits(nodes, judging)), resolver)
    decreases rank(m.id), nodes, 1
  {
    if nodes != [] {
      NodeFindsFirstFault(ld, rank, m, nodes[0], resolver, judging);
      GuardFindsFirstFault(ld, rank, m, nodes[1..], resolver, judging);
      FaultConcat(ld, rank, m, VisitsOf(nodes[0], judging), Visits(nodes[1..], judging), resolver);
    }
  }

  lemma {:induction false} NodeFindsFirstFault(ld: Definition, rank: string -> nat, m: Module, n: Node, resolver: Resolver, judging: bool)
    requires Ranked(ld, rank)
    ensures CheckNode(ld, rank, m, n, resolver, judging) == FirstFault(Judges(ld, rank, m, VisitsOf(n, judging)), resolver)
    decreases rank(m.id), n, 2
  {
    if n.Agent? || n.Call? {
      LeafFindsFirstFault(ld, rank, m, n, resolver, judging);
    } else {
      BlocksFindFirstFault(ld, rank, m, n, 0, resolver, judging);
      NodeChecksItsBlocks(ld, rank, m, n, resolver, judging);
      hide CheckNode, CheckNodes, CheckBlocks, Judges, Visits;
    }
  }

  lemma {:induction false} LeafFindsFirstFault(ld: Definition, rank: string -> nat, m: Module, n: Node, resolver: Resolver, judging: bool)
    requires Ranked(ld, rank) && (n.Agent? || n.Call?)
    ensures CheckNode(ld, rank, m, n, resolver, judging) == FirstFault(Judges(ld, rank, m, [Visit(n, judging)]), resolver)
    decreases rank(m.id), n, 1
  {
    var v := Visit(n, judging);
    var at := JudgesAt(ld, rank, m, v);
    assert Judges(ld, rank, m, [v]) == at + [] == at;
    if n.Call? && judging && CallTarget(ld, ld.edges, m.id, n.callee).Some? {
      var child := CallTarget(ld, ld.edges, m.id, n.callee).value;
      TargetRankFalls(ld, rank, ld.edges, m.id, n.callee);
      GuardFindsFirstFault(ld, rank, child, child.graph, resolver, true);
    }
  }

  /** The blocks of a control node from `k` on, one after the other. */
  ghost function CheckBlocks(ld: Definition, rank: string -> nat, m: Module, n: Node, k: nat, resolver: Resolver, judging: bool): Verdict
    requires Ranked(ld, rank) && k <= |Blocks(n)|
    decreases |Blocks(n)| - k
  {
    if k == |Blocks(n)| then Accept
    else
      var b := Blocks(n)[k];
      var v := CheckNodes(ld, rank, m, b.nodes, resolver, judging || b.evaluates);
      if v != Accept then v else CheckBlocks(ld, rank, m, n, k + 1, resolver, judging)
  }

  lemma NodeChecksItsBlocks(ld: Definition, rank: string -> nat, m: Module, n: Node, resolver: Resolver, judging: bool)
    requires Ranked(ld, rank) && !n.Agent? && !n.Call?
    ensures CheckNode(ld, rank, m, n, resolver, judging) == CheckBlocks(ld, rank, m, n, 0, resolver, judging)
  {
    var last := |Blocks(n)|;
    assert CheckBlocks(ld, rank, m, n, last, resolver, judging) == Accept;
    if last >= 2 {
      assert CheckBlocks(ld, rank, m, n, last - 1, resolver, judging)
        == CheckNodes(ld, rank, m, Blocks(n)[last - 1].nodes, resolver, judging || Blocks(n)[last - 1].evaluates);
    }
  }

  lemma {:induction false} BlocksFindFirstFault(ld: Definition, rank: string -> nat, m: Module, n: Node, k: nat, resolver: Resolver, judging: bool)
    requires Ranked(ld, rank) && k <= |Blocks(n)|
    ensures CheckBlocks(ld, rank, m, n, k, resolver, judging) == FirstFault(Judges(ld, rank, m, BlockVisits(n, k, judging)), resolver)
    decreases rank(m.id), n, 1, |Blocks(n)| - k
  {
    if k < |Blocks(n)| {
      var b := Blocks(n)[k];
      GuardFindsFirstFault(ld, rank, m, b.nodes, resolver, judging || b.evaluates);
      BlocksFindFirstFault(ld, rank, m, n, k + 1, resolver, judging);
      FaultConcat(ld, rank, m, Visits(b.nodes, judging || b.evaluates), BlockVisits(n, k + 1, judging), resolver);
    }
  }

  // ---------------------------------------------------------------------------------------------
  // Accepting, in terms of places in the trees

  /** How a judge is reached: it stands at a place, or behind a call that stands at a place. */
  datatype Route = Direct(at: Position) | Through(at: Position, callee: string, onward: Route)

  /** The route leads from this node list to an agent step under some gate's evaluate block, every call on the way
      standing under one too. */
  ghost predicate Leads(ld: Definition, m: Module, nodes: seq<Node>, judging: bool, route: Route, j: Judge)
    decreases route
  {
    match route
    case Direct(p) => j.m == m && At(nodes, judging, p) == Some(Visit(Agent(j.step), true))
    case Through(p, callee, onward) =>
      && At(nodes, judging, p) == Some(Visit(Call(callee), true))
      && CallTarget(ld, ld.edges, m.id, callee).Some?
      && var child := CallTarget(ld, ld.edges, m.id, callee).value;
      Leads(ld, child, child.graph, true, onward, j)
  }

  lemma {:induction false} JudgeAmongVisits(ld: Definition, rank: string -> nat, m: Module, visits: seq<Visit>, v: Visit, j: Judge)
    requires Ranked(ld, rank) && v in visits && j in JudgesAt(ld, rank, m, v)
    ensures j in Judges(ld, rank, m, visits)
    decreases visits
  {
    if v != visits[0] {
      JudgeAmongVisits(ld, rank, m, visits[1..], v, j);
    }
  }

  lemma {:induction false} RouteEndsAtJudge(ld: Definition, rank: string -> nat, m: Module, nodes: seq<Node>, judging: bool, route: Route, j: Judge)
    requires Ranked(ld, rank) && Leads(ld, m, nodes, judging, route, j)
    ensures j in Judges(ld, rank, m, Visits(nodes, judging))
    decreases route
  {
    var v := At(nodes, judging, route.at).value;
    PlaceIsListed(nodes, judging, route.at, v);
    if route.Through? {
      var child := CallTarget(ld, ld.edges, m.id, route.callee).value;
      RouteEndsAtJudge(ld, rank, child, child.graph, true, route.onward, j);
    }
    assert j in JudgesAt(ld, rank, m, v);
    JudgeAmongVisits(ld, rank, m, Visits(nodes, judging), v, j);
  }

  lemma {:induction false} JudgeHasRoute(ld: Definition, rank: string -> nat, m: Module, nodes: seq<Node>, judging: bool, visits: seq<Visit>, j: Judge)
    returns (route: Route)
    requires Ranked(ld, rank) && j in Judges(ld, rank, m, visits)
    requires forall v :: v in visits ==> v in Visits(nodes, judging)
    ensures Leads(ld, m, nodes, judging, route, j)
    decreases rank(m.id), |visits|
  {
    var v := visits[0];
    if j in JudgesAt(ld, rank, m, v) {
      var p := ListedHasPlace(nodes, judging, v);
      if v.node.Agent? {
        route := Direct(p);
      } else {
        var child := CallTarget(ld, ld.edges, m.id, v.node.callee).value;
        TargetRankFalls(ld, rank, ld.edges, m.id, v.node.callee);
        var onward := JudgeHasRoute(ld, rank, child, child.graph, true, Visits(child.graph, true), j);
        route := Through(p, v.node.callee, onward);
      }
    } else {
      route := JudgeHasRoute(ld, rank, m, nodes, judging, visits[1..], j);
    }
  }

  ghost predicate Harmless(j: Judge, resolver: Resolver) {
    var ref := RuntimeRef(j.m, j.step.uses);
    ref in resolver && !resolver[ref].persistentSession
  }

  lemma {:induction false} AcceptIffAllHarmless(judges: seq<Judge>, resolver: Resolver)
    ensures FirstFault(judges, resolver) == Accept <==> forall k :: 0 <= k < |judges| ==> Harmless(judges[k], resolver)
  {
    if judges != [] {
      AcceptIffAllHarmless(judges[1..], resolver);
      if FirstFault(judges, resolver) == Accept {
        forall k | 0 <= k < |judges| ensures Harmless(judges[k], resolver) {
          if k > 0 {
            assert judges[k] == judges[1..][k - 1];
          }
        }
      }
    }
  }

  /** A verdict other than accepting is about the first judge that is not harmless: its adapter is missing, or keeps a
      session. */
  lemma {:induction false} FaultNamesItsJudge(judges: seq<Judge>, resolver: Resolver)
    requires FirstFault(judges, resolver) != Accept
    ensures exists k :: 0 <= k < |judges| && FaultyFirst(judges, resolver, k)
  {
    hide Harmless;
    if CheckAgent(judges[0].m, judges[0].step, resolver) != Accept {
      FirstIsFaulty(judges, resolver);
    } else {
      var rest := judges[1..];
      FaultNamesItsJudge(rest, resolver);
      var k :| 0 <= k < |rest| && FaultyFirst(rest, resolver, k);
      HarmlessFirst(judges, resolver);
      forall i | 0 <= i < k + 1 ensures Harmless(judges[i], resolver) {
        assert i > 0 ==> judges[i] == rest[i - 1];
      }
      assert FaultyFirst(judges, resolver, k + 1);
    }
  }

  ghost predicate FaultyFirst(judges: seq<Judge>, resolver: Resolver, k: nat)
    requires k < |judges|
  {
    var j := judges[k];
    var ref := RuntimeRef(j.m, j.step.uses);
    && (forall i :: 0 <= i < k ==> Harmless(judges[i], resolver))
    && !Harmless(j, resolver)
    && FirstFault(judges, resolver) == if ref in resolver then PersistentInEvaluate(j.step.id, ref) else AdapterNotFound(ref)
  }

  lemma FirstIsFaulty(judges: seq<Judge>, resolver: Resolver)
    requires judges != [] && CheckAgent(judges[0].m, judges[0].step, resolver) != Accept
    ensures FaultyFirst(judges, resolver, 0)
  {
  }

  lemma HarmlessFirst(judges: seq<Judge>, resolver: Resolver)
    requires judges != [] && CheckAgent(judges[0].m, judges[0].step, resolver) == Accept
    ensures Harmless(judges[0], resolver)
  {
  }

  /** The guard accepts exactly when every route to a judging agent step, through any chain of calls, ends at an adapter
      that resolves and keeps no session. */
  lemma GuardAcceptsIff(ld: Definition, rank: string -> nat, m: Module, nodes: seq<Node>, resolver: Resolver, judging: bool)
    requires Ranked(ld, rank)
    ensures CheckNodes(ld, rank, m, nodes, resolver, judging) == Accept
      <==> forall route, j :: Leads(ld, m, nodes, judging, route, j) ==> Harmless(j, resolver)
  {
    var judges := Judges(ld, rank, m, Visits(nodes, judging));
    GuardFindsFirstFault(ld, rank, m, nodes, resolver, judging);
    AcceptIffAllHarmless(judges, resolver);
    hide Harmless, Leads, CheckNodes, FirstFault;
    if FirstFault(judges, resolver) == Accept {
      forall route, j | Leads(ld, m, nodes, judging, route, j) ensures Harmless(j, resolver) {
        RouteEndsAtJudge(ld, rank, m, nodes, judging, route, j);
      }
    } else {
      var k :| 0 <= k < |judges| && !Harmless(judges[k], resolver);
      HarmHasRoute(ld, rank, m, nodes, judging, judges[k], resolver);
    }
  }

  lemma HarmHasRoute(ld: Definition, rank: string -> nat, m: Module, nodes: seq<Node>, judging: bool, j: Judge, resolver: Resolver)
    requires Ranked(ld, rank) && j in Judges(ld, rank, m, Visits(nodes, judging)) && !Harmless(j, resolver)
    ensures exists route, k :: Leads(ld, m, nodes, judging, route, k) && !Harmless(k, resolver)
  {
    hide Harmless, Leads, Judges;
    var route := JudgeHasRoute(ld, rank, m, nodes, judging, Visits(nodes, judging), j);
  }

  datatype Report = AllAccepted | Rejected(moduleId: string, verdict: Verdict)

  /** The walk over all modules stops at the first error. */
  function CheckModules(ld: Definition, ghost rank: string -> nat, modules: seq<Module>, resolver: Resolver): Report
    requires Ranked(ld, rank)
  {
    if modules == [] then AllAccepted
    else
      var v := CheckNodes(ld, rank, modules[0], modules[0].graph, resolver, false);
      if v != Accept then Rejected(modules[0].id, v) else CheckModules(ld, rank, modules[1..], resolver)
  }

  /** A definition passes exactly when no module holds a route from one of its gates to an unresolved or
      session-keeping judge. */
  lemma {:induction false} DefinitionAcceptedIff(ld: Definition, rank: string -> nat, modules: seq<Module>, resolver: Resolver)
    requires Ranked(ld, rank)
    ensures CheckModules(ld, rank, modules, resolver) == AllAccepted
      <==> forall m, route, j :: m in modules && Leads(ld, m, m.graph, false, route, j) ==> Harmless(j, resolver)
  {
    if modules != [] {
      GuardAcceptsIff(ld, rank, modules[0], modules[0].graph, resolver, false);
      DefinitionAcceptedIff(ld, rank, modules[1..], resolver);
      hide CheckNodes, Leads, Harmless;
      assert forall m :: m in modules <==> m == modules[0] || m in modules[1..];
    }
  }
}
