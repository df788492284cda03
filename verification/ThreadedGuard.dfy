/** The guard on `continues:` steps: their adapter must carry a thread (or, under a gate's evaluate block, context
    evidence), and the step they continue must not run on a session-keeping adapter. */
module ThreadedGuard {
  import opened WorkflowTree

  datatype Verdict =
    | Accept
    | AdapterNotFound(ref: Ref)
    | ContextEvidenceRequired(id: string, ref: Ref)
    | ThreadedRequired(id: string, ref: Ref)
    | PersistentTarget(id: string, target: string, ref: Ref)

  type Index = map<string, AgentStep>

  function CheckStep(m: Module, step: AgentStep, resolver: Resolver, index: Index, judging: bool): Verdict {
    var ref := RuntimeRef(m, step.uses);
    if step.continues == "" then Accept
    else if ref !in resolver then AdapterNotFound(ref)
    else if judging && !resolver[ref].contextEvidence then ContextEvidenceRequired(step.id, ref)
    else if !judging && !resolver[ref].threaded then ThreadedRequired(step.id, ref)
    else if step.continues !in index then Accept
    else
      var targetRef := RuntimeRef(m, index[step.continues].uses);
      if targetRef !in resolver then AdapterNotFound(targetRef)
      else if resolver[targetRef].persistentSession then PersistentTarget(step.id, step.continues, targetRef)
      else Accept
  }

  /** `checkThreadedNodes`: the first error in document order. */
  function CheckNodes(m: Module, nodes: seq<Node>, resolver: Resolver, index: Index, judging: bool): Verdict
    decreases nodes, 1
  {
    if nodes == [] then Accept
    else
      var v := CheckNode(m, nodes[0], resolver, index, judging);
      if v != Accept then v else CheckNodes(m, nodes[1..], resolver, index, judging)
  }

  function CheckNode(m: Module, n: Node, resolver: Resolver, index: Index, judging: bool): Verdict
    decreases n, 2
  {
    match n
    case Agent(step) => CheckStep(m, step, resolver, index, judging)
    case Call(_) => Accept
    case Plain => Accept
    case If(thn, els) =>
      var v := CheckNodes(m, thn, resolver, index, judging);
      if v != Accept then v else CheckNodes(m, els, resolver, index, judging)
    case Loop(body) => CheckNodes(m, body, resolver, index, judging)
    case Try(attempt, handler, finish) =>
      var v := CheckNodes(m, attempt, resolver, index, judging);
      if v != Accept then v
      else
        var w := CheckNodes(m, handler, resolver, index, judging);
        if w != Accept then w else CheckNodes(m, finish, resolver, index, judging)
    case Parallel(branches) => CheckNodes(m, branches, resolver, index, judging)
    case Gate(generate, evaluate) =>
      var v := CheckNodes(m, generate, resolver, index, judging);
      if v != Accept then v else CheckNodes(m, evaluate, resolver, index, true)
    case Map(body) => CheckNodes(m, body, resolver, index, judging)
    case Compose(body) => CheckNodes(m, body, resolver, index, judging)
  }

  function FirstFault(m: Module, visits: seq<Visit>, resolver: Resolver, index: Index): Verdict {
    if visits == [] then Accept
    else
      var v := FaultAt(m, visits[0], resolver, index);
      if v != Accept then v else FirstFault(m, visits[1..], resolver, index)
  }

  function FaultAt(m: Module, v: Visit, resolver: Resolver, index: Index): Verdict {
    if v.node.Agent? then CheckStep(m, v.node.step, resolver, index, v.judging) else Accept
  }

  lemma {:induction false} FaultConcat(m: Module, a: seq<Visit>, b: seq<Visit>, resolver: Resolver, index: Index)
    ensures var x, y := FirstFault(m, a, resolver, index), FirstFault(m, b, resolver, index);
      FirstFault(m, a + b, resolver, index) == if x != Accept then x else y
  {
    hide FaultAt;
    if a == [] {
      assert a + b == b;
    } else {
      FaultConcat(m, a[1..], b, resolver, index);
      assert (a + b)[1..] == a[1..] + b;
    }
  }

  /** The guard reports the first faulty step of the listing. */
  lemma {:induction false} GuardFindsFirstFault(m: Module, nodes: seq<Node>, resolver: Resolver, index: Index, judging: bool)
    ensures CheckNodes(m, nodes, resolver, index, judging) == FirstFault(m, Visits(nodes, judging), resolver, index)
    decreases nodes, 1
  {
    hide CheckStep;
    if nodes != [] {
      NodeFindsFirstFault(m, nodes[0], resolver, index, judging);
      GuardFindsFirstFault(m, nodes[1..], resolver, index, judging);
      FaultConcat(m, VisitsOf(nodes[0], judging), Visits(nodes[1..], judging), resolver, index);
    }
  }

  lemma {:induction false} NodeFindsFirstFault(m: Module, n: Node, resolver: Resolver, index: Index, judging: bool)
    ensures CheckNode(m, n, resolver, index, judging) == FirstFault(m, VisitsOf(n, judging), resolver, index)
    decreases n, 2
  {
    hide CheckStep;
    if n.Agent? || n.Call? {
      var v := Visit(n, judging);
      assert FirstFault(m, [v], resolver, index) == FaultAt(m, v, resolver, index);
    } else {
      BlocksFindFirstFault(m, n, 0, resolver, index, judging);
      NodeChecksItsBlocks(m, n, resolver, index, judging);
    }
  }

  ghost function CheckBlocks(m: Module, n: Node, k: nat, resolver: Resolver, index: Index, judging: bool): Verdict
    requires k <= |Blocks(n)|
    decreases |Blocks(n)| - k
  {
    if k == |Blocks(n)| then Accept
    else
      var b := Blocks(n)[k];
      var v := CheckNodes(m, b.nodes, resolver, index, judging || b.evaluates);
      if v != Accept then v else CheckBlocks(m, n, k + 1, resolver, index, judging)
  }

  lemma NodeChecksItsBlocks(m: Module, n: Node, resolver: Resolver, index: Index, judging: bool)
    requires !n.Agent? && !n.Call?
    ensures CheckNode(m, n, resolver, index, judging) == CheckBlocks(m, n, 0, resolver, index, judging)
  {
    hide CheckStep;
    var last := |Blocks(n)|;
    assert CheckBlocks(m, n, last, resolver, index, judging) == Accept;
    if last >= 2 {
      assert CheckBlocks(m, n, last - 1, resolver, index, judging)
        == CheckNodes(m, Blocks(n)[last - 1].nodes, resolver, index, judging || Blocks(n)[last - 1].evaluates);
    }
  }

  lemma {:induction false} BlocksFindFirstFault(m: Module, n: Node, k: nat, resolver: Resolver, index: Index, judging: bool)
    requires k <= |Blocks(n)|
    ensures CheckBlocks(m, n, k, resolver, index, judging) == FirstFault(m, BlockVisits(n, k, judging), resolver, index)
    decreases n, 1, |Blocks(n)| - k
  {
    hide CheckStep;
    if k < |Blocks(n)| {
      var b := Blocks(n)[k];
      GuardFindsFirstFault(m, b.nodes, resolver, index, judging || b.evaluates);
      BlocksFindFirstFault(m, n, k + 1, resolver, index, judging);
      FaultConcat(m, Visits(b.nodes, judging || b.evaluates), BlockVisits(n, k + 1, judging), resolver, index);
    }
  }

  lemma {:induction false} AcceptIffNoFault(m: Module, visits: seq<Visit>, resolver: Resolver, index: Index)
    ensures FirstFault(m, visits, resolver, index) == Accept
      <==> forall v :: v in visits ==> FaultAt(m, v, resolver, index) == Accept
  {
    hide FaultAt;
    if visits != [] {
      AcceptIffNoFault(m, visits[1..], resolver, index);
      assert forall v :: v in visits <==> v == visits[0] || v in visits[1..];
    }
  }

  // ---------------------------------------------------------------------------------------------
  // The index of continuable steps

  /** The agent step that `id` names: the last one of the listing that carries it. */
  function LastNamed(visits: seq<Visit>, id: string): Option<AgentStep> {
    if visits == [] then None
    else
      var last := visits[|visits| - 1].node;
      if last.Agent? && last.step.id == id then Some(last.step) else LastNamed(visits[..|visits| - 1], id)
  }

  /** The index holds exactly the named agent steps of these visits, on top of what it held before. */
  ghost predicate Indexes(before: Index, visits: seq<Visit>, after: Index) {
    && (forall id :: id in after <==> id in before || (id != "" && LastNamed(visits, id).Some?))
    && (forall id :: id in after && id != "" && LastNamed(visits, id).Some? ==> after[id] == LastNamed(visits, id).value)
    && (forall id :: id in after && !(id != "" && LastNamed(visits, id).Some?) ==> after[id] == before[id])
  }

  lemma {:induction false} LastNamedConcat(a: seq<Visit>, b: seq<Visit>, id: string)
    ensures LastNamed(a + b, id) == if LastNamed(b, id).Some? then LastNamed(b, id) else LastNamed(a, id)
  {
    if b == [] {
      assert a + b == a;
    } else {
      LastNamedConcat(a, b[..|b| - 1], id);
      assert (a + b)[..|a + b| - 1] == a + b[..|b| - 1];
    }
  }

  lemma IndexesCompose(before: Index, a: seq<Visit>, middle: Index, b: seq<Visit>, after: Index)
    requires Indexes(before, a, middle) && Indexes(middle, b, after)
    ensures Indexes(before, a + b, after)
  {
    forall id ensures LastNamed(a + b, id) == if LastNamed(b, id).Some? then LastNamed(b, id) else LastNamed(a, id) {
      LastNamedConcat(a, b, id);
    }
  }

  lemma SingleVisit(n: Node, judging: bool, before: Index, after: Index)
    requires n.Agent? || n.Call?
    requires after == if n.Agent? && n.step.id != "" then before[n.step.id := n.step] else before
    ensures Indexes(before, VisitsOf(n, judging), after)
  {
    var visits := VisitsOf(n, judging);
    assert visits[..0] == [];
    assert forall id :: LastNamed(visits, id) == if n.Agent? && n.step.id == id then Some(n.step) else None;
  }

  lemma NothingIndexed(before: Index)
    ensures Indexes(before, [], before)
  {
  }

  /** The map that `collectAgentSteps` fills in place. */
  class StepIndex {
    var steps: Index

    constructor ()
      ensures steps == map[]
    {
      steps := map[];
    }

    method Collect(nodes: seq<Node>, ghost judging: bool)
      modifies this
      ensures Indexes(old(steps), Visits(nodes, judging), steps)
      decreases nodes, 1
    {
      NothingIndexed(steps);
      for i := 0 to |nodes|
        invariant Indexes(old(steps), Visits(nodes[..i], judging), steps)
      {
        ghost var middle := steps;
        CollectNode(nodes[i], judging);
        hide Indexes;
        IndexesCompose(old(steps), Visits(nodes[..i], judging), middle, VisitsOf(nodes[i], judging), steps);
        VisitsSnoc(nodes[..i], nodes[i], judging);
        assert nodes[..i + 1] == nodes[..i] + [nodes[i]];
      }
      assert nodes[..|nodes|] == nodes;
    }

    method CollectNode(n: Node, ghost judging: bool)
      modifies this
      ensures Indexes(old(steps), VisitsOf(n, judging), steps)
      decreases n, 2
    {
      if !n.Agent? && !n.Call? {
        VisitsOfBlocks(n, judging);
      }
      NothingIndexed(steps);
      match n {
        case Agent(step) =>
          if step.id != "" {
            steps := steps[step.id := step];
          }
          SingleVisit(n, judging, old(steps), steps);
        case Call(_) =>
          SingleVisit(n, judging, old(steps), steps);
        case Plain =>
        case If(thn, els) =>
          Collect(thn, judging);
          ghost var middle := steps;
          Collect(els, judging);
          IndexesCompose(old(steps), Visits(thn, judging), middle, Visits(els, judging), steps);
        case Loop(body) =>
          Collect(body, judging);
        case Try(attempt, handler, finish) =>
          Collect(attempt, judging);
          ghost var first := steps;
          Collect(handler, judging);
          ghost var second := steps;
          Collect(finish, judging);
          IndexesCompose(old(steps), Visits(attempt, judging), first, Visits(handler, judging), second);
          IndexesCompose(old(steps), Visits(attempt, judging) + Visits(handler, judging), second, Visits(finish, judging), steps);
        case Parallel(branches) =>
          Collect(branches, judging);
        case Gate(generate, evaluate) =>
          Collect(generate, judging);
          ghost var middle := steps;
          Collect(evaluate, true);
          IndexesCompose(old(steps), Visits(generate, judging), middle, Visits(evaluate, true), steps);
        case Map(body) =>
          Collect(body, judging);
        case Compose(body) =>
          Collect(body, judging);
      }
    }
  }

  // ---------------------------------------------------------------------------------------------
  // What accepting means

  /** The demand on one `continues:` step, stated on the tree: its own adapter has the capability its position asks for,
      and the step it names resolves to an adapter that keeps no session. */
  ghost predicate ThreadsProperly(m: Module, visits: seq<Visit>, v: Visit, resolver: Resolver)
    requires v.node.Agent?
  {
    var step := v.node.step;
    step.continues != "" ==>
      var ref := RuntimeRef(m, step.uses);
      && ref in resolver
      && (if v.judging then resolver[ref].contextEvidence else resolver[ref].threaded)
      && match LastNamed(visits, step.continues)
         case None => true
         case Some(target) =>
           var targetRef := RuntimeRef(m, target.uses);
           targetRef in resolver && !resolver[targetRef].persistentSession
  }

  lemma AcceptsStepIff(m: Module, visits: seq<Visit>, v: Visit, resolver: Resolver, index: Index)
    requires v.node.Agent? && Indexes(map[], visits, index)
    ensures FaultAt(m, v, resolver, index) == Accept <==> ThreadsProperly(m, visits, v, resolver)
  {
    var id := v.node.step.continues;
    assert id in index <==> id != "" && LastNamed(visits, id).Some?;
  }

  /** The guard accepts a workflow exactly when every agent step standing anywhere in its tree threads properly. */
  lemma GuardAcceptsIff(m: Module, resolver: Resolver, index: Index)
    requires Indexes(map[], Visits(m.graph, false), index)
    ensures CheckNodes(m, m.graph, resolver, index, false) == Accept
      <==> forall p, v :: At(m.graph, false, p) == Some(v) && v.node.Agent? ==>
             ThreadsProperly(m, Visits(m.graph, false), v, resolver)
  {
    var visits := Visits(m.graph, false);
    GuardFindsFirstFault(m, m.graph, resolver, index, false);
    AcceptIffNoFault(m, visits, resolver, index);
    hide CheckNodes, FirstFault;
    if forall v :: v in visits ==> FaultAt(m, v, resolver, index) == Accept {
      forall p, v | At(m.graph, false, p) == Some(v) && v.node.Agent? ensures ThreadsProperly(m, visits, v, resolver) {
        PlaceIsListed(m.graph, false, p, v);
        AcceptsStepIff(m, visits, v, resolver, index);
      }
    } else {
      var v :| v in visits && FaultAt(m, v, resolver, index) != Accept;
      var p := ListedHasPlace(m.graph, false, v);
      AcceptsStepIff(m, visits, v, resolver, index);
    }
  }

  /** With unique step ids the step that `continues:` names is the one step with that id, wherever it stands. */
  lemma {:induction false} UniqueIdIsNamed(visits: seq<Visit>, k: nat)
    requires k < |visits| && visits[k].node.Agent?
    requires forall i :: 0 <= i < |visits| && visits[i].node.Agent? && visits[i].node.step.id == visits[k].node.step.id ==> i == k
    ensures LastNamed(visits, visits[k].node.step.id) == Some(visits[k].node.step)
  {
    var n := |visits| - 1;
    if k < n {
      UniqueIdIsNamed(visits[..n], k);
    }
  }

  /** `checkThreadedWorkflow`: index first, then check. */
  method CheckWorkflow(m: Module, resolver: Resolver) returns (verdict: Verdict)
    ensures verdict == Accept <==>
      forall p, v :: At(m.graph, false, p) == Some(v) && v.node.Agent? ==>
        ThreadsProperly(m, Visits(m.graph, false), v, resolver)
    ensures exists index ::
      Indexes(map[], Visits(m.graph, false), index) && verdict == FirstFault(m, Visits(m.graph, false), resolver, index)
  {
    var index := new StepIndex();
    index.Collect(m.graph, false);
    verdict := CheckNodes(m, m.graph, resolver, index.steps, false);
    GuardFindsFirstFault(m, m.graph, resolver, index.steps, false);
    GuardAcceptsIff(m, resolver, index.steps);
  }
}
