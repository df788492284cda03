/** The advisory credential walk and the input-files walk. Both see the agent steps of the one document-order listing. */
module StepWalks {
  import opened WorkflowTree
  import opened FirstOccurrence

  // ---------------------------------------------------------------------------------------------
  // Input files: the first offending step

  datatype Complaint = NoComplaint | Complaint(id: string, ref: Ref)

  /** A containerless step with input files needs an adapter that inlines them; an unresolved adapter is left to others. */
  function ComplaintOn(m: Module, step: AgentStep, resolver: Resolver): Complaint {
    var ref := RuntimeRef(m, step.uses);
    if step.container != "" || step.inputFiles == {} then NoComplaint
    else if ref !in resolver then NoComplaint
    else if !resolver[ref].inlineInputFiles then Complaint(step.id, ref)
    else NoComplaint
  }

  /** `walkInputFilesNodes`. */
  function WalkInputFiles(m: Module, nodes: seq<Node>, resolver: Resolver): Complaint
    decreases nodes, 1
  {
    if nodes == [] then NoComplaint
    else
      var c := WalkInputFilesNode(m, nodes[0], resolver);
      if c != NoComplaint then c else WalkInputFiles(m, nodes[1..], resolver)
  }

  function WalkInputFilesNode(m: Module, n: Node, resolver: Resolver): Complaint
    decreases n, 2
  {
    match n
    case Agent(step) => ComplaintOn(m, step, resolver)
    case Call(_) => NoComplaint
    case Plain => NoComplaint
    case If(thn, els) =>
      var c := WalkInputFiles(m, thn, resolver);
      if c != NoComplaint then c else WalkInputFiles(m, els, resolver)
    case Loop(body) => WalkInputFiles(m, body, resolver)
    case Try(attempt, handler, finish) =>
      var c := WalkInputFiles(m, attempt, resolver);
      if c != NoComplaint then c
      else
        var d := WalkInputFiles(m, handler, resolver);
        if d != NoComplaint then d else WalkInputFiles(m, finish, resolver)
    case Parallel(branches) => WalkInputFiles(m, branches, resolver)
    case Gate(generate, evaluate) =>
      var c := WalkInputFiles(m, generate, resolver);
      if c != NoComplaint then c else WalkInputFiles(m, evaluate, resolver)
    case Map(body) => WalkInputFiles(m, body, resolver)
    case Compose(body) => WalkInputFiles(m, body, resolver)
  }

  /** The agent steps of a listing, without their context. */
  function Agents(visits: seq<Visit>): seq<AgentStep> {
    if visits == [] then []
    else if visits[0].node.Agent? then [visits[0].node.step] + Agents(visits[1..])
    else Agents(visits[1..])
  }

  lemma {:induction false} AgentsConcat(a: seq<Visit>, b: seq<Visit>)
    ensures Agents(a + b) == Agents(a) + Agents(b)
  {
    if a == [] {
      assert a + b == b;
    } else {
      AgentsConcat(a[1..], b);
      assert (a + b)[1..] == a[1..] + b;
    }
  }

  function FirstComplaint(m: Module, steps: seq<AgentStep>, resolver: Resolver): Complaint {
    if steps == [] then NoComplaint
    else
      var c := ComplaintOn(m, steps[0], resolver);
      if c != NoComplaint then c else FirstComplaint(m, steps[1..], resolver)
  }

  lemma {:induction false} FirstComplaintConcat(m: Module, a: seq<AgentStep>, b: seq<AgentStep>, resolver: Resolver)
    ensures var x, y := FirstComplaint(m, a, resolver), FirstComplaint(m, b, resolver);
      FirstComplaint(m, a + b, resolver) == if x != NoComplaint then x else y
  {
    hide ComplaintOn;
    if a == [] {
      assert a + b == b;
    } else {
      FirstComplaintConcat(m, a[1..], b, resolver);
      assert (a + b)[1..] == a[1..] + b;
    }
  }

  lemma ComplaintOverConcat(m: Module, a: seq<Visit>, b: seq<Visit>, resolver: Resolver)
    ensures var x, y := FirstComplaint(m, Agents(a), resolver), FirstComplaint(m, Agents(b), resolver);
      FirstComplaint(m, Agents(a + b), resolver) == if x != NoComplaint then x else y
  {
    AgentsConcat(a, b);
    FirstComplaintConcat(m, Agents(a), Agents(b), resolver);
  }

  /** The input-files walk reports the first offending step of the listing, and none exactly when no step offends. */
  lemma {:induction false} WalkReportsFirst(m: Module, nodes: seq<Node>, resolver: Resolver, judging: bool)
    ensures WalkInputFiles(m, nodes, resolver) == FirstComplaint(m, Agents(Visits(nodes, judging)), resolver)
    decreases nodes, 1
  {
    hide ComplaintOn;
    if nodes != [] {
      NodeReportsFirst(m, nodes[0], resolver, judging);
      WalkReportsFirst(m, nodes[1..], resolver, judging);
      ComplaintOverConcat(m, VisitsOf(nodes[0], judging), Visits(nodes[1..], judging), resolver);
    }
  }

  lemma {:induction false} NodeReportsFirst(m: Module, n: Node, resolver: Resolver, judging: bool)
    ensures WalkInputFilesNode(m, n, resolver) == FirstComplaint(m, Agents(VisitsOf(n, judging)), resolver)
    decreases n, 2
  {
    hide ComplaintOn;
    if n.Agent? {
      assert Agents([Visit(n, judging)]) == [n.step];
      assert FirstComplaint(m, [n.step], resolver) == ComplaintOn(m, n.step, resolver);
    } else if n.Call? {
      assert Agents([Visit(n, judging)]) == [];
    } else {
      VisitsOfBlocks(n, judging);
      var blocks := Blocks(n);
      forall k | 0 <= k < |blocks|
        ensures WalkInputFiles(m, blocks[k].nodes, resolver) == FirstComplaint(m, Agents(OwnVisits(n, k, judging)), resolver)
      {
        WalkReportsFirst(m, blocks[k].nodes, resolver, judging || blocks[k].evaluates);
      }
      if |blocks| >= 2 {
        ComplaintOverConcat(m, OwnVisits(n, 0, judging), OwnVisits(n, 1, judging), resolver);
      }
      if |blocks| == 3 {
        ComplaintOverConcat(m, OwnVisits(n, 0, judging) + OwnVisits(n, 1, judging), OwnVisits(n, 2, judging), resolver);
      }
    }
  }

  lemma {:induction false} SilentIffNoOffender(m: Module, steps: seq<AgentStep>, resolver: Resolver)
    ensures FirstComplaint(m, steps, resolver) == NoComplaint
      <==> forall s :: s in steps ==> ComplaintOn(m, s, resolver) == NoComplaint
  {
    hide ComplaintOn;
    if steps != [] {
      SilentIffNoOffender(m, steps[1..], resolver);
      assert forall s :: s in steps <==> s == steps[0] || s in steps[1..];
    }
  }

  // ---------------------------------------------------------------------------------------------
  // Credentials: one warning per reference

  type Environment = map<string, string>

  datatype Warning = Warning(id: string, ref: Ref, names: seq<string>)

  predicate CredentialPresent(names: seq<string>, env: Environment) {
    exists k :: 0 <= k < |names| && names[k] in env && env[names[k]] != ""
  }

  /** The reference resolves to an adapter that names credential variables, and none of them is set. */
  predicate Lacks(ref: Ref, resolver: Resolver, env: Environment) {
    ref in resolver && resolver[ref].credentials.Some? && !CredentialPresent(resolver[ref].credentials.value, env)
  }

  /** A warning for every one of these steps whose reference lacks credentials, in order, repetitions included. */
  function Due(m: Module, steps: seq<AgentStep>, resolver: Resolver, env: Environment): seq<Warning> {
    if steps == [] then [] else DueFor(m, steps[0], resolver, env) + Due(m, steps[1..], resolver, env)
  }

  function DueFor(m: Module, step: AgentStep, resolver: Resolver, env: Environment): seq<Warning> {
    var ref := RuntimeRef(m, step.uses);
    if Lacks(ref, resolver, env) then [Warning(step.id, ref, resolver[ref].credentials.value)] else []
  }

  lemma {:induction false} DueConcat(m: Module, a: seq<AgentStep>, b: seq<AgentStep>, resolver: Resolver, env: Environment)
    ensures Due(m, a + b, resolver, env) == Due(m, a, resolver, env) + Due(m, b, resolver, env)
  {
    hide DueFor;
    if a == [] {
      assert a + b == b;
    } else {
      DueConcat(m, a[1..], b, resolver, env);
      assert (a + b)[1..] == a[1..] + b;
      var first, rest := DueFor(m, a[0], resolver, env), Due(m, a[1..], resolver, env);
      assert first + (rest + Due(m, b, resolver, env)) == first + rest + Due(m, b, resolver, env);
    }
  }

  function RefsOf(lines: seq<Warning>): seq<Ref> {
    seq(|lines|, k requires 0 <= k < |lines| => lines[k].ref)
  }

  /** The first warning about each reference. */
  function KeepFirst(due: seq<Warning>): seq<Warning> {
    if due == [] then []
    else
      var front, last := due[..|due| - 1], due[|due| - 1];
      KeepFirst(front) + if last.ref in RefsOf(front) then [] else [last]
  }

  lemma KeepFirstSnoc(due: seq<Warning>, w: Warning)
    ensures KeepFirst(due + [w]) == KeepFirst(due) + if w.ref in RefsOf(due) then [] else [w]
    ensures RefsOf(due + [w]) == RefsOf(due) + [w.ref]
    ensures Elements(RefsOf(due + [w])) == Elements(RefsOf(due)) + {w.ref}
  {
    assert (due + [w])[..|due|] == due;
    DedupSnoc(RefsOf(due), w.ref);
  }

  /** What is written about a reference is the first warning due for it. */
  lemma {:induction false} KeptIsFirstDue(due: seq<Warning>, w: Warning)
    ensures w in KeepFirst(due) <==> exists k :: FirstDue(due, w, k)
  {
    if due != [] {
      var n := |due| - 1;
      var front, last := due[..n], due[n];
      KeptIsFirstDue(front, w);
      assert forall k :: k < n ==> (FirstDue(due, w, k) <==> FirstDue(front, w, k));
      assert last.ref in RefsOf(front) <==> exists i :: 0 <= i < n && RefsOf(front)[i] == last.ref;
      assert forall i :: 0 <= i < n ==> RefsOf(front)[i] == due[i].ref;
      assert FirstDue(due, w, n) <==> w == last && last.ref !in RefsOf(front);
    }
  }

  ghost predicate FirstDue(due: seq<Warning>, w: Warning, k: int) {
    0 <= k < |due| && due[k] == w && forall i :: 0 <= i < k ==> due[i].ref != w.ref
  }

  /** Every reference a warning is due for is warned about exactly once, in the order of first mention. */
  lemma {:induction false} OneWarningPerRef(due: seq<Warning>)
    ensures RefsOf(KeepFirst(due)) == Dedup(RefsOf(due))
  {
    if due != [] {
      var front, last := due[..|due| - 1], due[|due| - 1];
      OneWarningPerRef(front);
      KeepFirstSnoc(front, last);
      DedupSnoc(RefsOf(front), last.ref);
      assert due == front + [last];
      if last.ref !in RefsOf(front) {
        KeepFirstRefs(KeepFirst(front), last);
      }
    }
  }

  lemma KeepFirstRefs(lines: seq<Warning>, w: Warning)
    ensures RefsOf(lines + [w]) == RefsOf(lines) + [w.ref]
  {
  }

  /** The walk's `warned` set and what it wrote to stderr. */
  class Warnings {
    var warned: set<Ref>
    var lines: seq<Warning>

    /** Of the warnings due so far, the first one about each reference has been written, and no other. */
    ghost predicate Reported(due: seq<Warning>)
      reads this
    {
      lines == KeepFirst(due) && warned == Elements(RefsOf(due))
    }

    constructor ()
      ensures Reported([]) && lines == []
    {
      warned, lines := {}, [];
    }

    /** `walkCredentialNodes`: extends what has been reported by the warnings due in this part of the tree. */
    method Walk(m: Module, nodes: seq<Node>, resolver: Resolver, env: Environment, ghost judging: bool, ghost before: seq<Warning>)
      requires Reported(before)
      modifies this
      ensures Reported(before + Due(m, Agents(Visits(nodes, judging)), resolver, env))
      decreases nodes, 1
    {
      hide Reported, Due, KeepFirst, Lacks;
      NothingDue(m, resolver, env);
      assert before + [] == before;
      for i := 0 to |nodes|
        invariant Reported(before + Due(m, Agents(Visits(nodes[..i], judging)), resolver, env))
      {
        ghost var front := Visits(nodes[..i], judging);
        WalkNode(m, nodes[i], resolver, env, judging, before + Due(m, Agents(front), resolver, env));
        VisitsSnoc(nodes[..i], nodes[i], judging);
        assert nodes[..i + 1] == nodes[..i] + [nodes[i]];
        DueOverConcat(m, front, VisitsOf(nodes[i], judging), resolver, env, before);
      }
      assert nodes[..|nodes|] == nodes;
    }

    method WalkAgent(m: Module, step: AgentStep, resolver: Resolver, env: Environment, ghost judging: bool, ghost before: seq<Warning>)
      requires Reported(before)
      modifies this
      ensures Reported(before + Due(m, Agents(VisitsOf(Agent(step), judging)), resolver, env))
    {
      hide KeepFirst, Due, Lacks;
      var ref := RuntimeRef(m, step.uses);
      SingleAgent(m, Agent(step), judging, resolver, env);
      assert before + [] == before;
      if Lacks(ref, resolver, env) {
        LackingResolves(ref, resolver, env);
        KeepFirstSnoc(before, Warning(step.id, ref, resolver[ref].credentials.value));
      }
      if ref !in warned && Lacks(ref, resolver, env) {
        warned := warned + {ref};
        lines := lines + [Warning(step.id, ref, resolver[ref].credentials.value)];
      }
    }

    method WalkNode(m: Module, n: Node, resolver: Resolver, env: Environment, ghost judging: bool, ghost before: seq<Warning>)
      requires Reported(before)
      modifies this
      ensures Reported(before + Due(m, Agents(VisitsOf(n, judging)), resolver, env))
      decreases n, 2
    {
      hide Reported;
      if !n.Agent? && !n.Call? {
        VisitsOfBlocks(n, judging);
      }
      assert before + [] == before;
      match n {
        case Agent(step) =>
          WalkAgent(m, step, resolver, env, judging, before);
        case Call(_) =>
          assert Agents([Visit(n, judging)]) == [];
        case Plain =>
        case If(thn, els) =>
          Walk(m, thn, resolver, env, judging, before);
          Walk(m, els, resolver, env, judging, before + Due(m, Agents(Visits(thn, judging)), resolver, env));
          DueOverConcat(m, Visits(thn, judging), Visits(els, judging), resolver, env, before);
        case Loop(body) =>
          Walk(m, body, resolver, env, judging, before);
        case Try(attempt, handler, finish) =>
          Walk(m, attempt, resolver, env, judging, before);
          Walk(m, handler, resolver, env, judging, before + Due(m, Agents(Visits(attempt, judging)), resolver, env));
          DueOverConcat(m, Visits(attempt, judging), Visits(handler, judging), resolver, env, before);
          ghost var front := Visits(attempt, judging) + Visits(handler, judging);
          Walk(m, finish, resolver, env, judging, before + Due(m, Agents(front), resolver, env));
          DueOverConcat(m, front, Visits(finish, judging), resolver, env, before);
        case Parallel(branches) =>
          Walk(m, branches, resolver, env, judging, before);
        case Gate(generate, evaluate) =>
          Walk(m, generate, resolver, env, judging, before);
          Walk(m, evaluate, resolver, env, true, before + Due(m, Agents(Visits(generate, judging)), resolver, env));
          DueOverConcat(m, Visits(generate, judging), Visits(evaluate, true), resolver, env, before);
        case Map(body) =>
          Walk(m, body, resolver, env, judging, before);
        case Compose(body) =>
          Walk(m, body, resolver, env, judging, before);
      }
    }
  }

  lemma DueOverConcat(m: Module, a: seq<Visit>, b: seq<Visit>, resolver: Resolver, env: Environment, before: seq<Warning>)
    ensures before + Due(m, Agents(a + b), resolver, env)
      == before + Due(m, Agents(a), resolver, env) + Due(m, Agents(b), resolver, env)
  {
    AgentsConcat(a, b);
    DueConcat(m, Agents(a), Agents(b), resolver, env);
  }

  lemma NothingDue(m: Module, resolver: Resolver, env: Environment)
    ensures Due(m, Agents([]), resolver, env) == []
  {
  }

  lemma LackingResolves(ref: Ref, resolver: Resolver, env: Environment)
    requires Lacks(ref, resolver, env)
    ensures ref in resolver && resolver[ref].credentials.Some?
  {
  }

  lemma SingleAgent(m: Module, n: Node, judging: bool, resolver: Resolver, env: Environment)
    requires n.Agent?
    ensures var ref := RuntimeRef(m, n.step.uses);
      Due(m, Agents(VisitsOf(n, judging)), resolver, env)
      == if Lacks(ref, resolver, env) then [Warning(n.step.id, ref, resolver[ref].credentials.value)] else []
  {
    assert Agents([Visit(n, judging)]) == [n.step];
    assert Due(m, [n.step][1..], resolver, env) == [];
  }

  /** All warnings due for a definition, module by module in walk order. */
  function AllDue(modules: seq<Module>, resolver: Resolver, env: Environment): seq<Warning> {
    if modules == [] then []
    else
      var last := modules[|modules| - 1];
      AllDue(modules[..|modules| - 1], resolver, env) + Due(last, Agents(Visits(last.graph, false)), resolver, env)
  }

  /** `checkCredentialPresence`: every used, resolvable, credential-lacking reference is warned about exactly once, in the
      order in which the references first come up, across all modules. */
  method CheckCredentialPresence(modules: seq<Module>, resolver: Resolver, env: Environment) returns (lines: seq<Warning>)
    ensures lines == KeepFirst(AllDue(modules, resolver, env))
    ensures RefsOf(lines) == Dedup(RefsOf(AllDue(modules, resolver, env)))
  {
    var w := new Warnings();
    for i := 0 to |modules|
      invariant w.Reported(AllDue(modules[..i], resolver, env))
    {
      w.Walk(modules[i], modules[i].graph, resolver, env, false, AllDue(modules[..i], resolver, env));
      assert modules[..i + 1][..i] == modules[..i];
    }
    assert modules[..|modules|] == modules;
    OneWarningPerRef(AllDue(modules, resolver, env));
    return w.lines;
  }
}
