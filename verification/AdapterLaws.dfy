/** Which adapter each guard looks at, and what it says about it: a role of an imported module is looked up under the
    module's own reference, everything else under its bare name, and no other entry of the resolver matters. */
module AdapterLaws {
  import opened WorkflowTree
  import P = PersistentGuard
  import T = ThreadedGuard
  import W = StepWalks

  /** The resolver agrees with another one about every adapter the module can name. */
  ghost predicate SameFor(m: Module, r: Resolver, r': Resolver) {
    && (forall u :: m.id != "" && u in m.roles ==> SameEntry(r, r', Role(m.id, u)))
    && (forall u :: m.id == "" || u !in m.roles ==> SameEntry(r, r', Bare(u)))
  }

  ghost predicate SameEntry(r: Resolver, r': Resolver, ref: Ref) {
    (ref in r <==> ref in r') && (ref in r ==> r[ref] == r'[ref])
  }

  lemma SameLookup(m: Module, uses: string, r: Resolver, r': Resolver)
    requires SameFor(m, r, r')
    ensures SameEntry(r, r', RuntimeRef(m, uses))
  {
  }

  /** In an imported module that declares a role `u`, rebinding the bare name `u` is invisible. */
  lemma BareNameIsHidden(m: Module, u: string, r: Resolver, c: Capabilities)
    requires m.id != "" && u in m.roles
    ensures SameFor(m, r, r[Bare(u) := c])
  {
  }

  /** Rebinding the roles of one module is invisible in another, and in the root module. */
  lemma RolesAreLocal(m: Module, id: string, u: string, r: Resolver, c: Capabilities)
    requires m.id == "" || m.id != id
    ensures SameFor(m, r, r[Role(id, u) := c])
  {
  }

  // ----- the persistent-session guard -----

  /** What the guard says of a judging step in an imported module that declares its adapter as a role. */
  lemma JudgedAsRole(m: Module, step: AgentStep, r: Resolver)
    requires m.id != "" && step.uses in m.roles
    ensures var ref := Role(m.id, step.uses);
      P.CheckAgent(m, step, r) ==
        if ref !in r then P.AdapterNotFound(ref)
        else if r[ref].persistentSession then P.PersistentInEvaluate(step.id, ref)
        else P.Accept
  {
  }

  /** And of any other judging step. */
  lemma JudgedByName(m: Module, step: AgentStep, r: Resolver)
    requires m.id == "" || step.uses !in m.roles
    ensures var ref := Bare(step.uses);
      P.CheckAgent(m, step, r) ==
        if ref !in r then P.AdapterNotFound(ref)
        else if r[ref].persistentSession then P.PersistentInEvaluate(step.id, ref)
        else P.Accept
  {
  }

  /** Resolvers that agree for the modules of all judges get the same verdict. */
  lemma {:induction false} SameVerdictOnJudges(judges: seq<P.Judge>, r: Resolver, r': Resolver)
    requires forall k :: 0 <= k < |judges| ==> SameFor(judges[k].m, r, r')
    ensures P.FirstFault(judges, r) == P.FirstFault(judges, r')
  {
    hide SameFor;
    if judges != [] {
      SameLookup(judges[0].m, judges[0].step.uses, r, r');
      SameVerdictOnJudges(judges[1..], r, r');
    }
  }

  /** Resolvers that agree for every module of the definition get the same verdict from the whole guard. */
  lemma SameSessionVerdict(ld: Definition, rank: string -> nat, m: Module, nodes: seq<Node>, r: Resolver, r': Resolver, judging: bool)
    requires P.Ranked(ld, rank) && SameFor(m, r, r')
    requires forall k :: k in ld.modules ==> SameFor(k, r, r')
    ensures P.CheckNodes(ld, rank, m, nodes, r, judging) == P.CheckNodes(ld, rank, m, nodes, r', judging)
  {
    hide SameFor;
    var judges := P.Judges(ld, rank, m, Visits(nodes, judging));
    P.GuardFindsFirstFault(ld, rank, m, nodes, r, judging);
    P.GuardFindsFirstFault(ld, rank, m, nodes, r', judging);
    forall k | 0 <= k < |judges| ensures SameFor(judges[k].m, r, r') {
      JudgeIsLoaded(ld, rank, m, Visits(nodes, judging), judges[k]);
    }
    SameVerdictOnJudges(judges, r, r');
  }

  /** A judge stands in the module the guard started from, or in a loaded one. */
  lemma {:induction false} JudgeIsLoaded(ld: Definition, rank: string -> nat, m: Module, visits: seq<Visit>, j: P.Judge)
    requires P.Ranked(ld, rank) && j in P.Judges(ld, rank, m, visits)
    ensures j.m == m || j.m in ld.modules
    decreases rank(m.id), |visits|
  {
    var v := visits[0];
    if j in P.JudgesAt(ld, rank, m, v) {
      if v.node.Call? {
        var child := P.CallTarget(ld, ld.edges, m.id, v.node.callee).value;
        P.TargetRankFalls(ld, rank, ld.edges, m.id, v.node.callee);
        P.CallTargetIs(ld, ld.edges, m.id, v.node.callee);
        JudgeIsLoaded(ld, rank, child, Visits(child.graph, true), j);
      }
    } else {
      JudgeIsLoaded(ld, rank, m, visits[1..], j);
    }
  }

  // ----- the threading guard -----

  /** The reference a step of this module is looked up under. */
  function AdapterOf(m: Module, uses: string): Ref {
    if m.id == "" || uses !in m.roles then Bare(uses) else Role(m.id, uses)
  }

  /** What is wrong with a step, each kind exactly when: its adapter is missing, lacks the capability its place demands,
      or the step it continues has a missing or a session-keeping adapter. */
  lemma ThreadFaultIs(m: Module, step: AgentStep, r: Resolver, index: T.Index, judging: bool)
    requires step.continues != ""
    ensures var v, own := T.CheckStep(m, step, r, index, judging), AdapterOf(m, step.uses);
      && (own !in r ==> v == T.AdapterNotFound(own))
      && (own in r && judging && !r[own].contextEvidence ==> v == T.ContextEvidenceRequired(step.id, own))
      && (own in r && !judging && !r[own].threaded ==> v == T.ThreadedRequired(step.id, own))
      && (own in r && (if judging then r[own].contextEvidence else r[own].threaded) ==>
          if step.continues !in index then v == T.Accept
          else
            var target := AdapterOf(m, index[step.continues].uses);
            && (target !in r ==> v == T.AdapterNotFound(target))
            && (target in r && r[target].persistentSession ==> v == T.PersistentTarget(step.id, step.continues, target))
            && (target in r && !r[target].persistentSession ==> v == T.Accept))
  {
  }

  /** A step that continues nothing is never at fault. */
  lemma NotThreadedNotAtFault(m: Module, step: AgentStep, r: Resolver, index: T.Index, judging: bool)
    requires step.continues == ""
    ensures T.CheckStep(m, step, r, index, judging) == T.Accept
  {
  }

  lemma SameThreadFault(m: Module, v: Visit, r: Resolver, r': Resolver, index: T.Index)
    requires SameFor(m, r, r')
    ensures T.FaultAt(m, v, r, index) == T.FaultAt(m, v, r', index)
  {
    hide SameFor;
    if v.node.Agent? {
      SameLookup(m, v.node.step.uses, r, r');
      if v.node.step.continues in index {
        SameLookup(m, index[v.node.step.continues].uses, r, r');
      }
    }
  }

  lemma {:induction false} SameFirstThreadFault(m: Module, visits: seq<Visit>, r: Resolver, r': Resolver, index: T.Index)
    requires SameFor(m, r, r')
    ensures T.FirstFault(m, visits, r, index) == T.FirstFault(m, visits, r', index)
  {
    hide SameFor, T.FaultAt;
    if visits != [] {
      SameThreadFault(m, visits[0], r, r', index);
      SameFirstThreadFault(m, visits[1..], r, r', index);
    }
  }

  /** Resolvers that agree for the module get the same verdict on its whole tree. */
  lemma SameThreadVerdict(m: Module, nodes: seq<Node>, r: Resolver, r': Resolver, index: T.Index, judging: bool)
    requires SameFor(m, r, r')
    ensures T.CheckNodes(m, nodes, r, index, judging) == T.CheckNodes(m, nodes, r', index, judging)
  {
    hide SameFor;
    T.GuardFindsFirstFault(m, nodes, r, index, judging);
    T.GuardFindsFirstFault(m, nodes, r', index, judging);
    SameFirstThreadFault(m, Visits(nodes, judging), r, r', index);
  }

  // ----- the walks -----

  /** The input-files walk complains about a step exactly when it has input files, no container, and an adapter that
      resolves but does not inline files; and then it names the step and that adapter. */
  lemma ComplainsIff(m: Module, step: AgentStep, r: Resolver)
    ensures var ref := AdapterOf(m, step.uses);
      && (W.ComplaintOn(m, step, r) != W.NoComplaint <==>
          step.inputFiles != {} && step.container == "" && ref in r && !r[ref].inlineInputFiles)
      && (W.ComplaintOn(m, step, r) != W.NoComplaint ==> W.ComplaintOn(m, step, r) == W.Complaint(step.id, ref))
  {
  }

  /** The whole walk complains exactly when some such step stands in the tree, and it names the first one. */
  lemma {:induction false} WalkComplainsIff(m: Module, steps: seq<AgentStep>, r: Resolver)
    ensures W.FirstComplaint(m, steps, r) != W.NoComplaint <==> exists k :: Offends(m, steps, r, k)
    ensures forall k :: Offends(m, steps, r, k) && (forall i :: 0 <= i < k ==> !Offends(m, steps, r, i)) ==>
      W.FirstComplaint(m, steps, r) == W.Complaint(steps[k].id, AdapterOf(m, steps[k].uses))
  {
    hide W.ComplaintOn;
    if steps != [] {
      var rest := steps[1..];
      ComplainsIff(m, steps[0], r);
      WalkComplainsIff(m, rest, r);
      forall k ensures Offends(m, steps, r, k) <==> (k == 0 && Offends(m, steps, r, 0)) || Offends(m, rest, r, k - 1) {
      }
      if W.FirstComplaint(m, rest, r) != W.NoComplaint {
        var k :| Offends(m, rest, r, k);
        assert Offends(m, steps, r, k + 1);
      }
      FirstOffender(m, steps, r);
    }
  }

  lemma FirstOffender(m: Module, steps: seq<AgentStep>, r: Resolver)
    requires steps != []
    requires forall k :: Offends(m, steps[1..], r, k) && (forall i :: 0 <= i < k ==> !Offends(m, steps[1..], r, i)) ==>
      W.FirstComplaint(m, steps[1..], r) == W.Complaint(steps[1..][k].id, AdapterOf(m, steps[1..][k].uses))
    ensures forall k :: Offends(m, steps, r, k) && (forall i :: 0 <= i < k ==> !Offends(m, steps, r, i)) ==>
      W.FirstComplaint(m, steps, r) == W.Complaint(steps[k].id, AdapterOf(m, steps[k].uses))
  {
    hide W.ComplaintOn;
    var rest := steps[1..];
    ComplainsIff(m, steps[0], r);
    forall k | Offends(m, steps, r, k) && (forall i :: 0 <= i < k ==> !Offends(m, steps, r, i))
      ensures W.FirstComplaint(m, steps, r) == W.Complaint(steps[k].id, AdapterOf(m, steps[k].uses))
    {
      if k > 0 {
        assert Offends(m, rest, r, k - 1);
        assert !Offends(m, steps, r, 0);
        forall i | 0 <= i < k - 1 ensures !Offends(m, rest, r, i) {
          assert !Offends(m, steps, r, i + 1);
        }
      }
    }
  }

  ghost predicate Offends(m: Module, steps: seq<AgentStep>, r: Resolver, k: int) {
    && 0 <= k < |steps|
    && steps[k].inputFiles != {} && steps[k].container == ""
    && AdapterOf(m, steps[k].uses) in r && !r[AdapterOf(m, steps[k].uses)].inlineInputFiles
  }

  /** No variable that the step's adapter names is set to anything. */
  ghost predicate Unprovided(m: Module, step: AgentStep, r: Resolver, env: W.Environment) {
    var ref := AdapterOf(m, step.uses);
    && ref in r && r[ref].credentials.Some?
    && forall name :: name in r[ref].credentials.value ==> name !in env || env[name] == ""
  }

  /** A warning is due exactly for the steps whose adapter resolves, names variables, and finds none of them set; it names
      the step, the adapter and the variables. */
  lemma {:induction false} DueIff(m: Module, steps: seq<AgentStep>, r: Resolver, env: W.Environment, w: W.Warning)
    ensures w in W.Due(m, steps, r, env) <==>
      exists k :: 0 <= k < |steps| && Unprovided(m, steps[k], r, env) && WarnsOf(m, steps[k], r, w)
  {
    hide W.Lacks, Unprovided, WarnsOf;
    if steps != [] {
      var rest := steps[1..];
      DueIff(m, rest, r, env, w);
      DueAtFirst(m, steps, r, env, w);
      if k :| 0 <= k < |steps| && Unprovided(m, steps[k], r, env) && WarnsOf(m, steps[k], r, w) {
        if k > 0 {
          assert rest[k - 1] == steps[k];
        }
      }
      if k :| 0 <= k < |rest| && Unprovided(m, rest[k], r, env) && WarnsOf(m, rest[k], r, w) {
        assert steps[k + 1] == rest[k];
      }
    }
  }

  ghost predicate WarnsOf(m: Module, step: AgentStep, r: Resolver, w: W.Warning) {
    var ref := AdapterOf(m, step.uses);
    w.id == step.id && w.ref == ref && ref in r && r[ref].credentials == Some(w.names)
  }

  lemma DueAtFirst(m: Module, steps: seq<AgentStep>, r: Resolver, env: W.Environment, w: W.Warning)
    requires steps != []
    ensures w in W.Due(m, steps, r, env) <==>
      (Unprovided(m, steps[0], r, env) && WarnsOf(m, steps[0], r, w)) || w in W.Due(m, steps[1..], r, env)
  {
    var ref := RuntimeRef(m, steps[0].uses);
    assert W.Lacks(ref, r, env) <==> Unprovided(m, steps[0], r, env) by {
      if ref in r && r[ref].credentials.Some? {
        var names := r[ref].credentials.value;
        assert forall k :: 0 <= k < |names| ==> names[k] in names;
      }
    }
  }
}
