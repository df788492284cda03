/** What holds in every interleaving of `awf run` and `awf resume` processes, with a crash possible at every step. */
module RunExecutions {
  import opened RunLog
  import opened RunProtocol

  ghost predicate Execution(states: seq<State>, labels: seq<Label>) {
    && |states| == |labels| + 1
    && states[0] == INITIAL
    && forall i :: 0 <= i < |labels| ==> Enabled(states[i], labels[i]) && states[i + 1] == Next(states[i], labels[i])
  }

  lemma {:induction false} InvAlways(states: seq<State>, labels: seq<Label>, i: nat)
    requires Execution(states, labels) && i < |states|
    ensures Inv(states[i])
  {
    if i == 0 {
      InitialInv();
    } else {
      InvAlways(states, labels, i - 1);
      StepKeepsInv(states[i - 1], labels[i - 1]);
    }
  }

  /** Every log that exists in any reachable state is legal: it is empty or begins with its only `run.started`, its
      resume epochs count 2, 3, 4, ..., and so can always be folded by the next resume. */
  lemma ReachableLogsLegal(states: seq<State>, labels: seq<Label>, i: nat, f: FileId)
    requires Execution(states, labels) && i < |states| && f in states[i].files
    ensures var log := states[i].files[f];
      && Legal(log) && Foldable(log)
      && (forall k :: 0 <= k < |log| ==> (log[k].event == Started <==> k == 0))
      && ResumeEpochs(log) == seq(|ResumeEpochs(log)|, k requires 0 <= k => k + 2)
  {
    InvAlways(states, labels, i);
    LegalIsFoldable(states[i].files[f]);
    EpochsCountUp(states[i].files[f]);
  }

  /** At most one process is past the lock at any time. */
  lemma OneHolder(states: seq<State>, labels: seq<Label>, i: nat, p: Pid, q: Pid)
    requires Execution(states, labels) && i < |states|
    requires p in states[i].procs && q in states[i].procs
    requires HoldsLock(states[i].procs[p].pc) && HoldsLock(states[i].procs[q].pc)
    ensures p == q
  {
    InvAlways(states, labels, i);
    assert LockIsHeld(states[i]);
  }

  /** Logs are append-only, and only the lock holder appends: a step leaves a file alone or adds one record to it,
      written by the process that holds the lock at that moment. */
  lemma OnlyTheHolderAppends(states: seq<State>, labels: seq<Label>, i: nat, f: FileId)
    requires Execution(states, labels) && i < |labels| && f in states[i].files
    ensures f in states[i + 1].files
    ensures var before, after := states[i].files[f], states[i + 1].files[f];
      || after == before
      || (labels[i].Act? && states[i].lock == Some(labels[i].p)
          && exists r :: after == before + [r] && r.writer == labels[i].p)
  {
    InvAlways(states, labels, i);
    if labels[i].Act? {
      StepAppends(states[i], labels[i].p, labels[i].a, f);
    }
  }

  lemma StepAppends(s: State, p: Pid, a: Action, f: FileId)
    requires Inv(s) && Enabled(s, Act(p, a)) && f in s.files
    ensures var s' := Next(s, Act(p, a));
      && f in s'.files
      && (s'.files[f] == s.files[f]
          || (s.lock == Some(p) && exists r :: s'.files[f] == s.files[f] + [r] && r.writer == p))
  {
    var effect := MoveOf(s, p, a).effect;
    PendingMove(s, p, a);
    if effect.Write? {
      WriteIsLegal(s, p, a);
      assert LockIsHeld(s);
      if effect.f == f {
        var r := Record(effect.event, p, s.procs[p].command == ResumeCommand(true));
        assert Next(s, Act(p, a)).files[f] == s.files[f] + [r];
      }
    }
  }

  // ---------------------------------------------------------------------------------------------
  // Removal of the log

  /** The step takes away the name of a log that already holds `run.started`. */
  ghost predicate RemovesStartedLog(s: State, l: Label)
    requires Enabled(s, l)
  {
    && s.path.Some? && s.path.value in s.files && s.files[s.path.value] != []
    && Next(s, l).path != s.path
  }

  /** The step is the cleanup of an `awf run` whose fsync of `run.started` failed after the append had landed. */
  ghost predicate CleansUpAfterFailedSync(s: State, l: Label)
    requires Enabled(s, l)
  {
    l.Act? && l.a == Unlink && s.procs[l.p].pc.RunRemoving? && s.procs[l.p].pc.landed
  }

  /** A log that holds `run.started` loses its name exactly in that cleanup, which looks at a flag that only a
      successful fsync sets. */
  lemma StartedLogRemovedIff(states: seq<State>, labels: seq<Label>, i: nat)
    requires Execution(states, labels) && i < |labels|
    ensures RemovesStartedLog(states[i], labels[i]) <==> CleansUpAfterFailedSync(states[i], labels[i])
  {
    InvAlways(states, labels, i);
    if labels[i].Act? {
      StepRemovesIff(states[i], labels[i].p, labels[i].a);
    }
  }

  lemma StepRemovesIff(s: State, p: Pid, a: Action)
    requires Inv(s) && Enabled(s, Act(p, a))
    ensures RemovesStartedLog(s, Act(p, a)) <==> CleansUpAfterFailedSync(s, Act(p, a))
  {
    PendingMove(s, p, a);
    assert Knows(s, p, s.procs[p].pc);
    assert CreatorOwnsName(s);
  }

  /** `awf run` gives up because the fsync of `run.started` failed. */
  ghost predicate SyncFails(s: State, l: Label)
    requires Enabled(s, l)
  {
    l.Act? && l.a == Fail && s.procs[l.p].pc.RunAppended?
  }

  /** Nothing else leads to that cleanup. */
  lemma {:induction false} LandedMeansSyncFailed(states: seq<State>, labels: seq<Label>, i: nat, p: Pid)
    requires Execution(states, labels) && i < |states| && p in states[i].procs
    requires GaveUpLanded(states[i].procs[p].pc)
    ensures exists j :: 0 <= j < i && labels[j].Act? && labels[j].p == p && SyncFails(states[j], labels[j])
  {
    var s, l := states[i - 1], labels[i - 1];
    if l.Act? && l.p == p {
      LandedMove(s, p, l.a);
    }
    hide Program;
    if !(l.Act? && l.p == p && SyncFails(s, l)) {
      LandedMeansSyncFailed(states, labels, i - 1, p);
    }
  }

  ghost predicate GaveUpLanded(pc: Pc) {
    (pc.RunReleasing? || pc.RunRemoving?) && pc.landed
  }

  lemma LandedMove(s: State, p: Pid, a: Action)
    requires Enabled(s, Act(p, a)) && GaveUpLanded(MoveOf(s, p, a).pc)
    ensures GaveUpLanded(s.procs[p].pc) || SyncFails(s, Act(p, a))
  {
  }

  ghost predicate NoSyncFails(states: seq<State>, labels: seq<Label>)
    requires Execution(states, labels)
  {
    forall i :: 0 <= i < |labels| ==> !SyncFails(states[i], labels[i])
  }

  /** While no fsync of `run.started` fails, a log with events never loses its name: in every state, every file that
      holds an event stands at the log path. So there is only one, and whoever drives the run writes to it. */
  lemma {:induction false} HistoryKeepsItsName(states: seq<State>, labels: seq<Label>, i: nat, f: FileId)
    requires Execution(states, labels) && NoSyncFails(states, labels)
    requires i < |states| && f in states[i].files && states[i].files[f] != []
    ensures states[i].path == Some(f)
  {
    hide Inv, Next, Enabled, SyncFails, CleansUpAfterFailedSync;
    var s, l := states[i - 1], labels[i - 1];
    InvAlways(states, labels, i - 1);
    if f in s.files && s.files[f] != [] {
      HistoryKeepsItsName(states, labels, i - 1, f);
    }
    NeverCleansUp(states, labels, i - 1);
    NamedAfterStep(s, l, f);
  }

  lemma NeverCleansUp(states: seq<State>, labels: seq<Label>, i: nat)
    requires Execution(states, labels) && NoSyncFails(states, labels) && i < |labels|
    ensures !CleansUpAfterFailedSync(states[i], labels[i])
  {
    hide Next, Program, SyncFails;
    if CleansUpAfterFailedSync(states[i], labels[i]) {
      LandedMeansSyncFailed(states, labels, i, labels[i].p);
    }
  }

  lemma NamedAfterStep(s: State, l: Label, f: FileId)
    requires Inv(s) && Enabled(s, l) && !CleansUpAfterFailedSync(s, l)
    requires f in s.files && s.files[f] != [] ==> s.path == Some(f)
    requires f in Next(s, l).files && Next(s, l).files[f] != []
    ensures Next(s, l).path == Some(f)
  {
    if l.Act? && !(f in s.files && s.files[f] != []) {
      FirstEventIsNamed(s, l.p, l.a, f);
    } else {
      NameStays(s, l, f);
    }
  }

  lemma NameStays(s: State, l: Label, f: FileId)
    requires Inv(s) && Enabled(s, l) && !CleansUpAfterFailedSync(s, l)
    requires s.path == Some(f) && f in s.files && s.files[f] != []
    ensures Next(s, l).path == Some(f)
  {
    if l.Act? {
      StepRemovesIff(s, l.p, l.a);
    }
  }

  /** The first event of a file is written while the file stands at the log path. */
  lemma FirstEventIsNamed(s: State, p: Pid, a: Action, f: FileId)
    requires Inv(s) && Enabled(s, Act(p, a)) && (f !in s.files || s.files[f] == [])
    requires f in Next(s, Act(p, a)).files && Next(s, Act(p, a)).files[f] != []
    ensures Next(s, Act(p, a)).path == s.path == Some(f)
  {
    if MoveOf(s, p, a).effect.Write? {
      WriteIsLegal(s, p, a);
      assert CreatorOwnsName(s);
    }
    hide Program, AllKnow, LogsLegal, LockIsHeld;
  }

  /** Events stay: what a log held in one state it holds, as a prefix, in every later one. */
  lemma {:induction false} LogsOnlyGrow(states: seq<State>, labels: seq<Label>, i: nat, j: nat, f: FileId)
    requires Execution(states, labels) && i <= j < |states| && f in states[i].files
    ensures f in states[j].files && states[i].files[f] <= states[j].files[f]
    decreases j
  {
    if i < j {
      LogsOnlyGrow(states, labels, i, j - 1, f);
      OnlyTheHolderAppends(states, labels, j - 1, f);
    }
  }

  // ---------------------------------------------------------------------------------------------
  // Refusals

  /** Every record was written by a known process whose program point admits it, and every program point that claims
      to have written has a record to show. */
  ghost predicate TracesMatch(s: State) {
    && (forall f, k :: f in s.files && 0 <= k < |s.files[f]| ==> s.files[f][k].writer in s.procs && Wrote(s.procs[s.files[f][k].writer].pc))
    && (forall p :: p in s.procs && Wrote(s.procs[p].pc) ==> HasTrace(s, p))
  }

  ghost predicate HasTrace(s: State, p: Pid) {
    exists f, k :: f in s.files && 0 <= k < |s.files[f]| && s.files[f][k].writer == p
  }

  /** A process that gave up without writing (a refused resume, a run that lost the race) left no event in any log, and
      a process that wrote is on record. */
  lemma {:induction false} RefusalLeavesNoTrace(states: seq<State>, labels: seq<Label>, i: nat, p: Pid)
    requires Execution(states, labels) && i < |states| && p in states[i].procs
    ensures Wrote(states[i].procs[p].pc) <==> HasTrace(states[i], p)
  {
    TracesAlwaysMatch(states, labels, i);
  }

  lemma {:induction false} TracesAlwaysMatch(states: seq<State>, labels: seq<Label>, i: nat)
    requires Execution(states, labels) && i < |states|
    ensures TracesMatch(states[i])
  {
    if i > 0 {
      TracesAlwaysMatch(states, labels, i - 1);
      InvAlways(states, labels, i - 1);
      StepKeepsTraces(states[i - 1], labels[i - 1]);
    }
  }

  /** A process writes with the move after which it says so, and never takes it back. */
  lemma WroteMove(s: State, p: Pid, a: Action)
    requires Enabled(s, Act(p, a))
    ensures var pc, move := s.procs[p].pc, MoveOf(s, p, a);
      Wrote(move.pc) <==> Wrote(pc) || move.effect.Write?
  {
  }

  lemma StepKeepsTraces(s: State, l: Label)
    requires Inv(s) && TracesMatch(s) && Enabled(s, l)
    ensures TracesMatch(Next(s, l))
  {
    match l
    case Act(p, a) =>
      RecordsAfterStep(s, p, a);
      ProcessesAfterStep(s, p, a);
      hide Next, MoveOf, Wrote, Inv, HasTrace;
      forall q | q in Next(s, l).procs && Wrote(Next(s, l).procs[q].pc) ensures HasTrace(Next(s, l), q) {
        TraceAfterStep(s, p, a, q);
      }
    case Spawn(p, command) =>
      SpawnKeepsTraces(s, p, command);
  }

  lemma SpawnKeepsTraces(s: State, p: Pid, command: Command)
    requires TracesMatch(s) && Enabled(s, Spawn(p, command))
    ensures TracesMatch(Next(s, Spawn(p, command)))
  {
    var s' := Next(s, Spawn(p, command));
    forall q | q in s'.procs && Wrote(s'.procs[q].pc) ensures HasTrace(s', q) {
      assert HasTrace(s, q);
    }
  }

  lemma RecordsAfterStep(s: State, p: Pid, a: Action)
    requires Inv(s) && TracesMatch(s) && Enabled(s, Act(p, a))
    ensures var s' := Next(s, Act(p, a));
      forall f, k :: f in s'.files && 0 <= k < |s'.files[f]| ==>
        s'.files[f][k].writer in s'.procs && Wrote(s'.procs[s'.files[f][k].writer].pc)
  {
    var s' := Next(s, Act(p, a));
    WroteMove(s, p, a);
    ProcessesAfterStep(s, p, a);
    hide Next, MoveOf, Wrote, Inv;
    forall f, k | f in s'.files && 0 <= k < |s'.files[f]|
      ensures s'.files[f][k].writer in s'.procs && Wrote(s'.procs[s'.files[f][k].writer].pc)
    {
      RecordAfterStep(s, p, a, f, k);
    }
  }

  lemma ProcessesAfterStep(s: State, p: Pid, a: Action)
    requires Enabled(s, Act(p, a))
    ensures var s' := Next(s, Act(p, a));
      && s'.procs.Keys == s.procs.Keys
      && s'.procs[p].pc == MoveOf(s, p, a).pc
      && (forall q :: q in s.procs && q != p ==> s'.procs[q] == s.procs[q])
  {
  }

  /** A record after the step was there before, or is the one just written. */
  lemma RecordAfterStep(s: State, p: Pid, a: Action, f: FileId, k: nat)
    requires Inv(s) && Enabled(s, Act(p, a))
    requires f in Next(s, Act(p, a)).files && k < |Next(s, Act(p, a)).files[f]|
    ensures var r := Next(s, Act(p, a)).files[f][k];
      || (f in s.files && k < |s.files[f]| && r == s.files[f][k])
      || (MoveOf(s, p, a).effect.Write? && r.writer == p)
  {
    hide Program, AllKnow, LogsLegal, LockIsHeld, CreatorOwnsName, Legal, Knows, HoldsLock;
    if MoveOf(s, p, a).effect.Write? {
      WriteIsLegal(s, p, a);
    }
  }

  lemma TraceAfterStep(s: State, p: Pid, a: Action, q: Pid)
    requires Inv(s) && TracesMatch(s) && Enabled(s, Act(p, a)) && q in s.procs
    requires q in Next(s, Act(p, a)).procs && Wrote(Next(s, Act(p, a)).procs[q].pc)
    ensures HasTrace(Next(s, Act(p, a)), q)
  {
    WroteMove(s, p, a);
    ProcessesAfterStep(s, p, a);
    if q == p && MoveOf(s, p, a).effect.Write? {
      WriterHasTrace(s, p, a);
    } else {
      hide Next, MoveOf, Wrote, Inv, HasTrace;
      assert HasTrace(s, q);
      OldTraceStays(s, p, a, q);
    }
  }

  lemma OldTraceStays(s: State, p: Pid, a: Action, q: Pid)
    requires Inv(s) && Enabled(s, Act(p, a)) && HasTrace(s, q)
    ensures HasTrace(Next(s, Act(p, a)), q)
  {
    hide Next, Inv;
    var f, k :| f in s.files && 0 <= k < |s.files[f]| && s.files[f][k].writer == q;
    StepAppends(s, p, a, f);
    assert Next(s, Act(p, a)).files[f][k] == s.files[f][k];
  }

  lemma WriterHasTrace(s: State, p: Pid, a: Action)
    requires Inv(s) && Enabled(s, Act(p, a)) && MoveOf(s, p, a).effect.Write?
    ensures HasTrace(Next(s, Act(p, a)), p)
  {
    var f := MoveOf(s, p, a).effect.f;
    WriteIsLegal(s, p, a);
    assert Next(s, Act(p, a)).files[f][|s.files[f]|].writer == p;
  }

  // ---------------------------------------------------------------------------------------------
  // The condition is needed

  const FIRST := [Record(Started, 0, false)]
  const SECOND := FIRST + [Record(Resumed(2), 1, false)]

  /** Process 0 is an `awf run` at `pc0`; file 0 holds `log` and process 1 does not exist yet. */
  function One(log: Log, lock: Option<Pid>, pc0: Pc): State {
    State(map[0 := log], Some(0), lock, map[0 := Process(RunCommand, pc0)])
  }

  /** Process 1 is an `awf resume` at `pc1`. */
  function Two(log: Log, lock: Option<Pid>, pc0: Pc, pc1: Pc): State {
    State(map[0 := log], Some(0), lock, map[0 := Process(RunCommand, pc0), 1 := Process(ResumeCommand(false), pc1)])
  }

  /** `Next(s, l)` is `s'`. */
  ghost predicate Goes(s: State, l: Label, s': State) {
    Enabled(s, l) && Next(s, l) == s'
  }

  lemma RunStarts()
    ensures var s1 := State(map[], None, None, map[0 := Process(RunCommand, RunStart)]);
      && Goes(INITIAL, Spawn(0, RunCommand), s1)
      && Goes(s1, Act(0, Create(0)), One([], None, RunCreated(0)))
      && Goes(One([], None, RunCreated(0)), Act(0, Acquire), One([], Some(0), RunLocked(0)))
  {
  }

  lemma RunFailsItsSync()
    ensures Goes(One([], Some(0), RunLocked(0)), Act(0, Append), One(FIRST, Some(0), RunAppended(0)))
    ensures Goes(One(FIRST, Some(0), RunAppended(0)), Act(0, Fail), One(FIRST, Some(0), RunReleasing(0, true)))
    ensures Goes(One(FIRST, Some(0), RunReleasing(0, true)), Act(0, Release), One(FIRST, None, RunRemoving(0, true)))
  {
    assert [] + FIRST == FIRST;
  }

  lemma ResumeLocksIn()
    ensures var r := RunRemoving(0, true);
      && Goes(One(FIRST, None, r), Spawn(1, ResumeCommand(false)), Two(FIRST, None, r, ResumeStart))
      && Goes(Two(FIRST, None, r, ResumeStart), Act(1, Stat), Two(FIRST, None, r, ResumeStated))
      && Goes(Two(FIRST, None, r, ResumeStated), Act(1, Acquire), Two(FIRST, Some(1), r, ResumeLocked))
      && Goes(Two(FIRST, Some(1), r, ResumeLocked), Act(1, Open), Two(FIRST, Some(1), r, ResumeOpened(0)))
  {
  }

  lemma ResumeSlipsIn()
    ensures var r := RunRemoving(0, true);
      && Goes(Two(FIRST, Some(1), r, ResumeOpened(0)), Act(1, Fold), Two(FIRST, Some(1), r, ResumeFolded(0, FIRST)))
      && Goes(Two(FIRST, Some(1), r, ResumeFolded(0, FIRST)), Act(1, Admit), Two(FIRST, Some(1), r, ResumeAdmitted(0, FIRST)))
      && Goes(Two(FIRST, Some(1), r, ResumeAdmitted(0, FIRST)), Act(1, Append), Two(SECOND, Some(1), r, ResumeAppended(0)))
  {
    assert LatestFinished(FIRST) == None && FoldEpoch(FIRST) == 1;
  }

  ghost predicate Reachable(s: State) {
    exists states, labels :: Execution(states, labels) && states[|labels|] == s
  }

  lemma ReachesNext(s: State, l: Label, s': State)
    requires Reachable(s) && Goes(s, l, s')
    ensures Reachable(s')
  {
    var states, labels :| Execution(states, labels) && states[|labels|] == s;
    hide Enabled, Next;
    assert Execution(states + [s'], labels + [l]);
  }

  lemma InitialIsReachable()
    ensures Reachable(INITIAL)
  {
    assert Execution([INITIAL], []);
  }

  lemma StartedRunAboutToBeRemoved()
    ensures Reachable(One(FIRST, None, RunRemoving(0, true)))
  {
    InitialIsReachable();
    RunStarts();
    RunFailsItsSync();
    hide One, Goes, Reachable;
    var s1 := State(map[], None, None, map[0 := Process(RunCommand, RunStart)]);
    ReachesNext(INITIAL, Spawn(0, RunCommand), s1);
    ReachesNext(s1, Act(0, Create(0)), One([], None, RunCreated(0)));
    ReachesNext(One([], None, RunCreated(0)), Act(0, Acquire), One([], Some(0), RunLocked(0)));
    ReachesNext(One([], Some(0), RunLocked(0)), Act(0, Append), One(FIRST, Some(0), RunAppended(0)));
    ReachesNext(One(FIRST, Some(0), RunAppended(0)), Act(0, Fail), One(FIRST, Some(0), RunReleasing(0, true)));
    ReachesNext(One(FIRST, Some(0), RunReleasing(0, true)), Act(0, Release), One(FIRST, None, RunRemoving(0, true)));
  }

  lemma ResumeDrivesIt()
    ensures Reachable(Two(SECOND, Some(1), RunRemoving(0, true), ResumeAppended(0)))
  {
    StartedRunAboutToBeRemoved();
    ResumeLocksIn();
    ResumeSlipsIn();
    hide One, Two, Goes, Reachable;
    var r := RunRemoving(0, true);
    ReachesNext(One(FIRST, None, r), Spawn(1, ResumeCommand(false)), Two(FIRST, None, r, ResumeStart));
    ReachesNext(Two(FIRST, None, r, ResumeStart), Act(1, Stat), Two(FIRST, None, r, ResumeStated));
    ReachesNext(Two(FIRST, None, r, ResumeStated), Act(1, Acquire), Two(FIRST, Some(1), r, ResumeLocked));
    ReachesNext(Two(FIRST, Some(1), r, ResumeLocked), Act(1, Open), Two(FIRST, Some(1), r, ResumeOpened(0)));
    ReachesNext(Two(FIRST, Some(1), r, ResumeOpened(0)), Act(1, Fold), Two(FIRST, Some(1), r, ResumeFolded(0, FIRST)));
    ReachesNext(Two(FIRST, Some(1), r, ResumeFolded(0, FIRST)), Act(1, Admit), Two(FIRST, Some(1), r, ResumeAdmitted(0, FIRST)));
    ReachesNext(Two(FIRST, Some(1), r, ResumeAdmitted(0, FIRST)), Act(1, Append), Two(SECOND, Some(1), r, ResumeAppended(0)));
  }

  /** One failed fsync is enough: the cleanup of the failed run takes the name away from a log that a resume,
      let in by the earlier lock release, is already driving. */
  lemma FailedSyncCanLoseALiveRun()
    ensures exists s: State, p: Pid ::
      && Reachable(s) && p in s.procs && s.procs[p].pc.ResumeAppended? && s.lock == Some(p)
      && Enabled(s, Act(0, Unlink)) && RemovesStartedLog(s, Act(0, Unlink))
      && s.path == Some(s.procs[p].pc.f)
  {
    var s := Two(SECOND, Some(1), RunRemoving(0, true), ResumeAppended(0));
    ResumeDrivesIt();
    hide Reachable;
    assert RemovesStartedLog(s, Act(0, Unlink));
    assert 1 in s.procs;
  }
}
