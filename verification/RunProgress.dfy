/** What the protocol lets happen: a free run id can be claimed, an admissible run can always be re-entered, and every
    terminal result of the engine gets into the log. */
module RunProgress {
  import opened RunLog
  import opened RunProtocol
  import opened RunExecutions

  /** The result pairs the engine may end a run with: ok without an error, or one of the three failures with one. */
  ghost predicate EndsRun(o: Outcome, err: RunError) {
    (o == Ok && err == NoError) || ((o == RetryableFailure || o == PermanentFailure || o == Rejected) && err != NoError)
  }

  /** Process `p` at `pc`, the lock as given, everything else as in `s`. */
  function With(s: State, p: Pid, command: Command, pc: Pc, lock: Option<Pid>): State {
    s.(procs := s.procs[p := Process(command, pc)], lock := lock)
  }

  function Writes(s: State, f: FileId, r: Record): State {
    s.(files := s.files[f := (if f in s.files then s.files[f] else []) + [r]])
  }

  /** A returned result goes on to be recorded exactly when it is one of these pairs; else nothing more is written. */
  lemma ReturnLeadsTo(s: State, p: Pid, f: FileId, r: EngineResult)
    requires p in s.procs && s.procs[p].pc == Engine(f, Running)
    ensures Goes(s, Act(p, Return(r)), With(s, p, s.procs[p].command,
      if r.outcome.Some? && EndsRun(r.outcome.value, r.err) then Finishing(f, r.outcome.value) else Exiting(true), s.lock))
  {
  }

  lemma FinishLands(s: State, p: Pid, f: FileId, o: Outcome)
    requires p in s.procs && s.procs[p].pc == Finishing(f, o)
    ensures var c := s.procs[p].command;
      Goes(s, Act(p, Append), Writes(With(s, p, c, Exiting(true), s.lock), f, Record(Finished(o), p, c == ResumeCommand(true))))
  {
  }

  lemma ExitLands(s: State, p: Pid)
    requires p in s.procs && s.procs[p].pc == Exiting(true)
    ensures Goes(s, Act(p, Release), With(s, p, s.procs[p].command, Exited(true), None))
  {
  }

  /** Whatever terminal result the engine returns, the run can end with exactly that `run.finished` behind its log, the
      lock free and nothing else changed. */
  lemma EveryOutcomeIsRecorded(s: State, p: Pid, f: FileId, o: Outcome, err: RunError)
    requires Reachable(s) && p in s.procs && s.procs[p].pc == Engine(f, Running)
    requires (o == Ok && err == NoError) || (o in {RetryableFailure, PermanentFailure, Rejected} && err != NoError)
    ensures var c := s.procs[p].command;
      Reachable(Writes(With(s, p, c, Exited(true), None), f, Record(Finished(o), p, c == ResumeCommand(true))))
  {
    hide Reachable, Goes;
    var c := s.procs[p].command;
    var r := EngineResult(Some(o), err);
    var s1 := With(s, p, c, Finishing(f, o), s.lock);
    ReturnLeadsTo(s, p, f, r);
    FinishLands(s1, p, f, o);
    var record := Record(Finished(o), p, c == ResumeCommand(true));
    var s2 := Writes(With(s1, p, c, Exiting(true), s.lock), f, record);
    ExitLands(s2, p);
    var s3 := With(s2, p, c, Exited(true), None);
    ReachesNext(s, Act(p, Return(r)), s1);
    ReachesNext(s1, Act(p, Append), s2);
    ReachesNext(s2, Act(p, Release), s3);
    assert s3 == Writes(With(s, p, c, Exited(true), None), f, record);
  }

  // ----- starting -----

  /** Process `p` is an `awf run` at `pc` that put a new file with this log at the log path. */
  function Claimed(s: State, p: Pid, f: FileId, pc: Pc, log: Log, lock: Option<Pid>): State {
    With(s, p, RunCommand, pc, lock).(files := s.files[f := log], path := Some(f))
  }

  lemma RunClaims(s: State, p: Pid, f: FileId)
    requires p !in s.procs && s.path == None && s.lock == None && f !in s.files
    ensures var s1 := With(s, p, RunCommand, RunStart, None);
      && Goes(s, Spawn(p, RunCommand), s1)
      && Goes(s1, Act(p, Create(f)), Claimed(s, p, f, RunCreated(f), [], None))
      && Goes(Claimed(s, p, f, RunCreated(f), [], None), Act(p, Acquire), Claimed(s, p, f, RunLocked(f), [], Some(p)))
  {
  }

  lemma RunRecordsItsStart(s: State, p: Pid, f: FileId)
    ensures var first := [Record(Started, p, false)];
      && Goes(Claimed(s, p, f, RunLocked(f), [], Some(p)), Act(p, Append), Claimed(s, p, f, RunAppended(f), first, Some(p)))
      && Goes(Claimed(s, p, f, RunAppended(f), first, Some(p)), Act(p, Sync), Claimed(s, p, f, Engine(f, Running), first, Some(p)))
  {
    assert [] + [Record(Started, p, false)] == [Record(Started, p, false)];
  }

  /** A free run id can be claimed: the new log holds `run.started` and its writer drives the engine. */
  lemma FreeIdCanBeClaimed(s: State, p: Pid, f: FileId)
    requires Reachable(s) && p !in s.procs && s.path == None && s.lock == None && f !in s.files
    ensures Reachable(Claimed(s, p, f, Engine(f, Running), [Record(Started, p, false)], Some(p)))
  {
    RunClaims(s, p, f);
    RunRecordsItsStart(s, p, f);
    hide Reachable, Goes, With, Claimed;
    var s1 := With(s, p, RunCommand, RunStart, None);
    var first := [Record(Started, p, false)];
    ReachesNext(s, Spawn(p, RunCommand), s1);
    ReachesNext(s1, Act(p, Create(f)), Claimed(s, p, f, RunCreated(f), [], None));
    ReachesNext(Claimed(s, p, f, RunCreated(f), [], None), Act(p, Acquire), Claimed(s, p, f, RunLocked(f), [], Some(p)));
    ReachesNext(Claimed(s, p, f, RunLocked(f), [], Some(p)), Act(p, Append), Claimed(s, p, f, RunAppended(f), first, Some(p)));
    ReachesNext(Claimed(s, p, f, RunAppended(f), first, Some(p)), Act(p, Sync), Claimed(s, p, f, Engine(f, Running), first, Some(p)));
  }

  // ----- resuming -----

  /** A folded, non-empty log is admitted exactly for `--from`, or when its latest `run.finished` is not ok. */
  lemma AdmittedIff(s: State, p: Pid, f: FileId, folded: Log, from: bool)
    requires p in s.procs && s.procs[p] == Process(ResumeCommand(from), ResumeFolded(f, folded)) && folded != []
    ensures Enabled(s, Act(p, Admit)) <==> from || !exists i :: LastFinish(folded, i, Ok)
  {
    LatestFinishedIs(folded, Ok);
  }

  /** The log at the path can be folded exactly when it is empty or begins with its only `run.started`. */
  lemma FoldedIff(s: State, p: Pid, f: FileId, g: FileId)
    requires p in s.procs && s.procs[p].pc == ResumeOpened(f) && s.path == Some(g) && g in s.files
    ensures Enabled(s, Act(p, Fold)) <==>
      s.files[g] == [] || forall i :: 0 <= i < |s.files[g]| ==> (s.files[g][i].event == Started <==> i == 0)
  {
    var log := s.files[g];
    assert log != [] && (forall i :: 0 <= i < |log| ==> (log[i].event == Started <==> i == 0)) ==> log[0].event == Started;
  }

  lemma ResumeOpens(s: State, p: Pid, f: FileId, c: Command)
    requires p !in s.procs && s.path == Some(f) && s.lock == None && c.ResumeCommand?
    ensures Goes(s, Spawn(p, c), With(s, p, c, ResumeStart, None))
    ensures Goes(With(s, p, c, ResumeStart, None), Act(p, Stat), With(s, p, c, ResumeStated, None))
    ensures Goes(With(s, p, c, ResumeStated, None), Act(p, Acquire), With(s, p, c, ResumeLocked, Some(p)))
    ensures Goes(With(s, p, c, ResumeLocked, Some(p)), Act(p, Open), With(s, p, c, ResumeOpened(f), Some(p)))
  {
  }

  lemma ResumeReads(s: State, p: Pid, f: FileId, c: Command)
    requires s.path == Some(f) && f in s.files && Foldable(s.files[f]) && s.files[f] != []
    requires c == ResumeCommand(true) || (c == ResumeCommand(false) && Admits(s.files[f]))
    ensures var log := s.files[f];
      && Goes(With(s, p, c, ResumeOpened(f), Some(p)), Act(p, Fold), With(s, p, c, ResumeFolded(f, log), Some(p)))
      && Goes(With(s, p, c, ResumeFolded(f, log), Some(p)), Act(p, Admit), With(s, p, c, ResumeAdmitted(f, log), Some(p)))
  {
    hide Foldable, Admits;
  }

  lemma ResumeRecords(s: State, p: Pid, f: FileId, c: Command)
    requires f in s.files
    ensures var r := Record(Resumed(FoldEpoch(s.files[f]) + 1), p, c == ResumeCommand(true));
      && Goes(With(s, p, c, ResumeAdmitted(f, s.files[f]), Some(p)), Act(p, Append), Writes(With(s, p, c, ResumeAppended(f), Some(p)), f, r))
      && Goes(Writes(With(s, p, c, ResumeAppended(f), Some(p)), f, r), Act(p, Sync), Writes(With(s, p, c, Engine(f, Running), Some(p)), f, r))
  {
    hide FoldEpoch;
  }

  lemma ReachableIsSound(s: State)
    requires Reachable(s)
    ensures Inv(s)
  {
    var states, labels :| Execution(states, labels) && states[|labels|] == s;
    InvAlways(states, labels, |labels|);
  }

  /** A run that nobody drives can always be resumed, unless it ended ok and `--from` is not given: the log grows by
      exactly the next epoch's `run.resumed`, and its writer drives the engine. */
  lemma IdleRunCanBeResumed(s: State, p: Pid, f: FileId, from: bool)
    requires Reachable(s) && p !in s.procs && s.lock == None
    requires s.path == Some(f) && f in s.files && s.files[f] != []
    requires from || !exists i :: LastFinish(s.files[f], i, Ok)
    ensures Reachable(Writes(With(s, p, ResumeCommand(from), Engine(f, Running), Some(p)), f,
      Record(Resumed(|ResumeEpochs(s.files[f])| + 2), p, from)))
  {
    var c, log := ResumeCommand(from), s.files[f];
    ReachableIsSound(s);
    assert Legal(log);
    LegalIsFoldable(log);
    EpochsCountUp(log);
    LatestFinishedIs(log, Ok);
    ResumeOpens(s, p, f, c);
    ResumeReads(s, p, f, c);
    ResumeRecords(s, p, f, c);
    hide Reachable, Goes, Inv, Legal, Foldable, LastFinish, With, Writes;
    var r := Record(Resumed(FoldEpoch(log) + 1), p, from);
    ReachesNext(s, Spawn(p, c), With(s, p, c, ResumeStart, None));
    ReachesNext(With(s, p, c, ResumeStart, None), Act(p, Stat), With(s, p, c, ResumeStated, None));
    ReachesNext(With(s, p, c, ResumeStated, None), Act(p, Acquire), With(s, p, c, ResumeLocked, Some(p)));
    ReachesNext(With(s, p, c, ResumeLocked, Some(p)), Act(p, Open), With(s, p, c, ResumeOpened(f), Some(p)));
    ReachesNext(With(s, p, c, ResumeOpened(f), Some(p)), Act(p, Fold), With(s, p, c, ResumeFolded(f, log), Some(p)));
    ReachesNext(With(s, p, c, ResumeFolded(f, log), Some(p)), Act(p, Admit), With(s, p, c, ResumeAdmitted(f, log), Some(p)));
    ReachesNext(With(s, p, c, ResumeAdmitted(f, log), Some(p)), Act(p, Append), Writes(With(s, p, c, ResumeAppended(f), Some(p)), f, r));
    ReachesNext(Writes(With(s, p, c, ResumeAppended(f), Some(p)), f, r), Act(p, Sync), Writes(With(s, p, c, Engine(f, Running), Some(p)), f, r));
  }
}
