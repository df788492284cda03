/** Several `awf run` and `awf resume` processes competing for one run id, as a state machine.

    Shared are the files that ever stood at the log path (a file outlives its name while a process holds it open),
    the name itself, and the run lock. A step is one system call of one process, or its death. The kernel releases
    the lock of a dead process. An append that fails leaves no event behind. */
module RunProtocol {
  import opened RunLog

  type FileId = nat

  datatype Command = RunCommand | ResumeCommand(from: bool)

  /** Where a process stands; `f` is the file it holds open. The `landed` and `wrote` flags remember whether the process
      got an event into the log before it gave up. */
  datatype Pc =
    | RunStart
    | RunCreated(f: FileId)
    | RunLocked(f: FileId)
    | RunAppended(f: FileId)
    | RunReleasing(f: FileId, landed: bool)
    | RunRemoving(f: FileId, landed: bool)
    | ResumeStart
    | ResumeStated
    | ResumeLocked
    | ResumeOpened(f: FileId)
    | ResumeFolded(f: FileId, folded: Log)
    | ResumeAdmitted(f: FileId, folded: Log)
    | ResumeAppended(f: FileId)
    | Engine(f: FileId, frame: Frame)
    | Finishing(f: FileId, outcome: Outcome)
    | Exiting(wrote: bool)
    | Exited(wrote: bool)
    | Dead(wrote: bool)

  datatype Process = Process(command: Command, pc: Pc)

  datatype State = State(files: map<FileId, Log>, path: Option<FileId>, lock: Option<Pid>, procs: map<Pid, Process>)

  const INITIAL := State(map[], None, None, map[])

  /** What `engine.Run` hands to the closing sequence. */
  datatype RunError = NoError | PausedError | CancelledError | StateError | OtherError
  datatype EngineResult = EngineResult(outcome: Option<Outcome>, err: RunError)

  predicate IsFailure(o: Outcome) {
    o == RetryableFailure || o == PermanentFailure || o == Rejected
  }

  /** Whether `finishRunResultWithState` appends `run.finished`, and with which outcome. */
  function FinishedBy(r: EngineResult): Option<Outcome> {
    if r.outcome == None then None
    else if r.outcome.value == Ok && r.err == NoError then r.outcome
    else if IsFailure(r.outcome.value) && r.err != NoError then r.outcome
    else None
  }

  /** What a process may try next. `Fail` covers every refusal and error return of the current step. */
  datatype Action =
    | Create(f: FileId)
    | Acquire
    | Append
    | Sync
    | Unlink
    | Stat
    | Open
    | Fold
    | Admit
    | WriteWork
    | WriteCancelled
    | WritePaused
    | Return(result: EngineResult)
    | Release
    | Fail
    | Crash

  datatype Effect = Quiet | TakeLock | DropLock | MakeFile(f: FileId) | RemoveName | Write(f: FileId, event: Event)

  datatype Move = Move(effect: Effect, pc: Pc)

  predicate HoldsLock(pc: Pc) {
    match pc
    case RunLocked(_) | RunAppended(_) | RunReleasing(_, _) => true
    case ResumeLocked | ResumeOpened(_) | ResumeFolded(_, _) | ResumeAdmitted(_, _) | ResumeAppended(_) => true
    case Engine(_, _) | Finishing(_, _) | Exiting(_) => true
    case _ => false
  }

  /** Between exclusive creation and the point where the log is either started or removed. */
  predicate Pending(pc: Pc) {
    pc.RunCreated? || pc.RunLocked? || pc.RunAppended? || pc.RunReleasing? || pc.RunRemoving?
  }

  predicate Over(pc: Pc) {
    pc.Exited? || pc.Dead?
  }

  /** The process has an event in some log. */
  predicate Wrote(pc: Pc) {
    match pc
    case RunAppended(_) | ResumeAppended(_) | Engine(_, _) | Finishing(_, _) => true
    case RunReleasing(_, landed) => landed
    case RunRemoving(_, landed) => landed
    case Exiting(wrote) => wrote
    case Exited(wrote) => wrote
    case Dead(wrote) => wrote
    case _ => false
  }

  /** The program of both commands: what `a` does at this point, if it is possible at all. */
  function Program(s: State, command: Command, pc: Pc, a: Action): Option<Move> {
    if a == Crash then
      if Over(pc) then None else Some(Move(if HoldsLock(pc) then DropLock else Quiet, Dead(Wrote(pc))))
    else match pc
      case RunStart =>
        if a.Create? && s.path == None && a.f !in s.files then Some(Move(MakeFile(a.f), RunCreated(a.f)))
        else if a == Fail then Some(Move(Quiet, Exited(false))) else None
      case RunCreated(f) =>
        if a == Acquire && s.lock == None then Some(Move(TakeLock, RunLocked(f)))
        else if a == Fail then Some(Move(Quiet, RunRemoving(f, false))) else None
      case RunLocked(f) =>
        if a == Append then Some(Move(Write(f, Started), RunAppended(f)))
        else if a == Fail then Some(Move(Quiet, RunReleasing(f, false))) else None
      case RunAppended(f) =>
        if a == Sync then Some(Move(Quiet, Engine(f, Running)))
        else if a == Fail then Some(Move(Quiet, RunReleasing(f, true))) else None
      case RunReleasing(f, landed) =>
        if a == Release then Some(Move(DropLock, RunRemoving(f, landed))) else None
      case RunRemoving(_, landed) =>
        if a == Unlink then Some(Move(RemoveName, Exited(landed)))
        else if a == Fail then Some(Move(Quiet, Exited(landed))) else None
      case ResumeStart =>
        if a == Stat && s.path.Some? then Some(Move(Quiet, ResumeStated))
        else if a == Fail then Some(Move(Quiet, Exited(false))) else None
      case ResumeStated =>
        if a == Acquire && s.lock == None then Some(Move(TakeLock, ResumeLocked))
        else if a == Fail then Some(Move(Quiet, Exited(false))) else None
      case ResumeLocked =>
        if a == Open && s.path.Some? then Some(Move(Quiet, ResumeOpened(s.path.value)))
        else if a == Fail then Some(Move(Quiet, Exiting(false))) else None
      case ResumeOpened(f) =>
        // the fold opens the log by name once more
        if a == Fold && s.path.Some? && s.path.value in s.files && Foldable(s.files[s.path.value]) then
          Some(Move(Quiet, ResumeFolded(f, s.files[s.path.value])))
        else if a == Fail then Some(Move(Quiet, Exiting(false))) else None
      case ResumeFolded(f, folded) =>
        if a == Admit && (command == ResumeCommand(true) || Admits(folded)) && folded != [] then
          Some(Move(Quiet, ResumeAdmitted(f, folded)))
        else if a == Fail then Some(Move(Quiet, Exiting(false))) else None
      case ResumeAdmitted(f, folded) =>
        if a == Append then Some(Move(Write(f, Resumed(FoldEpoch(folded) + 1)), ResumeAppended(f)))
        else if a == Fail then Some(Move(Quiet, Exiting(false))) else None
      case ResumeAppended(f) =>
        if a == Sync then Some(Move(Quiet, Engine(f, Running)))
        else if a == Fail then Some(Move(Quiet, Exiting(true))) else None
      case Engine(f, frame) =>
        if a == WriteWork then Some(Move(Write(f, Work), pc))
        else if a == WriteCancelled && frame == Running then Some(Move(Write(f, Cancelled), Engine(f, FrameCancelled)))
        else if a == WritePaused && frame == Running then Some(Move(Write(f, Paused), Engine(f, FramePaused)))
        else if a.Return? && (frame != Running ==> a.result.outcome == None) then
          Some(Move(Quiet, if FinishedBy(a.result).Some? then Finishing(f, FinishedBy(a.result).value) else Exiting(true)))
        else None
      case Finishing(f, outcome) =>
        if a == Append then Some(Move(Write(f, Finished(outcome)), Exiting(true)))
        else if a == Fail then Some(Move(Quiet, Exiting(true))) else None
      case Exiting(wrote) =>
        if a == Release then Some(Move(DropLock, Exited(wrote))) else None
      case Exited(_) => None
      case Dead(_) => None
  }

  function Perform(s: State, p: Pid, move: Move): State
    requires p in s.procs
  {
    var moved := s.(procs := s.procs[p := s.procs[p].(pc := move.pc)]);
    match move.effect
    case Quiet => moved
    case TakeLock => moved.(lock := Some(p))
    case DropLock => moved.(lock := None)
    case MakeFile(f) => moved.(files := s.files[f := []], path := Some(f))
    case RemoveName => moved.(path := None)
    case Write(f, event) =>
      var before := if f in s.files then s.files[f] else [];
      moved.(files := s.files[f := before + [Record(event, p, s.procs[p].command == ResumeCommand(true))]])
  }

  /** A step of the whole system: a new process appears, or process `p` does `a`. */
  datatype Label = Spawn(p: Pid, command: Command) | Act(p: Pid, a: Action)

  predicate Enabled(s: State, l: Label) {
    match l
    case Spawn(p, _) => p !in s.procs
    case Act(p, a) => p in s.procs && Program(s, s.procs[p].command, s.procs[p].pc, a).Some?
  }

  function Next(s: State, l: Label): State
    requires Enabled(s, l)
  {
    match l
    case Spawn(p, command) =>
      s.(procs := s.procs[p := Process(command, if command == RunCommand then RunStart else ResumeStart)])
    case Act(p, a) => Perform(s, p, Program(s, s.procs[p].command, s.procs[p].pc, a).value)
  }

  // ---------------------------------------------------------------------------------------------
  // The invariant

  /** What each program point knows about the files. */
  ghost predicate Knows(s: State, p: Pid, pc: Pc)
    requires p in s.procs
  {
    match pc
    case RunCreated(f) => f in s.files && s.files[f] == []
    case RunLocked(f) => f in s.files && s.files[f] == []
    case RunAppended(f) => f in s.files && ViewOf(s.files[f]) == Good(1, p, Running, None)
    case RunReleasing(f, landed) => f in s.files && (landed <==> s.files[f] != [])
    case RunRemoving(f, landed) => f in s.files && (landed <==> s.files[f] != [])
    case ResumeOpened(f) => f in s.files && (s.path.Some? && s.path.value != f ==> s.path.value in s.files && s.files[s.path.value] == [])
    case ResumeFolded(f, folded) => f in s.files && (folded != [] ==> s.files[f] == folded)
    case ResumeAdmitted(f, folded) =>
      f in s.files && folded != [] && s.files[f] == folded && (s.procs[p].command == ResumeCommand(true) || Admits(folded))
    case ResumeAppended(f) => f in s.files && Drives(s.files[f], p, Running)
    case Engine(f, frame) => f in s.files && frame != FrameFinished && Drives(s.files[f], p, frame)
    case Finishing(f, _) => f in s.files && Drives(s.files[f], p, Running)
    case _ => true
  }

  /** `p` wrote the opener of the last frame, and that frame stands at `frame`. */
  ghost predicate Drives(log: Log, p: Pid, frame: Frame) {
    var v := ViewOf(log);
    v.Good? && v.owner == p && v.frame == frame
  }

  ghost predicate LogsLegal(s: State) {
    forall f :: f in s.files ==> Legal(s.files[f])
  }

  ghost predicate LockIsHeld(s: State) {
    forall p :: p in s.procs ==> (HoldsLock(s.procs[p].pc) <==> s.lock == Some(p))
  }

  ghost predicate NameIsFile(s: State) {
    && (s.path.Some? ==> s.path.value in s.files)
    && (s.lock.Some? ==> s.lock.value in s.procs)
  }

  /** A process that created the log and has not finished with it stands behind the name, alone. */
  ghost predicate CreatorOwnsName(s: State) {
    && (forall p :: p in s.procs && Pending(s.procs[p].pc) ==> s.path == Some(s.procs[p].pc.f))
    && (forall p, q :: p in s.procs && q in s.procs && Pending(s.procs[p].pc) && Pending(s.procs[q].pc) ==> p == q)
  }

  ghost predicate AllKnow(s: State) {
    forall p :: p in s.procs ==> Knows(s, p, s.procs[p].pc)
  }

  ghost predicate Inv(s: State) {
    LogsLegal(s) && LockIsHeld(s) && NameIsFile(s) && CreatorOwnsName(s) && AllKnow(s)
  }

  lemma InitialInv()
    ensures Inv(INITIAL)
  {
  }

  /** The move that `Act(p, a)` makes in `s`. */
  ghost function MoveOf(s: State, p: Pid, a: Action): Move
    requires Enabled(s, Act(p, a))
  {
    Program(s, s.procs[p].command, s.procs[p].pc, a).value
  }

  /** Only a lock holder appends, it appends to the file it holds open, and the extended log is legal. */
  lemma WriteIsLegal(s: State, p: Pid, a: Action)
    requires Inv(s) && Enabled(s, Act(p, a)) && MoveOf(s, p, a).effect.Write?
    ensures HoldsLock(s.procs[p].pc)
    ensures var f := MoveOf(s, p, a).effect.f; f in s.files && (s.files[f] == [] <==> s.procs[p].pc == RunLocked(f))
    ensures var f := MoveOf(s, p, a).effect.f; f in s.files && Legal(Next(s, Act(p, a)).files[f])
    ensures Knows(Next(s, Act(p, a)), p, MoveOf(s, p, a).pc)
  {
    var move := MoveOf(s, p, a);
    var f := move.effect.f;
    assert Knows(s, p, s.procs[p].pc);
    if move.effect.event.Started? || move.effect.event.Resumed? {
      OpeningIsLegal(s, p, a);
    } else {
      FrameEventIsLegal(s, p, a);
    }
    ViewMatchesFold(s.files[f]);
    hide Extend, ViewOf, Next, Program;
  }

  ghost predicate WritesLegally(s: State, p: Pid, a: Action)
    requires Enabled(s, Act(p, a))
  {
    var move := MoveOf(s, p, a);
    && move.effect.Write?
    && move.effect.f in s.files
    && HoldsLock(s.procs[p].pc)
    && (s.files[move.effect.f] == [] <==> s.procs[p].pc == RunLocked(move.effect.f))
    && Legal(Next(s, Act(p, a)).files[move.effect.f])
    && Knows(Next(s, Act(p, a)), p, move.pc)
  }

  lemma OpeningIsLegal(s: State, p: Pid, a: Action)
    requires Inv(s) && Enabled(s, Act(p, a)) && MoveOf(s, p, a).effect.Write? && Opens(MoveOf(s, p, a).effect.event)
    ensures WritesLegally(s, p, a)
  {
    if MoveOf(s, p, a).effect.event.Started? {
      StartIsLegal(s, p, a);
    } else {
      ResumeIsLegal(s, p, a);
    }
  }

  /** The program points that write, and what they write. */
  lemma WriterAt(s: State, p: Pid, a: Action)
    requires Enabled(s, Act(p, a)) && MoveOf(s, p, a).effect.Write?
    ensures var f, e, pc, after := MoveOf(s, p, a).effect.f, MoveOf(s, p, a).effect.event, s.procs[p].pc, MoveOf(s, p, a).pc;
      match e
      case Started => pc == RunLocked(f) && after == RunAppended(f)
      case Resumed(epoch) => pc.ResumeAdmitted? && pc.f == f && epoch == FoldEpoch(pc.folded) + 1 && after == ResumeAppended(f)
      case Work => pc.Engine? && pc.f == f && after == pc
      case Cancelled => pc == Engine(f, Running) && after == Engine(f, FrameCancelled)
      case Paused => pc == Engine(f, Running) && after == Engine(f, FramePaused)
      case Finished(outcome) => pc == Finishing(f, outcome) && after == Exiting(true)
  {
  }

  /** The log after a write. */
  lemma LogAfterWrite(s: State, p: Pid, a: Action)
    requires Enabled(s, Act(p, a)) && MoveOf(s, p, a).effect.Write? && MoveOf(s, p, a).effect.f in s.files
    ensures var effect := MoveOf(s, p, a).effect;
      var r := Record(effect.event, p, s.procs[p].command == ResumeCommand(true));
      && p in Next(s, Act(p, a)).procs
      && Next(s, Act(p, a)).files == s.files[effect.f := s.files[effect.f] + [r]]
  {
  }

  lemma StartIsLegal(s: State, p: Pid, a: Action)
    requires Inv(s) && Enabled(s, Act(p, a)) && MoveOf(s, p, a).effect.Write? && MoveOf(s, p, a).effect.event.Started?
    ensures WritesLegally(s, p, a)
  {
    var f := MoveOf(s, p, a).effect.f;
    assert Knows(s, p, s.procs[p].pc);
    WriterAt(s, p, a);
    LogAfterWrite(s, p, a);
    ViewSnoc([], Record(Started, p, s.procs[p].command == ResumeCommand(true)));
    hide Program, MoveOf, Next, Enabled;
  }

  lemma ResumeIsLegal(s: State, p: Pid, a: Action)
    requires Inv(s) && Enabled(s, Act(p, a)) && MoveOf(s, p, a).effect.Write? && MoveOf(s, p, a).effect.event.Resumed?
    ensures WritesLegally(s, p, a)
  {
    assert Knows(s, p, s.procs[p].pc);
    WriterAt(s, p, a);
    LogAfterWrite(s, p, a);
    hide Program, MoveOf, Next, Enabled;
    ResumeWrites(s.files[s.procs[p].pc.f], p, s.procs[p].command == ResumeCommand(true));
    hide FoldEpoch, ViewOf, Admits, Drives;
  }

  /** The opener of a resumed frame. */
  lemma ResumeWrites(log: Log, p: Pid, from: bool)
    requires Legal(log) && log != [] && (from || Admits(log))
    ensures var after := log + [Record(Resumed(FoldEpoch(log) + 1), p, from)]; Legal(after) && Drives(after, p, Running)
  {
    ViewSnoc(log, Record(Resumed(FoldEpoch(log) + 1), p, from));
    ViewMatchesFold(log);
  }

  /** The driver's own events keep the log legal and move its frame on. */
  lemma DriverWrites(log: Log, p: Pid, frame: Frame, e: Event, from: bool)
    requires Legal(log) && Drives(log, p, frame) && !Opens(e)
    requires frame == Running || (e == Work && frame != FrameFinished)
    ensures var after := log + [Record(e, p, from)];
      Legal(after) && log != [] && Drives(after, p, match e
        case Work => frame
        case Cancelled => FrameCancelled
        case Paused => FramePaused
        case _ => FrameFinished)
  {
    ViewSnoc(log, Record(e, p, from));
  }

  lemma FrameEventIsLegal(s: State, p: Pid, a: Action)
    requires Inv(s) && Enabled(s, Act(p, a)) && MoveOf(s, p, a).effect.Write? && !Opens(MoveOf(s, p, a).effect.event)
    ensures WritesLegally(s, p, a)
  {
    assert Knows(s, p, s.procs[p].pc);
    WriterAt(s, p, a);
    LogAfterWrite(s, p, a);
    var pc, effect := s.procs[p].pc, MoveOf(s, p, a).effect;
    hide Program, MoveOf, Next, Enabled;
    DriverWrites(s.files[effect.f], p, if pc.Engine? then pc.frame else Running, effect.event,
                 s.procs[p].command == ResumeCommand(true));
    hide Drives, ViewOf;
  }

  /** A process's own knowledge after a move that writes nothing. */
  lemma SelfKnows(s: State, p: Pid, a: Action)
    requires Inv(s) && Enabled(s, Act(p, a)) && !MoveOf(s, p, a).effect.Write?
    ensures Knows(Next(s, Act(p, a)), p, MoveOf(s, p, a).pc)
  {
    assert Knows(s, p, s.procs[p].pc);
    if Pending(s.procs[p].pc) || s.procs[p].pc.RunStart? {
      RunSelfKnows(s, p, a);
    } else {
      ResumeSelfKnows(s, p, a);
    }
  }

  lemma RunSelfKnows(s: State, p: Pid, a: Action)
    requires Inv(s) && Enabled(s, Act(p, a)) && !MoveOf(s, p, a).effect.Write?
    requires Pending(s.procs[p].pc) || s.procs[p].pc.RunStart?
    ensures Knows(Next(s, Act(p, a)), p, MoveOf(s, p, a).pc)
  {
    assert Knows(s, p, s.procs[p].pc);
  }

  lemma ResumeSelfKnows(s: State, p: Pid, a: Action)
    requires Inv(s) && Enabled(s, Act(p, a)) && !MoveOf(s, p, a).effect.Write?
    requires !Pending(s.procs[p].pc) && !s.procs[p].pc.RunStart?
    ensures Knows(Next(s, Act(p, a)), p, MoveOf(s, p, a).pc)
  {
    assert Knows(s, p, s.procs[p].pc);
  }

  /** What the other processes know survives the move. */
  lemma OthersKnow(s: State, p: Pid, a: Action, q: Pid)
    requires Inv(s) && Enabled(s, Act(p, a)) && q in s.procs && q != p
    ensures q in Next(s, Act(p, a)).procs && Knows(Next(s, Act(p, a)), q, s.procs[q].pc)
  {
    assert Knows(s, q, s.procs[q].pc) && Knows(s, p, s.procs[p].pc);
    if MoveOf(s, p, a).effect.Write? {
      OthersKnowAfterWrite(s, p, a, q);
    } else {
      PendingMove(s, p, a);
      hide Program;
    }
  }

  lemma OthersKnowAfterWrite(s: State, p: Pid, a: Action, q: Pid)
    requires Inv(s) && Enabled(s, Act(p, a)) && q in s.procs && q != p
    requires MoveOf(s, p, a).effect.Write?
    ensures q in Next(s, Act(p, a)).procs && Knows(Next(s, Act(p, a)), q, s.procs[q].pc)
  {
    WriteIsLegal(s, p, a);
    assert Knows(s, q, s.procs[q].pc) && !HoldsLock(s.procs[q].pc);
    hide Program, ViewOf;
  }

  lemma KnowledgeKept(s: State, p: Pid, a: Action)
    requires Inv(s) && Enabled(s, Act(p, a))
    ensures AllKnow(Next(s, Act(p, a)))
  {
    var s' := Next(s, Act(p, a));
    hide Knows, Program, LogsLegal, LockIsHeld, CreatorOwnsName;
    forall q | q in s'.procs ensures Knows(s', q, s'.procs[q].pc) {
      if q != p {
        OthersKnow(s, p, a, q);
      } else if MoveOf(s, p, a).effect.Write? {
        WriteIsLegal(s, p, a);
      } else {
        SelfKnows(s, p, a);
      }
    }
  }

  lemma LegalityKept(s: State, p: Pid, a: Action)
    requires Inv(s) && Enabled(s, Act(p, a))
    ensures LogsLegal(Next(s, Act(p, a)))
  {
    if MoveOf(s, p, a).effect.Write? {
      WriteIsLegal(s, p, a);
    }
  }

  /** The lock changes hands exactly when the program says so. */
  lemma LockMove(s: State, p: Pid, a: Action)
    requires Enabled(s, Act(p, a))
    ensures var pc, move := s.procs[p].pc, MoveOf(s, p, a);
      match move.effect
      case TakeLock => s.lock == None && !HoldsLock(pc) && HoldsLock(move.pc)
      case DropLock => HoldsLock(pc) && !HoldsLock(move.pc)
      case _ => HoldsLock(pc) == HoldsLock(move.pc)
  {
  }

  /** Pending starts with the exclusive creation; only a pending process removes the name, and it is its last act. */
  lemma PendingMove(s: State, p: Pid, a: Action)
    requires Enabled(s, Act(p, a))
    ensures var pc, move := s.procs[p].pc, MoveOf(s, p, a);
      match move.effect
      case MakeFile(f) => s.path == None && f !in s.files && !Pending(pc) && Pending(move.pc) && move.pc.f == f
      case RemoveName => pc.RunRemoving? && !Pending(move.pc)
      case _ => Pending(move.pc) ==> Pending(pc) && move.pc.f == pc.f
  {
  }

  lemma LockKept(s: State, p: Pid, a: Action)
    requires Inv(s) && Enabled(s, Act(p, a))
    ensures LockIsHeld(Next(s, Act(p, a))) && NameIsFile(Next(s, Act(p, a)))
  {
    LockMove(s, p, a);
    var move := MoveOf(s, p, a);
    hide Program, HoldsLock, Knows, LogsLegal;
    var s' := Next(s, Act(p, a));
    forall q | q in s'.procs ensures HoldsLock(s'.procs[q].pc) <==> s'.lock == Some(q) {
      assert HoldsLock(s.procs[q].pc) <==> s.lock == Some(q);
      assert HoldsLock(s.procs[p].pc) <==> s.lock == Some(p);
    }
  }

  lemma CreatorKept(s: State, p: Pid, a: Action)
    requires Inv(s) && Enabled(s, Act(p, a))
    ensures CreatorOwnsName(Next(s, Act(p, a)))
  {
    PendingMove(s, p, a);
    hide Program, HoldsLock, Knows, LogsLegal;
    var s' := Next(s, Act(p, a));
    forall q | q in s'.procs && Pending(s'.procs[q].pc) ensures s'.path == Some(s'.procs[q].pc.f) {
      assert q != p ==> s.path == Some(s.procs[q].pc.f);
    }
  }

  /** Every step of every process, and every death, keeps the invariant. */
  lemma StepKeepsInv(s: State, l: Label)
    requires Inv(s) && Enabled(s, l)
    ensures Inv(Next(s, l))
  {
    match l
    case Spawn(p, command) =>
      forall q | q in s.procs ensures Knows(Next(s, l), q, s.procs[q].pc) {
        assert Knows(s, q, s.procs[q].pc);
      }
    case Act(p, a) =>
      KnowledgeKept(s, p, a);
      LegalityKept(s, p, a);
      LockKept(s, p, a);
      CreatorKept(s, p, a);
  }
}
