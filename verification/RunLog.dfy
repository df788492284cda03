/** The event log of one run: framing events, what resume folds out of it, and what a legal log looks like. */
module RunLog {

  /** `Corrupt` stands for a `run.finished` payload that cannot be decoded. */
  datatype Outcome = Ok | RetryableFailure | PermanentFailure | Rejected | Corrupt

  /** `Work` is any event the engine writes between framing events: node, branch, loop, agent and similar records. */
  datatype Event =
    | Started
    | Resumed(epoch: nat)
    | Work
    | Cancelled
    | Paused
    | Finished(outcome: Outcome)

  type Pid = nat

  /** `writer` and `from` are history, not part of the record on disk: which process wrote it, and whether that
      process was an `awf resume --from`. */
  datatype Record = Record(event: Event, writer: Pid, from: bool)

  type Log = seq<Record>

  predicate Opens(e: Event) {
    e.Started? || e.Resumed?
  }

  predicate Terminates(e: Event) {
    e.Finished? || e.Cancelled?
  }

  // ---------------------------------------------------------------------------------------------
  // What resume reads

  /** `engine.Fold` refuses a log that does not begin with its only `run.started`; an empty log folds. */
  predicate Foldable(log: Log) {
    log == [] || (log[0].event.Started? && forall i :: 0 < i < |log| ==> !log[i].event.Started?)
  }

  /** The folded epoch: 1 after `run.started`, then whatever the latest `run.resumed` says. */
  function FoldEpoch(log: Log): nat {
    if log == [] then 0
    else
      var last := log[|log| - 1].event;
      if last.Started? then 1
      else if last.Resumed? then last.epoch
      else FoldEpoch(log[..|log| - 1])
  }

  datatype Option<T> = None | Some(value: T)

  /** The latest `run.finished`. */
  function LatestFinished(log: Log): Option<Outcome> {
    if log == [] then None
    else
      var last := log[|log| - 1].event;
      if last.Finished? then Some(last.outcome) else LatestFinished(log[..|log| - 1])
  }

  /** `Some(o)` exactly when a `run.finished` of `o` has no other behind it. */
  lemma {:induction false} LatestFinishedIs(log: Log, o: Outcome)
    ensures LatestFinished(log) == Some(o) <==> exists i :: LastFinish(log, i, o)
    ensures LatestFinished(log) == None <==> forall i :: 0 <= i < |log| ==> !log[i].event.Finished?
  {
    if log != [] {
      var front, n := log[..|log| - 1], |log| - 1;
      LatestFinishedIs(front, o);
      if log[n].event.Finished? {
        assert LastFinish(log, n, log[n].event.outcome);
      } else {
        assert forall i :: LastFinish(log, i, o) <==> LastFinish(front, i, o);
      }
    }
  }

  ghost predicate LastFinish(log: Log, i: int, o: Outcome) {
    0 <= i < |log| && log[i].event == Finished(o) && forall k :: i < k < |log| ==> !log[k].event.Finished?
  }

  /** The guard of `awf resume` without `--from`. */
  predicate Admits(log: Log) {
    LatestFinished(log) != Some(Ok)
  }

  // ---------------------------------------------------------------------------------------------
  // Legal logs, event by event

  datatype Frame = Running | FrameCancelled | FramePaused | FrameFinished

  /** Where a legal log stands: its epoch, who owns the open frame, how far that frame is. */
  datatype View = Empty | Bad | Good(epoch: nat, owner: Pid, frame: Frame, latest: Option<Outcome>)

  function Extend(v: View, r: Record): View {
    match (v, r.event)
    case (Empty, Started) => Good(1, r.writer, Running, None)
    case (Good(epoch, _, _, latest), Resumed(e)) =>
      if e == epoch + 1 && (latest == Some(Ok) ==> r.from) then Good(e, r.writer, Running, latest) else Bad
    case (Good(_, owner, frame, _), Work) =>
      if r.writer == owner && frame != FrameFinished then v else Bad
    case (Good(_, owner, frame, _), Cancelled) =>
      if r.writer == owner && frame == Running then v.(frame := FrameCancelled) else Bad
    case (Good(_, owner, frame, _), Paused) =>
      if r.writer == owner && frame == Running then v.(frame := FramePaused) else Bad
    case (Good(_, owner, frame, _), Finished(o)) =>
      if r.writer == owner && frame == Running then v.(frame := FrameFinished, latest := Some(o)) else Bad
    case _ => Bad
  }

  function ViewOf(log: Log): View {
    if log == [] then Empty else Extend(ViewOf(log[..|log| - 1]), log[|log| - 1])
  }

  predicate Legal(log: Log) {
    ViewOf(log) != Bad
  }

  lemma ViewSnoc(log: Log, r: Record)
    ensures ViewOf(log + [r]) == Extend(ViewOf(log), r)
  {
    assert (log + [r])[..|log|] == log;
  }

  lemma {:induction false} LegalPrefix(log: Log, k: nat)
    requires Legal(log) && k <= |log|
    ensures Legal(log[..k])
  {
    if k == |log| {
      assert log[..k] == log;
    } else {
      LegalPrefix(log[..|log| - 1], k);
      assert log[..|log| - 1][..k] == log[..k];
    }
  }

  lemma {:induction false} ViewMatchesFold(log: Log)
    requires Legal(log)
    ensures log == [] <==> ViewOf(log) == Empty
    ensures ViewOf(log).Good? ==> ViewOf(log).epoch == FoldEpoch(log) && ViewOf(log).latest == LatestFinished(log)
  {
    if log != [] {
      ViewMatchesFold(log[..|log| - 1]);
    }
  }

  /** A legal log is empty or begins with its only `run.started`; so resume can always fold it. */
  lemma {:induction false} LegalIsFoldable(log: Log)
    requires Legal(log)
    ensures Foldable(log)
    ensures log != [] ==> log[0].event == Started
    ensures forall i :: 0 < i < |log| ==> log[i].event != Started
  {
    if log != [] {
      LegalIsFoldable(log[..|log| - 1]);
      ViewMatchesFold(log[..|log| - 1]);
    }
  }

  /** The epochs written by successive resumes. */
  function ResumeEpochs(log: Log): seq<nat> {
    if log == [] then []
    else
      var before := ResumeEpochs(log[..|log| - 1]);
      var last := log[|log| - 1].event;
      if last.Resumed? then before + [last.epoch] else before
  }

  /** Resume epochs count up without gap or repetition. The first resume writes 2, because `run.started` is epoch 1. */
  lemma {:induction false} EpochsCountUp(log: Log)
    requires Legal(log)
    ensures ResumeEpochs(log) == seq(|ResumeEpochs(log)|, i requires 0 <= i => i + 2)
    ensures log != [] ==> FoldEpoch(log) == |ResumeEpochs(log)| + 1
  {
    if log != [] {
      var before := log[..|log| - 1];
      EpochsCountUp(before);
      ViewMatchesFold(before);
      ViewMatchesFold(log);
    }
  }

  lemma LegalStep(log: Log, i: nat)
    requires Legal(log) && i < |log|
    ensures Legal(log[..i]) && Legal(log[..i + 1])
    ensures ViewOf(log[..i + 1]) == Extend(ViewOf(log[..i]), log[i])
  {
    LegalPrefix(log, i);
    LegalPrefix(log, i + 1);
    assert log[..i + 1][..i] == log[..i];
  }

  /** A `run.finished` is the last event of its frame: only a `run.resumed` can follow it. */
  lemma FinishedClosesFrame(log: Log, i: nat)
    requires Legal(log) && i + 1 < |log| && log[i].event.Finished?
    ensures log[i + 1].event.Resumed?
  {
    LegalStep(log, i);
    LegalStep(log, i + 1);
  }

  lemma {:induction false} FrameSinceEvent(log: Log, i: nat, j: nat)
    requires Legal(log) && i < j <= |log|
    requires forall k :: i < k < j ==> !Opens(log[k].event)
    ensures ViewOf(log[..j]).Good?
    ensures Opens(log[i].event) ==> ViewOf(log[..j]).owner == log[i].writer
    ensures !Opens(log[i].event) ==> log[i].writer == ViewOf(log[..j]).owner
    ensures log[i].event.Finished? || log[i].event.Cancelled? || log[i].event.Paused? ==> ViewOf(log[..j]).frame != Running
  {
    LegalStep(log, j - 1);
    if i + 1 < j {
      FrameSinceEvent(log, i, j - 1);
    }
  }

  /** Each frame holds at most one of `run.finished` and `run.cancelled`: between two of them a frame opens. */
  lemma OneTerminalPerFrame(log: Log, i: nat, j: nat)
    requires Legal(log) && i < j < |log|
    requires Terminates(log[i].event) && Terminates(log[j].event)
    ensures exists k :: i < k < j && Opens(log[k].event)
  {
    if forall k :: i < k < j ==> !Opens(log[k].event) {
      FrameSinceEvent(log, i, j);
      LegalStep(log, j);
    }
  }

  /** A paused frame has neither. */
  lemma PausedFrameHasNoTerminal(log: Log, i: nat, j: nat)
    requires Legal(log) && i < |log| && j < |log| && i != j
    requires log[i].event.Paused? && Terminates(log[j].event)
    ensures exists k :: (i < k < j || j < k < i) && Opens(log[k].event)
  {
    var lo, hi := if i < j then i else j, if i < j then j else i;
    if forall k :: lo < k < hi ==> !Opens(log[k].event) {
      FrameSinceEvent(log, lo, hi);
      LegalStep(log, hi);
    } else {
      var k :| lo < k < hi && Opens(log[k].event);
    }
  }

  /** A frame is written by one process: the one that opened it. */
  lemma FrameHasOneWriter(log: Log, i: nat, j: nat)
    requires Legal(log) && i < j < |log| && Opens(log[i].event)
    requires forall k :: i < k <= j ==> !Opens(log[k].event)
    ensures log[j].writer == log[i].writer
  {
    FrameSinceEvent(log, i, j);
    LegalStep(log, j);
  }

  /** A run whose latest `run.finished` is ok is only ever re-entered by `awf resume --from`. */
  lemma FinishedOkNeedsFrom(log: Log, i: nat)
    requires Legal(log) && i < |log| && log[i].event.Resumed?
    ensures LatestFinished(log[..i]) == Some(Ok) ==> log[i].from
  {
    LegalStep(log, i);
    ViewMatchesFold(log[..i]);
  }
}
