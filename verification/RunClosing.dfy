/** The two decisions at the edges of a frame as the code takes them: may this log be re-entered, and what does the
    engine's result write at the end. */
module RunClosing {
  import opened RunLog
  import opened RunProtocol

  datatype Admission = Refused | Admitted(note: Note)

  /** What the note to the operator names: nothing, a cancelled run, or the outcome of the latest `run.finished`. */
  datatype Note = Silent | AfterCancel | After(outcome: Outcome)

  ghost predicate HasCorruptFinish(log: Log) {
    exists i :: 0 <= i < |log| && log[i].event == Finished(Corrupt)
  }

  ghost predicate HasCancel(log: Log) {
    exists i :: 0 <= i < |log| && log[i].event.Cancelled?
  }

  ghost function NoteFor(log: Log): Note {
    match LatestFinished(log)
    case Some(outcome) => After(outcome)
    case None => if HasCancel(log) then AfterCancel else Silent
  }

  /** `resumeAdmission`: refuses exactly an undecodable `run.finished` or a latest `run.finished` that is ok. */
  method ResumeAdmission(log: Log) returns (admission: Admission)
    ensures admission.Refused? <==> HasCorruptFinish(log) || exists i :: LastFinish(log, i, Ok)
    ensures admission.Admitted? ==> admission.note == NoteFor(log)
  {
    var finished: Option<Outcome> := None;
    var cancelled := false;
    var i := 0;
    assert log[..|log|] == log;
    LatestFinishedIs(log, Ok);
    while i < |log|
      invariant i <= |log|
      invariant finished == LatestFinished(log[..i])
      invariant cancelled <==> exists k :: 0 <= k < i && log[k].event.Cancelled?
      invariant forall k :: 0 <= k < i ==> log[k].event != Finished(Corrupt)
    {
      assert log[..i + 1][..i] == log[..i];
      match log[i].event {
        case Finished(outcome) =>
          if outcome == Corrupt {
            return Refused;
          }
          finished := Some(outcome);
        case Cancelled => cancelled := true;
        case _ =>
      }
      i := i + 1;
    }
    match finished {
      case Some(outcome) =>
        return if outcome == Ok then Refused else Admitted(After(outcome));
      case None =>
        return Admitted(if cancelled then AfterCancel else Silent);
    }
  }

  /** Only `run.finished` events count: whatever else is appended, admission stays what it was. */
  lemma {:induction false} AdmissionIgnoresOtherEvents(log: Log, tail: Log)
    requires forall i :: 0 <= i < |tail| ==> !tail[i].event.Finished?
    ensures LatestFinished(log + tail) == LatestFinished(log)
    ensures Admits(log + tail) <==> Admits(log)
  {
    if tail == [] {
      assert log + tail == log;
    } else {
      var front := tail[..|tail| - 1];
      AdmissionIgnoresOtherEvents(log, front);
      assert (log + tail)[..|log + tail| - 1] == log + front;
    }
  }

  datatype Exit = ExitOK | ExitRunFailed | ExitInfra

  /** The log as the closing sequence holds it: an append either lands whole or leaves nothing. */
  class OpenLog {
    var records: Log
    var appendWorks: bool
    var syncWorks: bool

    method Append(r: Record) returns (ok: bool)
      modifies this`records
      ensures ok == appendWorks
      ensures records == if appendWorks then old(records) + [r] else old(records)
    {
      if appendWorks {
        records := records + [r];
      }
      return appendWorks;
    }
  }

  /** `finishRunResultWithState`: writes `run.finished` exactly for a result pair the engine may return with a terminal
      outcome, keeps containers up exactly for a pause, and reports success exactly when nothing went wrong. */
  method FinishRunResult(log: OpenLog, result: EngineResult, p: Pid, from: bool) returns (exit: Exit, skipTeardown: bool)
    modifies log`records
    ensures result.outcome == Some(Ok) && result.err == NoError && log.appendWorks ==>
      log.records == old(log.records) + [Record(Finished(Ok), p, from)]
    ensures forall o :: o in {RetryableFailure, PermanentFailure, Rejected} && result.outcome == Some(o) && result.err != NoError ==>
      log.appendWorks ==> log.records == old(log.records) + [Record(Finished(o), p, from)]
    ensures !log.appendWorks ==> log.records == old(log.records)
    ensures result.outcome == None || result.outcome == Some(Corrupt) ==> log.records == old(log.records)
    ensures (result.outcome == Some(Ok) <==> result.err != NoError) ==> log.records == old(log.records)
    ensures skipTeardown <==> result == EngineResult(None, PausedError)
    ensures exit == ExitOK <==>
      || result == EngineResult(None, PausedError) || result == EngineResult(None, CancelledError)
      || (result == EngineResult(Some(Ok), NoError) && log.appendWorks && log.syncWorks)
    ensures exit == ExitRunFailed <==>
      && (exists o :: o in {RetryableFailure, PermanentFailure, Rejected} && result.outcome == Some(o))
      && result.err != NoError && log.appendWorks && log.syncWorks
  {
    skipTeardown := false;
    if result.outcome == None && result.err == PausedError {
      skipTeardown := true;
      return ExitOK, skipTeardown;
    }
    if result.outcome == None && result.err == CancelledError {
      return ExitOK, skipTeardown;
    }
    if result.outcome == None && result.err == StateError {
      return ExitInfra, skipTeardown;
    }
    var validPair :=
      || (result.outcome == Some(Ok) && result.err == NoError)
      || (result.outcome.Some? && IsFailure(result.outcome.value) && result.err != NoError)
      || (result.outcome == None && result.err != NoError);
    if !validPair {
      return ExitInfra, skipTeardown;
    }
    if result.outcome.Some? {
      var ok := log.Append(Record(Finished(result.outcome.value), p, from));
      if !ok || !log.syncWorks {
        return ExitInfra, skipTeardown;
      }
    }
    match result.outcome {
      case Some(o) => exit := if o == Ok then ExitOK else ExitRunFailed;
      case None => exit := ExitInfra;
    }
  }
}
