/** Tool calls per node, counted from a run log in two passes over timestamps, against the count by position. */
module ToolCalls {
  import opened RunPaths

  /** `AgentEvent(None)` is an agent event whose data does not decode. */
  datatype Kind = NodeStarted | AgentEvent(kind: Decoded) | OtherEvent
  datatype Decoded = Undecodable | Decoded(kind: string)

  /** `ts` counts from the zero time, which is what a missing entry of the start table reads as. */
  datatype LogEvent = LogEvent(kind: Kind, path: Path, ts: nat)

  predicate IsToolCall(e: LogEvent) {
    e.kind.AgentEvent? && (e.kind.kind == Decoded("tool_use") || e.kind.kind == Decoded("tool_call"))
  }

  /** The tool calls of a path, by position. */
  function CallsOf(events: seq<LogEvent>, p: Path): nat {
    CallsSince(events, p, 0)
  }

  /** The tool calls of a path that carry a timestamp of `t` or later. */
  function CallsSince(events: seq<LogEvent>, p: Path, t: nat): nat {
    if events == [] then 0
    else
      var last := events[|events| - 1];
      CallsSince(events[..|events| - 1], p, t) + if last.path == p && IsToolCall(last) && last.ts >= t then 1 else 0
  }

  /** Counting positions: one for each event of this path that is an agent event of kind "tool_use" or "tool_call". */
  lemma {:induction false} CallsAreCounted(events: seq<LogEvent>, p: Path)
    ensures CallsOf(events, p) == |CallsAt(events, p)|
  {
    if events != [] {
      var n := |events| - 1;
      var front := events[..n];
      CallsAreCounted(front, p);
      assert CallsAt(events, p) - {n} == CallsAt(front, p);
      assert n !in CallsAt(front, p);
    }
  }

  ghost function CallsAt(events: seq<LogEvent>, p: Path): set<int> {
    set i | 0 <= i < |events| && events[i].path == p
      && (events[i].kind == AgentEvent(Decoded("tool_use")) || events[i].kind == AgentEvent(Decoded("tool_call")))
  }

  /** The index just past the last start of a path; 0 if it never started. */
  function AfterLastStart(events: seq<LogEvent>, p: Path): (k: nat)
    ensures k <= |events|
    ensures k > 0 ==> events[k - 1].kind == NodeStarted && events[k - 1].path == p
    ensures forall i :: k <= i < |events| ==> !(events[i].kind == NodeStarted && events[i].path == p)
  {
    if events == [] then 0
    else
      var last := events[|events| - 1];
      if last.kind == NodeStarted && last.path == p then |events| else AfterLastStart(events[..|events| - 1], p)
  }

  function LastStart(events: seq<LogEvent>, p: Path): nat {
    var k := AfterLastStart(events, p);
    if k == 0 then 0 else events[k - 1].ts
  }

  function At(counts: map<Path, nat>, p: Path): nat {
    if p in counts then counts[p] else 0
  }

  method CountToolCalls(events: seq<LogEvent>) returns (counts: map<Path, nat>)
    ensures forall p :: At(counts, p) == CallsSince(events, p, LastStart(events, p))
    ensures forall p :: p in counts <==> CallsSince(events, p, LastStart(events, p)) > 0
  {
    var lastStart: map<Path, nat> := map[];
    for i := 0 to |events|
      invariant forall p :: At(lastStart, p) == LastStart(events[..i], p)
    {
      var e := events[i];
      LastStartSnoc(events[..i], e);
      assert events[..i + 1] == events[..i] + [e];
      if e.kind == NodeStarted {
        lastStart := lastStart[e.path := e.ts];
      }
    }
    assert events[..|events|] == events;
    counts := map[];
    for i := 0 to |events|
      invariant forall p :: At(counts, p) == CallsSince(events[..i], p, At(lastStart, p))
      invariant forall p :: p in counts ==> counts[p] > 0
    {
      var e := events[i];
      assert events[..i + 1][..i] == events[..i];
      if e.kind.AgentEvent? && e.ts >= At(lastStart, e.path) {
        if e.kind.kind == Decoded("tool_use") || e.kind.kind == Decoded("tool_call") {
          counts := counts[e.path := At(counts, e.path) + 1];
        }
      }
    }
  }

  lemma LastStartSnoc(events: seq<LogEvent>, e: LogEvent)
    ensures forall p :: LastStart(events + [e], p) == if e.kind == NodeStarted && e.path == p then e.ts else LastStart(events, p)
  {
    assert (events + [e])[..|events|] == events;
  }

  lemma {:induction false} CallsConcat(a: seq<LogEvent>, b: seq<LogEvent>, p: Path, t: nat)
    ensures CallsSince(a + b, p, t) == CallsSince(a, p, t) + CallsSince(b, p, t)
  {
    if b == [] {
      assert a + b == a;
    } else {
      var front := b[..|b| - 1];
      CallsConcat(a, front, p, t);
      assert (a + b)[..|a + b| - 1] == a + front;
    }
  }

  ghost predicate Chronological(events: seq<LogEvent>) {
    forall i, j :: 0 <= i < j < |events| ==> events[i].ts <= events[j].ts
  }

  /** A tool call of `p` written before its last start, with that start's own timestamp. */
  ghost predicate TiedCall(events: seq<LogEvent>, p: Path, i: int) {
    0 <= i < AfterLastStart(events, p) && events[i].path == p && IsToolCall(events[i]) && events[i].ts == LastStart(events, p)
  }

  /** On a log whose timestamps never decrease, the count by timestamps is the count by position, plus the calls tied with
      the last start: it is exact if and only if there is no such tie. */
  lemma CountIsPositionalIff(events: seq<LogEvent>, p: Path)
    requires Chronological(events)
    ensures CallsSince(events, p, LastStart(events, p)) == CallsOf(events[AfterLastStart(events, p)..], p) <==>
      !exists i :: TiedCall(events, p, i)
  {
    hide CallsSince, CallsOf, IsToolCall, AfterLastStart;
    var k, t := AfterLastStart(events, p), LastStart(events, p);
    var early, late := events[..k], events[k..];
    assert events == early + late;
    CallsConcat(early, late, p, t);
    AllSince(late, p, t);
    if i :| TiedCall(events, p, i) {
      assert early[i] == events[i];
      SomeSince(early, p, t, i);
    }
    if CallsSince(early, p, t) > 0 {
      var i := FindSince(early, p, t);
      assert early[i] == events[i];
      assert TiedCall(events, p, i);
    }
  }

  /** On strictly increasing timestamps it is always exact. */
  lemma CountIsPositional(events: seq<LogEvent>, p: Path)
    requires forall i, j :: 0 <= i < j < |events| ==> events[i].ts < events[j].ts
    ensures CallsSince(events, p, LastStart(events, p)) == CallsOf(events[AfterLastStart(events, p)..], p)
  {
    CountIsPositionalIff(events, p);
    if exists i :: TiedCall(events, p, i) {
      assert false;
    }
  }

  lemma {:induction false} AllSince(events: seq<LogEvent>, p: Path, t: nat)
    requires forall i :: 0 <= i < |events| ==> events[i].ts >= t
    ensures CallsSince(events, p, t) == CallsOf(events, p)
  {
    if events != [] {
      AllSince(events[..|events| - 1], p, t);
    }
  }

  lemma {:induction false} SomeSince(events: seq<LogEvent>, p: Path, t: nat, i: nat)
    requires i < |events| && events[i].path == p && IsToolCall(events[i]) && events[i].ts >= t
    ensures CallsSince(events, p, t) > 0
  {
    if i < |events| - 1 {
      SomeSince(events[..|events| - 1], p, t, i);
    }
  }

  lemma {:induction false} FindSince(events: seq<LogEvent>, p: Path, t: nat) returns (i: nat)
    requires CallsSince(events, p, t) > 0
    ensures i < |events| && events[i].path == p && IsToolCall(events[i]) && events[i].ts >= t
  {
    var last := events[|events| - 1];
    if last.path == p && IsToolCall(last) && last.ts >= t {
      return |events| - 1;
    }
    i := FindSince(events[..|events| - 1], p, t);
  }
}
