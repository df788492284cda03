/** The two sanitizers as they are written: index loops over the input, a byte builder, and for the stream
    form a mode carried from call to call. Both are proved against `DisplayStream.Run`. */
module DisplaySanitizer {
  import opened Utf8
  import opened DisplayStream

  /** The machine on the rest of the buffer. */
  ghost function RunAt(m: Mode, input: Bytes, i: nat): Outcome
    requires i <= |input|
  {
    Run(m, input[i..])
  }

  /** One move of the machine, seen from an index into the buffer. */
  lemma RunStep(m: Mode, input: Bytes, i: nat)
    requires i < |input| && !Stuck(m, input[i..])
    ensures var move := Step(m, input[i..]);
      && i + move.size <= |input|
      && RunAt(m, input, i) == Emit(move.text, RunAt(move.mode, input, i + move.size))
  {
    var move := Step(m, input[i..]);
    assert input[i..][move.size..] == input[i + move.size..];
  }

  lemma AsciiMove(input: Bytes, i: nat, out: Bytes)
    requires i < |input| && input[i] < RUNE_SELF && input[i] != ESC
    ensures var c := input[i];
      var text: Bytes := if (c < 0x20 || c == DEL) && c != NEWLINE && c != TAB then [] else [c];
      Emit(out, RunAt(Normal, input, i)) == Emit(out + text, RunAt(Normal, input, i + 1))
  {
    RunStep(Normal, input, i);
    EmitTwice(out, Step(Normal, input[i..]).text, RunAt(Normal, input, i + 1));
  }

  lemma RuneMove(input: Bytes, i: nat, out: Bytes)
    requires i < |input| && input[i] >= RUNE_SELF && FullRune(input[i..])
    requires input[i] != CSI && !IsStringIntroducer(input[i])
    ensures var d := DecodeRune(input[i..]); var whole := RunAt(Normal, input, i);
      if d == Decoded(RUNE_ERROR, 1) then whole == RunAt(Normal, input, i + 1)
      else if d.rune == CSI then whole == RunAt(Sequence, input, i + d.size)
      else if IsStringIntroducer(d.rune) then whole == RunAt(ControlString, input, i + d.size)
      else
        var text := if IsDisplayControl(d.rune) then [] else EncodeRune(d.rune);
        Emit(out, whole) == Emit(out + text, RunAt(Normal, input, i + d.size))
  {
    var s := input[i..];
    RunStep(Normal, input, i);
    if StartsRune(s) {
      EncodeOfDecode(s);
    }
    EmitTwice(out, Step(Normal, s).text, RunAt(Normal, input, i + Step(Normal, s).size));
  }

  method ScanControlSequence(input: Bytes, start: nat) returns (next: nat, complete: bool)
    requires start <= |input|
    ensures start <= next <= |input|
    ensures complete ==> start < next && RunAt(Sequence, input, start) == RunAt(Normal, input, next)
    ensures !complete ==> next == |input| && RunAt(Sequence, input, start) == Outcome([], Sequence, [])
  {
    next := start;
    while next < |input|
      invariant start <= next <= |input|
      invariant RunAt(Sequence, input, start) == RunAt(Sequence, input, next)
    {
      SequenceMove(input, next);
      var c := input[next];
      next := next + 1;
      if IsFinalByte(c) {
        return next, true;
      }
    }
    NothingLeft(Sequence, input);
    return next, false;
  }

  lemma SequenceMove(input: Bytes, i: nat)
    requires i < |input|
    ensures RunAt(Sequence, input, i) == RunAt(if IsFinalByte(input[i]) then Normal else Sequence, input, i + 1)
  {
    RunStep(Sequence, input, i);
  }

  lemma NothingConsumed(m: Mode, input: Bytes)
    ensures Run(m, input) == Emit([], RunAt(m, input, 0))
  {
    assert input[0..] == input;
  }

  lemma UnfinishedRune(input: Bytes, i: nat)
    requires i < |input| && !FullRune(input[i..])
    ensures RunAt(Normal, input, i) == Outcome([], Normal, input[i..])
  {
  }

  lemma NothingLeft(m: Mode, input: Bytes)
    ensures RunAt(m, input, |input|) == Outcome([], m, [])
  {
  }

  lemma StringMove(input: Bytes, i: nat)
    requires i < |input|
    ensures var c := input[i];
      RunAt(ControlString, input, i)
      == RunAt(if c == BEL || c == ST then Normal else if c == ESC then ControlStringEscape else ControlString, input, i + 1)
  {
    RunStep(ControlString, input, i);
  }

  lemma StringEscapeMove(input: Bytes, i: nat)
    requires i < |input|
    ensures RunAt(ControlStringEscape, input, i)
      == if input[i] == BACKSLASH then RunAt(Normal, input, i + 1) else RunAt(ControlString, input, i)
  {
    RunStep(ControlStringEscape, input, i);
  }

  lemma IntroducerMove(input: Bytes, i: nat)
    requires i < |input| && (input[i] == ESC || input[i] == CSI || IsStringIntroducer(input[i]))
    ensures RunAt(Normal, input, i)
      == RunAt(if input[i] == ESC then Escape else if input[i] == CSI then Sequence else ControlString, input, i + 1)
  {
    RunStep(Normal, input, i);
  }

  /** Two moves that end a control string with a two-byte terminator. */
  lemma TwoByteTerminator(input: Bytes, i: nat)
    requires i + 1 < |input|
    requires (input[i] == ESC && input[i + 1] == BACKSLASH) || (input[i] == 0xC2 && input[i + 1] == ST)
    ensures RunAt(ControlString, input, i) == RunAt(Normal, input, i + 2)
  {
    RunStep(ControlString, input, i);
    RunStep(Step(ControlString, input[i..]).mode, input, i + 1);
  }

  /** A byte that does not end a control string is passed over; ESC hands its successor back to the string. */
  lemma StringGoesOn(input: Bytes, i: nat)
    requires i < |input| && input[i] != BEL && input[i] != ST
    requires input[i] == ESC ==> i + 1 < |input| && input[i + 1] != BACKSLASH
    ensures RunAt(ControlString, input, i) == RunAt(ControlString, input, i + 1)
  {
    RunStep(ControlString, input, i);
    if input[i] == ESC {
      RunStep(ControlStringEscape, input, i + 1);
    }
  }

  method ScanStringControl(input: Bytes, start: nat) returns (next: nat, complete: bool, mode: Mode)
    requires start <= |input|
    ensures start <= next <= |input|
    ensures complete ==> start < next && RunAt(ControlString, input, start) == RunAt(Normal, input, next)
    ensures !complete ==> next == |input| && RunAt(ControlString, input, start) == Outcome([], mode, [])
  {
    next := start;
    while next < |input|
      invariant start <= next <= |input|
      invariant RunAt(ControlString, input, start) == RunAt(ControlString, input, next)
    {
      if input[next] == BEL || input[next] == ST {
        StringMove(input, next);
        return next + 1, true, Normal;
      } else if input[next] == ESC {
        if next + 1 < |input| && input[next + 1] == BACKSLASH {
          TwoByteTerminator(input, next);
          return next + 2, true, Normal;
        }
        if next + 1 >= |input| {
          StringMove(input, next);
          NothingLeft(ControlStringEscape, input);
          return next + 1, false, ControlStringEscape;
        }
      } else if input[next] == 0xC2 {
        if next + 1 < |input| && input[next + 1] == ST {
          TwoByteTerminator(input, next);
          return next + 2, true, Normal;
        }
      }
      StringGoesOn(input, next);
      next := next + 1;
    }
    NothingLeft(ControlString, input);
    return next, false, ControlString;
  }

  method ScanEscContinuation(input: Bytes, start: nat) returns (next: nat, complete: bool, mode: Mode)
    requires start <= |input|
    ensures start <= next <= |input|
    ensures complete ==> start < next && RunAt(Escape, input, start) == RunAt(Normal, input, next)
    ensures !complete ==> next == |input| && RunAt(Escape, input, start) == Outcome([], mode, [])
  {
    if start >= |input| {
      return start, false, Escape;
    }
    RunStep(Escape, input, start);
    if input[start] == BRACKET {
      next, complete := ScanControlSequence(input, start + 1);
      mode := Sequence;
    } else if IsEscStringIntroducer(input[start]) {
      next, complete, mode := ScanStringControl(input, start + 1);
    } else {
      return start + 1, true, Normal;
    }
  }

  /** `DisplayStreamSanitizer`: the mode survives between calls; an unfinished rune does not. */
  class StreamSanitizer {
    var mode: Mode

    constructor ()
      ensures mode == Normal
    {
      mode := Normal;
    }

    method SanitizeBytes(input: Bytes) returns (out: Bytes)
      modifies this
      ensures out == Run(old(mode), input).out
      ensures mode == Run(old(mode), input).mode
    {
      out := [];
      var i := 0;
      NothingConsumed(mode, input);
      hide Run, RunAt, DecodeRune, EncodeRune, FullRune, IsStringIntroducer, IsDisplayControl;
      while i < |input|
        invariant i <= |input|
        invariant Run(old(mode), input) == Emit(out, RunAt(mode, input, i))
        decreases |input| - i, if mode == ControlStringEscape then 1 else 0
      {
        if mode == Escape {
          var next, complete, m := ScanEscContinuation(input, i);
          i := next;
          mode := if complete then Normal else m;
          if !complete {
            return;
          }
        } else if mode == Sequence {
          var next, complete := ScanControlSequence(input, i);
          i := next;
          if !complete {
            return;
          }
          mode := Normal;
        } else if mode == ControlString {
          var next, complete, m := ScanStringControl(input, i);
          i := next;
          mode := if complete then Normal else m;
          if !complete {
            return;
          }
        } else if mode == ControlStringEscape {
          StringEscapeMove(input, i);
          if input[i] == BACKSLASH {
            i := i + 1;
            mode := Normal;
          } else {
            mode := ControlString;
          }
        } else {
          var c := input[i];
          if c == ESC {
            IntroducerMove(input, i);
            if i + 1 >= |input| {
              NothingLeft(Escape, input);
              mode := Escape;
              return;
            }
            var next, complete, m := ScanEscContinuation(input, i + 1);
            i := next;
            if !complete {
              mode := m;
              return;
            }
          } else if c == CSI {
            IntroducerMove(input, i);
            var next, complete := ScanControlSequence(input, i + 1);
            i := next;
            if !complete {
              mode := Sequence;
              return;
            }
          } else if IsStringIntroducer(c) {
            IntroducerMove(input, i);
            var next, complete, m := ScanStringControl(input, i + 1);
            i := next;
            if !complete {
              mode := m;
              return;
            }
          } else if c < 0x20 || c == DEL {
            AsciiMove(input, i, out);
            if c == NEWLINE || c == TAB {
              out := out + [c];
            }
            i := i + 1;
          } else if c < RUNE_SELF {
            AsciiMove(input, i, out);
            out := out + [c];
            i := i + 1;
          } else {
            if !FullRune(input[i..]) {
              UnfinishedRune(input, i);
              return;
            }
            var d := DecodeRune(input[i..]);
            RuneMove(input, i, out);
            if d == Decoded(RUNE_ERROR, 1) {
              i := i + 1;
            } else if d.rune == CSI {
              var next, complete := ScanControlSequence(input, i + d.size);
              i := next;
              if !complete {
                mode := Sequence;
                return;
              }
            } else if IsStringIntroducer(d.rune) {
              var next, complete, m := ScanStringControl(input, i + d.size);
              i := next;
              if !complete {
                mode := m;
                return;
              }
            } else {
              if !IsDisplayControl(d.rune) {
                out := out + EncodeRune(d.rune);
              }
              i := i + d.size;
            }
          }
        }
      }
      NothingLeft(mode, input);
    }
  }

  // ---------------------------------------------------------------------------------------------
  // The one-shot form

  lemma {:induction false} ContinuationsShowNothing(m: Mode, s: Bytes)
    requires forall k :: 0 <= k < |s| ==> IsContinuation(s[k])
    ensures Run(m, s).out == []
    decreases |s|, if m == ControlStringEscape then 1 else 0
  {
    if s != [] {
      var move := Step(m, s);
      ContinuationsShowNothing(move.mode, s[move.size..]);
    }
  }

  /** An unfinished rune at the very end shows nothing, whether it is dropped whole or byte by byte. */
  lemma UnfinishedTailShowsNothing(input: Bytes, i: nat)
    requires i < |input| && !FullRune(input[i..])
    ensures DecodeRune(input[i..]) == Decoded(RUNE_ERROR, 1)
    ensures RunAt(Normal, input, i).out == [] && RunAt(Normal, input, i + 1).out == []
  {
    var s := input[i..];
    assert forall k :: 1 <= k < |s| ==> IsContinuation(s[k]);
    assert s[1..] == input[i + 1..];
    ContinuationsShowNothing(Normal, s[1..]);
  }

  method SkipControlSequence(input: Bytes, start: nat) returns (next: nat)
    requires start <= |input|
    ensures start <= next <= |input|
    ensures RunAt(Sequence, input, start).out == RunAt(Normal, input, next).out
  {
    next := start;
    while next < |input|
      invariant start <= next <= |input|
      invariant RunAt(Sequence, input, start) == RunAt(Sequence, input, next)
    {
      SequenceMove(input, next);
      var c := input[next];
      next := next + 1;
      if IsFinalByte(c) {
        return;
      }
    }
    NothingLeft(Sequence, input);
  }

  method SkipStringControl(input: Bytes, start: nat) returns (next: nat)
    requires start <= |input|
    ensures start <= next <= |input|
    ensures RunAt(ControlString, input, start).out == RunAt(Normal, input, next).out
  {
    next := start;
    while next < |input|
      invariant start <= next <= |input|
      invariant RunAt(ControlString, input, start).out == RunAt(ControlString, input, next).out
    {
      if input[next] == BEL || input[next] == ST {
        StringMove(input, next);
        return next + 1;
      } else if input[next] == ESC {
        if next + 1 < |input| && input[next + 1] == BACKSLASH {
          TwoByteTerminator(input, next);
          return next + 2;
        }
      } else if input[next] == 0xC2 {
        if next + 1 < |input| && input[next + 1] == ST {
          TwoByteTerminator(input, next);
          return next + 2;
        }
      }
      if input[next] == ESC && next + 1 == |input| {
        StringMove(input, next);
        NothingLeft(ControlStringEscape, input);
        NothingLeft(ControlString, input);
      } else {
        StringGoesOn(input, next);
      }
      next := next + 1;
    }
    NothingLeft(ControlString, input);
  }

  method SkipEscapeSequence(input: Bytes, start: nat) returns (next: nat)
    requires start <= |input|
    ensures start <= next <= |input|
    ensures RunAt(Escape, input, start).out == RunAt(Normal, input, next).out
  {
    if start >= |input| {
      NothingLeft(Escape, input);
      return start;
    }
    RunStep(Escape, input, start);
    if input[start] == BRACKET {
      next := SkipControlSequence(input, start + 1);
    } else if IsEscStringIntroducer(input[start]) {
      next := SkipStringControl(input, start + 1);
    } else {
      return start + 1;
    }
  }

  /** `SanitizeDisplayBytes`: one pass, no carried mode. It shows exactly what the stream form shows
      when it is handed the whole input at once. */
  method SanitizeDisplayBytes(input: Bytes) returns (out: Bytes)
    ensures out == Sanitize(input)
  {
    out := [];
    var i := 0;
    NothingConsumed(Normal, input);
    hide Run, RunAt, DecodeRune, EncodeRune, FullRune, IsStringIntroducer, IsDisplayControl;
    while i < |input|
      invariant i <= |input|
      invariant Sanitize(input) == Emit(out, RunAt(Normal, input, i)).out
    {
      var c := input[i];
      if c == ESC {
        IntroducerMove(input, i);
        i := SkipEscapeSequence(input, i + 1);
      } else if c == CSI {
        IntroducerMove(input, i);
        i := SkipControlSequence(input, i + 1);
      } else if IsStringIntroducer(c) {
        IntroducerMove(input, i);
        i := SkipStringControl(input, i + 1);
      } else if c < 0x20 || c == DEL {
        AsciiMove(input, i, out);
        if c == NEWLINE || c == TAB {
          out := out + [c];
        }
        i := i + 1;
      } else if c < RUNE_SELF {
        AsciiMove(input, i, out);
        out := out + [c];
        i := i + 1;
      } else {
        var d := DecodeRune(input[i..]);
        if FullRune(input[i..]) {
          RuneMove(input, i, out);
        } else {
          UnfinishedTailShowsNothing(input, i);
        }
        if d == Decoded(RUNE_ERROR, 1) {
          i := i + 1;
        } else if d.rune == CSI {
          i := SkipControlSequence(input, i + d.size);
        } else if IsStringIntroducer(d.rune) {
          i := SkipStringControl(input, i + d.size);
        } else {
          if !IsDisplayControl(d.rune) {
            out := out + EncodeRune(d.rune);
          }
          i := i + d.size;
        }
      }
    }
    NothingLeft(Normal, input);
  }
}
