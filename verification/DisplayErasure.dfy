/** Complete control functions leave no trace, in one piece or divided into chunks at any byte. */
module DisplayErasure {
  import opened Utf8
  import opened DisplayStream
  import opened DisplayChunks

  /** The control functions the sanitizer removes, in every spelling it accepts. */
  datatype ControlFunction =
    | StringFunction(intro: Bytes, body: Bytes, terminator: Bytes)
    | SequenceFunction(intro: Bytes, parameters: Bytes, final: Byte)
    | EscapePair(second: Byte)
  {
    ghost predicate Valid() {
      match this
      case StringFunction(_, _, _) => IsStringOpening(intro) && HoldsNoTerminator(body) && IsTerminator(terminator)
      case SequenceFunction(_, _, _) =>
        && IsSequenceOpening(intro)
        && (forall i :: 0 <= i < |parameters| ==> !IsFinalByte(parameters[i]))
        && IsFinalByte(final)
      case EscapePair(_) => second != BRACKET && !IsEscStringIntroducer(second)
    }

    function Text(): Bytes {
      match this
      case StringFunction(_, _, _) => intro + body + terminator
      case SequenceFunction(_, _, _) => intro + parameters + [final]
      case EscapePair(_) => [ESC, second]
    }
  }

  /** ESC and a letter, one raw C1 byte, or the same C1 character in UTF-8. */
  ghost predicate IsStringOpening(w: Bytes) {
    || (|w| == 2 && w[0] == ESC && IsEscStringIntroducer(w[1]))
    || (|w| == 1 && IsStringIntroducer(w[0]))
    || (|w| == 2 && w[0] == 0xC2 && IsStringIntroducer(w[1]))
  }

  ghost predicate IsSequenceOpening(w: Bytes) {
    w == [ESC, BRACKET] || w == [CSI] || w == [0xC2, CSI]
  }

  ghost predicate IsTerminator(w: Bytes) {
    w == [BEL] || w == [ST] || w == [0xC2, ST] || w == [ESC, BACKSLASH]
  }

  ghost predicate HoldsNoTerminator(body: Bytes) {
    forall i :: 0 <= i < |body| ==>
      && body[i] != BEL && body[i] != ST
      && (body[i] == ESC && i + 1 < |body| ==> body[i + 1] != BACKSLASH)
  }

  /** From mode `m`, the machine shows nothing and comes back to normal mode at the last byte of `w` and not before. */
  ghost predicate Closes(m: Mode, w: Bytes)
    decreases |w|, if m == ControlStringEscape then 1 else 0
  {
    if w == [] then m == Normal
    else m != Normal && Closes(Step(m, w).mode, w[Step(m, w).size..])
  }

  lemma {:induction false} ClosesSplits(m: Mode, a: Bytes, b: Bytes)
    requires Closes(m, a + b)
    ensures Run(m, a) == Outcome([], Run(m, a).mode, [])
    ensures Closes(Run(m, a).mode, b)
    decreases |a|, if m == ControlStringEscape then 1 else 0
  {
    if a == [] {
      assert a + b == b;
    } else {
      StepIgnoresTail(m, a, b);
      var move := Step(m, a);
      assert (a + b)[move.size..] == a[move.size..] + b;
      ClosesSplits(move.mode, a[move.size..], b);
    }
  }

  lemma {:induction false} ClosesInChunks(m: Mode, chunks: seq<Bytes>)
    requires Closes(m, Concat(chunks))
    ensures RunChunks(m, chunks) == Outcome([], Normal, [])
    decreases chunks
  {
    if chunks != [] {
      ClosesSplits(m, chunks[0], Concat(chunks[1..]));
      ClosesInChunks(Run(m, chunks[0]).mode, chunks[1..]);
    }
  }

  lemma {:induction false} StringCloses(body: Bytes, terminator: Bytes)
    requires HoldsNoTerminator(body) && IsTerminator(terminator)
    ensures Closes(ControlString, body + terminator)
  {
    var w := body + terminator;
    if body == [] {
      assert w == terminator;
      TerminatorCloses(terminator);
    } else {
      StringCloses(body[1..], terminator);
      assert w[1..] == body[1..] + terminator;
      assert body[0] == ESC ==> w[1] != BACKSLASH;
    }
  }

  lemma TerminatorCloses(t: Bytes)
    requires IsTerminator(t)
    ensures Closes(ControlString, t)
  {
    if |t| == 2 {
      assert t[1..] == [t[1]] && t[1..][1..] == [];
      assert Closes(Step(ControlString, t).mode, t[1..]);
    }
  }

  lemma {:induction false} SequenceCloses(parameters: Bytes, final: Byte)
    requires forall i :: 0 <= i < |parameters| ==> !IsFinalByte(parameters[i])
    requires IsFinalByte(final)
    ensures Closes(Sequence, parameters + [final])
  {
    var w := parameters + [final];
    if parameters == [] {
      assert w == [final] && w[1..] == [];
    } else {
      SequenceCloses(parameters[1..], final);
      assert w[1..] == parameters[1..] + [final];
    }
  }

  /** In normal mode, `w` opens something with its first move and closes it at its own end. */
  ghost predicate OpensAndCloses(w: Bytes) {
    && w != [] && !Stuck(Normal, w)
    && var move := Step(Normal, w);
    && move.text == []
    && move.mode != Normal
    && move.size <= (if w[0] == 0xC2 then 2 else 1)
    && Closes(move.mode, w[move.size..])
  }

  lemma FunctionOpensAndCloses(f: ControlFunction)
    requires f.Valid()
    ensures OpensAndCloses(f.Text())
  {
    match f
    case StringFunction(intro, body, terminator) =>
      StringCloses(body, terminator);
      AfterIntroducer(intro, body + terminator, ControlString);
      hide OpensAndCloses;
      assert f.Text() == intro + (body + terminator);
    case SequenceFunction(intro, parameters, final) =>
      SequenceCloses(parameters, final);
      AfterIntroducer(intro, parameters + [final], Sequence);
      hide OpensAndCloses;
      assert f.Text() == intro + (parameters + [final]);
    case EscapePair(second) =>
      PairOpensAndCloses(second);
  }

  lemma PairOpensAndCloses(second: Byte)
    requires second != BRACKET && !IsEscStringIntroducer(second)
    ensures OpensAndCloses([ESC, second])
  {
    var w: Bytes := [ESC, second];
    assert w[1..] == [second] && w[1..][1..] == [];
    assert Step(Escape, [second]) == Move([], Normal, 1);
  }

  /** The machine stands right behind an introducer in the mode that the introducer opens. */
  lemma AfterIntroducer(intro: Bytes, rest: Bytes, m: Mode)
    requires (m == ControlString && IsStringOpening(intro)) || (m == Sequence && IsSequenceOpening(intro))
    requires Closes(m, rest)
    ensures OpensAndCloses(intro + rest)
  {
    if intro[0] == ESC {
      AfterEscapeIntroducer(intro, rest, m);
    } else {
      AfterC1Introducer(intro, rest, m);
    }
  }

  lemma AfterEscapeIntroducer(intro: Bytes, rest: Bytes, m: Mode)
    requires |intro| == 2 && intro[0] == ESC
    requires (m == ControlString && IsEscStringIntroducer(intro[1])) || (m == Sequence && intro[1] == BRACKET)
    requires Closes(m, rest)
    ensures var w := intro + rest;
      !Stuck(Normal, w) && Step(Normal, w) == Move([], Escape, 1) && Closes(Escape, w[1..])
  {
    var w := intro + rest;
    assert w[1..] == [intro[1]] + rest && w[1..][1..] == rest;
    assert Step(Escape, w[1..]) == Move([], m, 1);
    hide Step;
  }

  lemma AfterC1Introducer(intro: Bytes, rest: Bytes, m: Mode)
    requires |intro| == 1 || (|intro| == 2 && intro[0] == 0xC2)
    requires var last := intro[|intro| - 1]; (m == ControlString && IsStringIntroducer(last)) || (m == Sequence && last == CSI)
    ensures var w := intro + rest;
      !Stuck(Normal, w) && Step(Normal, w) == Move([], m, |intro|) && w[|intro|..] == rest
  {
    var w := intro + rest;
    if |intro| == 2 {
      assert DecodeRune(w) == Decoded(intro[1], 2);
    }
  }

  /** What is left of a UTF-8 introducer whose first byte was dropped is the raw form of the same introducer. */
  function Raw(f: ControlFunction): ControlFunction
    requires !f.EscapePair? && |f.intro| > 0
  {
    f.(intro := f.intro[1..])
  }

  lemma CutIntroducerStillHides(f: ControlFunction)
    requires f.Valid() && f.Text()[0] == 0xC2
    ensures !f.EscapePair? && |f.intro| > 0
    ensures Raw(f).Valid() && Raw(f).Text() == f.Text()[1..]
  {
    var tail := if f.StringFunction? then f.body + f.terminator else f.parameters + [f.final];
    hide HoldsNoTerminator, IsTerminator, IsFinalByte;
    assert f.Text() == f.intro + tail;
    assert f.intro[0] == 0xC2 && f.intro == [0xC2, f.intro[1]];
    DropFirst(f.intro, tail);
    assert Raw(f).intro == [f.intro[1]];
    assert Raw(f).Text() == f.intro[1..] + tail;
  }

  lemma DropFirst(a: Bytes, b: Bytes)
    requires a != []
    ensures (a + b)[1..] == a[1..] + b
  {
  }

  /** A complete control function, divided into chunks at any byte (even inside its introducer), shows nothing
      and leaves the machine in normal mode. */
  lemma {:induction false} FunctionHiddenInChunks(f: ControlFunction, chunks: seq<Bytes>)
    requires f.Valid() && Concat(chunks) == f.Text()
    ensures RunChunks(Normal, chunks).out == [] && RunChunks(Normal, chunks).mode == Normal
    decreases chunks
  {
    var w := f.Text();
    FunctionOpensAndCloses(f);
    var a, rest := chunks[0], Concat(chunks[1..]);
    var move := Step(Normal, w);
    if a == [] {
      assert rest == w;
      FunctionHiddenInChunks(f, chunks[1..]);
    } else if |a| < move.size {
      assert w[0] == 0xC2 && a == [0xC2] && rest == w[1..];
      CutIntroducerStillHides(f);
      FunctionHiddenInChunks(Raw(f), chunks[1..]);
      LoneLeadByteIsCut();
    } else {
      FunctionSurvivesFirstChunk(w, a, rest);
      ClosesInChunks(Run(Normal, a).mode, chunks[1..]);
    }
  }

  lemma LoneLeadByteIsCut()
    ensures Run(Normal, [0xC2]) == Outcome([], Normal, [0xC2])
  {
  }

  lemma FunctionSurvivesFirstChunk(w: Bytes, a: Bytes, rest: Bytes)
    requires w == a + rest && a != [] && OpensAndCloses(w) && Step(Normal, w).size <= |a|
    ensures Run(Normal, a).out == [] && Run(Normal, a).cut == [] && Closes(Run(Normal, a).mode, rest)
  {
    NotStuckYet(w, a, rest);
    StepIgnoresTail(Normal, a, rest);
    var move := Step(Normal, a);
    assert w[move.size..] == a[move.size..] + rest;
    hide Step, Stuck;
    ClosesSplits(move.mode, a[move.size..], rest);
  }

  lemma NotStuckYet(w: Bytes, a: Bytes, rest: Bytes)
    requires w == a + rest && a != [] && !Stuck(Normal, w)
    requires Step(Normal, w).size <= |a| && Step(Normal, w).size <= (if w[0] == 0xC2 then 2 else 1)
    requires Step(Normal, w).text == [] && Step(Normal, w).mode != Normal
    ensures !Stuck(Normal, a)
  {
  }

  /** In one piece: removing a complete control function from the middle of a text changes nothing that is shown,
      provided the text before it ends in normal mode and not inside a rune. */
  lemma ErasedWithoutTrace(m: Mode, prefix: Bytes, f: ControlFunction, suffix: Bytes)
    requires f.Valid()
    requires Run(m, prefix).mode == Normal && Run(m, prefix).cut == []
    ensures Run(m, prefix + f.Text() + suffix) == Run(m, prefix + suffix)
    ensures Run(m, prefix + f.Text() + suffix).out == Run(m, prefix).out + Sanitize(suffix)
  {
    FunctionRunsSilently(f);
    SilentTextErased(m, prefix, f.Text(), suffix);
  }

  lemma SilentTextErased(m: Mode, prefix: Bytes, w: Bytes, suffix: Bytes)
    requires Run(Normal, w) == Outcome([], Normal, [])
    requires Run(m, prefix).mode == Normal && Run(m, prefix).cut == []
    ensures Run(m, prefix + w + suffix) == Run(m, prefix + suffix)
    ensures Run(m, prefix + w + suffix).out == Run(m, prefix).out + Sanitize(suffix)
  {
    hide Run;
    RunSplits(Normal, w, suffix);
    assert Emit([], Run(Normal, suffix)) == Run(Normal, suffix);
    assert prefix + w + suffix == prefix + (w + suffix);
    RunSplits(m, prefix, w + suffix);
    RunSplits(m, prefix, suffix);
  }

  lemma FunctionRunsSilently(f: ControlFunction)
    requires f.Valid()
    ensures Run(Normal, f.Text()) == Outcome([], Normal, [])
  {
    var w := f.Text();
    FunctionOpensAndCloses(f);
    assert w + [] == w;
    FunctionSurvivesFirstChunk(w, w, []);
  }

  lemma {:induction false} RunChunksAppend(m: Mode, before: seq<Bytes>, after: seq<Bytes>)
    ensures RunChunks(m, before + after) == Then(RunChunks(m, before), RunChunks(RunChunks(m, before).mode, after))
    decreases before
  {
    if before == [] {
      assert before + after == after;
    } else {
      var first := Run(m, before[0]);
      RunChunksAppend(first.mode, before[1..], after);
      assert (before + after)[1..] == before[1..] + after;
      var tail := RunChunks(first.mode, before[1..]);
      ThenIsAssociative(first, tail, RunChunks(tail.mode, after));
    }
  }

  /** In a stream: a provider that splits a control function over chunks leaks none of it, whatever it sent before. */
  lemma HiddenBetweenChunks(m: Mode, before: seq<Bytes>, f: ControlFunction, hidden: seq<Bytes>, after: seq<Bytes>)
    requires f.Valid() && Concat(hidden) == f.Text()
    requires RunChunks(m, before).mode == Normal
    ensures RunChunks(m, before + hidden + after).out == RunChunks(m, before).out + RunChunks(Normal, after).out
  {
    FunctionHiddenInChunks(f, hidden);
    RunChunksAppend(m, before, hidden);
    RunChunksAppend(m, before + hidden, after);
  }
}
