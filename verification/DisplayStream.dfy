/** The recognised language of the display sanitizer, as a byte-by-byte machine.

    Each mode names what an unfinished escape or control sequence (sections 5.4 and 5.6 of ECMA-48)
    still waits for. `Run` is the specification that the index loops of both sanitizers are proved
    against; the theorems about what gets through the filter are stated about `Run`. */
module DisplayStream {
  import opened Utf8

  const ESC: Byte := 0x1B
  const BEL: Byte := 0x07
  const ST: Byte := 0x9C
  const CSI: Byte := 0x9B
  const BACKSLASH: Byte := 0x5C
  const BRACKET: Byte := 0x5B
  const NEWLINE: Byte := 0x0A
  const TAB: Byte := 0x09
  const DEL: Byte := 0x7F

  datatype Mode = Normal | Escape | Sequence | ControlString | ControlStringEscape

  /** What one call leaves behind: the text it lets through, the mode it carries to the next call,
      and the unfinished rune at the end of the input that it drops. */
  datatype Outcome = Outcome(out: Bytes, mode: Mode, cut: Bytes)

  predicate IsStringIntroducer(r: nat) {
    r in {0x90, 0x98, 0x9D, 0x9E, 0x9F}
  }

  /** ], P, ^, _ and X after ESC. */
  predicate IsEscStringIntroducer(b: Byte) {
    b in {0x5D, 0x50, 0x5E, 0x5F, 0x58}
  }

  predicate IsFinalByte(b: Byte) {
    0x40 <= b <= 0x7E
  }

  /** `unicode.IsControl`: category Cc, which lies wholly in Latin-1. */
  predicate IsControl(r: nat) {
    r < 0x20 || 0x7F <= r < 0xA0
  }

  predicate IsDisplayControl(r: nat) {
    IsControl(r) && r != NEWLINE && r != TAB
  }

  function Emit(text: Bytes, rest: Outcome): Outcome {
    rest.(out := text + rest.out)
  }

  /** One move of the machine: the text it shows, the mode it enters, the bytes it consumes. */
  datatype Move = Move(text: Bytes, mode: Mode, size: nat)

  /** The only input a call cannot digest: an unfinished rune at its end. */
  predicate Stuck(m: Mode, s: Bytes) {
    m == Normal && IncompleteRune(s)
  }

  lemma EmitTwice(a: Bytes, b: Bytes, rest: Outcome)
    ensures Emit(a, Emit(b, rest)) == Emit(a + b, rest)
  {
    assert a + (b + rest.out) == a + b + rest.out;
  }

  function Step(m: Mode, s: Bytes): (move: Move)
    requires s != [] && !Stuck(m, s)
    ensures move.size <= |s|
    ensures move.size == 0 ==> m == ControlStringEscape && move.mode == ControlString
    ensures move.text == [] || move.text == s[..move.size]
  {
    var c := s[0];
    match m
    case Normal =>
      if c == ESC then Move([], Escape, 1)
      else if c == CSI then Move([], Sequence, 1)
      else if IsStringIntroducer(c) then Move([], ControlString, 1)
      else if !StartsRune(s) then Move([], Normal, 1)
      else
        var d := DecodeRune(s);
        if d.rune == CSI then Move([], Sequence, d.size)
        else if IsStringIntroducer(d.rune) then Move([], ControlString, d.size)
        else Move(if IsDisplayControl(d.rune) then [] else s[..d.size], Normal, d.size)
    case Escape =>
      Move([], if c == BRACKET then Sequence else if IsEscStringIntroducer(c) then ControlString else Normal, 1)
    case Sequence =>
      Move([], if IsFinalByte(c) then Normal else Sequence, 1)
    case ControlString =>
      Move([], if c == BEL || c == ST then Normal else if c == ESC then ControlStringEscape else ControlString, 1)
    case ControlStringEscape =>
      if c == BACKSLASH then Move([], Normal, 1) else Move([], ControlString, 0)
  }

  /** Everything one call does with `s` when it starts in mode `m`. The only move that consumes nothing
      leaves `ControlStringEscape`, so input length and then mode make every call end. */
  function Run(m: Mode, s: Bytes): Outcome
    decreases |s|, if m == ControlStringEscape then 1 else 0
  {
    if s == [] then Outcome([], m, [])
    else if Stuck(m, s) then Outcome([], m, s)
    else
      var move := Step(m, s);
      Emit(move.text, Run(move.mode, s[move.size..]))
  }

  /** The text a whole byte string shows. */
  function Sanitize(s: Bytes): Bytes {
    Run(Normal, s).out
  }

  // ---------------------------------------------------------------------------------------------
  // Feeding the input in pieces

  function Concat(chunks: seq<Bytes>): Bytes {
    if chunks == [] then [] else chunks[0] + Concat(chunks[1..])
  }

  /** The chunks one call after another: all text, the final mode, and everything dropped at chunk ends. */
  function RunChunks(m: Mode, chunks: seq<Bytes>): Outcome
    decreases chunks
  {
    if chunks == [] then Outcome([], m, [])
    else
      var first := Run(m, chunks[0]);
      Then(first, RunChunks(first.mode, chunks[1..]))
  }

  /** Two calls in a row. */
  function Then(a: Outcome, b: Outcome): Outcome {
    Outcome(a.out + b.out, b.mode, a.cut + b.cut)
  }

  lemma ThenIsAssociative(a: Outcome, b: Outcome, c: Outcome)
    ensures Then(Then(a, b), c) == Then(a, Then(b, c))
  {
    assert a.out + b.out + c.out == a.out + (b.out + c.out);
    assert a.cut + b.cut + c.cut == a.cut + (b.cut + c.cut);
  }

  lemma StepIgnoresTail(m: Mode, a: Bytes, b: Bytes)
    requires a != [] && !Stuck(m, a)
    ensures !Stuck(m, a + b) && Step(m, a + b) == Step(m, a)
  {
    if m == Normal {
      DecodeIgnoresTail(a, b);
    }
  }

  /** A cut that drops no unfinished rune is invisible. */
  lemma {:induction false} RunSplits(m: Mode, a: Bytes, b: Bytes)
    requires Run(m, a).cut == []
    ensures Run(m, a + b) == Emit(Run(m, a).out, Run(Run(m, a).mode, b))
    decreases |a|, if m == ControlStringEscape then 1 else 0
  {
    if a == [] {
      assert a + b == b;
    } else {
      StepIgnoresTail(m, a, b);
      var move := Step(m, a);
      assert (a + b)[move.size..] == a[move.size..] + b;
      var tail := Run(move.mode, a[move.size..]);
      RunSplits(move.mode, a[move.size..], b);
      EmitTwice(move.text, tail.out, Run(tail.mode, b));
    }
  }

  /** What a call drops is the end of its input and an unfinished rune, and it drops it in normal mode. */
  lemma {:induction false} CutIsUnfinishedRune(m: Mode, s: Bytes)
    ensures var r := Run(m, s);
      && |r.cut| <= |s|
      && r.cut == s[|s| - |r.cut|..]
      && (r.cut != [] ==> r.mode == Normal && IncompleteRune(r.cut))
    decreases |s|, if m == ControlStringEscape then 1 else 0
  {
    if s != [] && !Stuck(m, s) {
      var move := Step(m, s);
      CutIsUnfinishedRune(move.mode, s[move.size..]);
    }
  }

  /** A chunk of valid UTF-8 never ends in an unfinished rune, in whatever mode it finds the machine. */
  lemma ValidChunkHasNoCut(m: Mode, s: Bytes)
    requires WellFormed(s)
    ensures Run(m, s).cut == []
  {
    CutIsUnfinishedRune(m, s);
    WellFormedHasNoIncompleteTail(s, |s| - |Run(m, s).cut|);
  }

  /** Bytes that finish the rune `p` begins, none of which introduces a control sequence. */
  function Completion(p: Bytes): (q: Bytes)
    requires IncompleteRune(p)
    ensures |p| + |q| == LeadSize(p[0])
    ensures forall i :: 0 <= i < |q| ==> q[i] == 0x80 || q[i] == 0xBF
  {
    var second: Byte := if p[0] == 0xED || p[0] == 0xF4 then 0x80 else 0xBF;
    if |p| > 1 then seq(LeadSize(p[0]) - |p|, _ => 0xBF)
    else [second] + seq(LeadSize(p[0]) - 2, _ => 0xBF)
  }

  /** Stray continuation bytes show nothing. */
  lemma {:induction false} StrayBytesShowNothing(q: Bytes)
    requires forall i :: 0 <= i < |q| ==> q[i] == 0x80 || q[i] == 0xBF
    ensures Run(Normal, q) == Outcome([], Normal, [])
  {
    if q != [] {
      StrayBytesShowNothing(q[1..]);
    }
  }

  /** The finished rune is shown. */
  lemma CompletedRuneShows(p: Bytes)
    requires IncompleteRune(p)
    ensures Run(Normal, p + Completion(p)) == Outcome(p + Completion(p), Normal, [])
  {
    var w := p + Completion(p);
    assert StartsRune(w) && DecodeRune(w).size == |w|;
    assert w[..|w|] == w && w[|w|..] == [];
    assert Step(Normal, w) == Move(w, Normal, |w|);
  }

  /** The prefix before an unfinished rune runs on as if the rune were not there. */
  lemma {:induction false} RunBeforeCut(m: Mode, s: Bytes, b: Bytes)
    requires Run(m, s).cut != []
    ensures Run(m, s + b) == Emit(Run(m, s).out, Run(Normal, Run(m, s).cut + b))
    decreases |s|, if m == ControlStringEscape then 1 else 0
  {
    if !Stuck(m, s) {
      StepIgnoresTail(m, s, b);
      var move := Step(m, s);
      assert (s + b)[move.size..] == s[move.size..] + b;
      var tail := Run(move.mode, s[move.size..]);
      RunBeforeCut(move.mode, s[move.size..], b);
      EmitTwice(move.text, tail.out, Run(Normal, tail.cut + b));
    }
  }

  /** The chunk `s` may be cut off from any continuation without changing the shown text. */
  ghost predicate Transparent(m: Mode, s: Bytes) {
    forall rest: Bytes :: Run(m, s).out + Run(Run(m, s).mode, rest).out == Run(m, s + rest).out
  }

  /** A chunk end is transparent to every continuation exactly when it does not cut a rune. */
  lemma TransparentIffNoCut(m: Mode, s: Bytes)
    ensures Transparent(m, s) <==> Run(m, s).cut == []
  {
    if Run(m, s).cut == [] {
      forall rest: Bytes ensures Run(m, s).out + Run(Run(m, s).mode, rest).out == Run(m, s + rest).out {
        RunSplits(m, s, rest);
      }
    } else {
      CutIsUnfinishedRune(m, s);
      var p := Run(m, s).cut;
      var q := Completion(p);
      StrayBytesShowNothing(q);
      CompletedRuneShows(p);
      RunBeforeCut(m, s, q);
      assert |Run(m, s + q).out| > |Run(m, s).out + Run(Normal, q).out|;
    }
  }
}
