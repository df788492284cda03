/** What the display filter does with each kind of input, in bytes: which introducers, terminators and final bytes it
    knows, that the three spellings of a control character agree, and which characters it shows. */
module DisplayForms {
  import opened Utf8
  import opened DisplayStream
  import opened DisplayChunks
  import opened DisplayErasure

  lemma AfterMove(m: Mode, w: Bytes, s: Bytes, move: Move)
    requires w + s != [] && !Stuck(m, w + s) && Step(m, w + s) == move && move.size == |w|
    ensures Run(m, w + s) == Emit(move.text, Run(move.mode, s))
  {
    hide Step, Stuck;
    assert (w + s)[|w|..] == s;
  }

  lemma EmitNothing(rest: Outcome)
    ensures Emit([], rest) == rest
  {
  }

  /** What an escape sequence of two bytes, or the C1 character it stands for, opens. */
  function Opened(b: Byte): Mode {
    if b == 0x5B then Sequence else if b in {0x50, 0x58, 0x5D, 0x5E, 0x5F} then ControlString else Normal
  }

  lemma SevenBitForm(b: Byte, s: Bytes)
    ensures Run(Normal, [0x1B, b] + s) == Run(Opened(b), s)
  {
    hide Run;
    AfterMove(Normal, [0x1B], [b] + s, Move([], Escape, 1));
    AfterMove(Escape, [b], s, Move([], Opened(b), 1));
    EmitNothing(Run(Escape, [b] + s));
    EmitNothing(Run(Opened(b), s));
    assert [0x1B] + ([b] + s) == [0x1B, b] + s;
  }

  lemma EightBitForm(b: Byte, s: Bytes)
    requires 0x40 <= b <= 0x5F
    ensures Run(Normal, [b + 0x40] + s) == Run(Opened(b), s)
  {
    hide Run;
    AfterMove(Normal, [b + 0x40], s, Move([], Opened(b), 1));
    EmitNothing(Run(Opened(b), s));
  }

  lemma Utf8Form(b: Byte, s: Bytes)
    requires 0x40 <= b <= 0x5F
    ensures Run(Normal, [0xC2, b + 0x40] + s) == Run(Opened(b), s)
  {
    hide Run;
    var w := [0xC2, b + 0x40];
    assert DecodeRune(w + s) == Decoded(b + 0x40, 2);
    AfterMove(Normal, w, s, Move([], Opened(b), 2));
    EmitNothing(Run(Opened(b), s));
  }

  /** ESC and a byte from @ to _, the raw C1 byte, and the C1 character in UTF-8 are one and the same to the filter. */
  lemma SpellingsAgree(b: Byte, s: Bytes)
    requires 0x40 <= b <= 0x5F
    ensures Run(Normal, [0x1B, b] + s) == Run(Normal, [b + 0x40] + s)
    ensures Run(Normal, [0x1B, b] + s) == Run(Normal, [0xC2, b + 0x40] + s)
  {
    hide Run;
    SevenBitForm(b, s);
    EightBitForm(b, s);
    Utf8Form(b, s);
  }

  /** The control strings of section 5.6 of ECMA-48: DCS, SOS, OSC, PM and APC, in three spellings each, end with BEL,
      with ST in three spellings, and with nothing else; all that lies between is erased. */
  lemma StringErased(m: Mode, prefix: Bytes, intro: Bytes, body: Bytes, terminator: Bytes, suffix: Bytes)
    requires Run(m, prefix).mode == Normal && Run(m, prefix).cut == []
    requires intro in {
      [0x1B, 0x50], [0x1B, 0x58], [0x1B, 0x5D], [0x1B, 0x5E], [0x1B, 0x5F],
      [0x90], [0x98], [0x9D], [0x9E], [0x9F],
      [0xC2, 0x90], [0xC2, 0x98], [0xC2, 0x9D], [0xC2, 0x9E], [0xC2, 0x9F]}
    requires forall i :: 0 <= i < |body| ==>
      body[i] != 0x07 && body[i] != 0x9C && (body[i] == 0x1B && i + 1 < |body| ==> body[i + 1] != 0x5C)
    requires terminator in {[0x07], [0x9C], [0xC2, 0x9C], [0x1B, 0x5C]}
    ensures Run(m, prefix + (intro + body + terminator) + suffix).out == Run(m, prefix).out + Sanitize(suffix)
  {
    var f := StringFunction(intro, body, terminator);
    assert IsStringOpening(intro) && IsTerminator(terminator) && HoldsNoTerminator(body);
    hide Run, IsStringOpening, IsTerminator, HoldsNoTerminator;
    ErasedWithoutTrace(m, prefix, f, suffix);
  }

  /** A control sequence of section 5.4 of ECMA-48 runs from its introducer to the first byte from @ to ~. */
  lemma SequenceErased(m: Mode, prefix: Bytes, intro: Bytes, parameters: Bytes, final: Byte, suffix: Bytes)
    requires Run(m, prefix).mode == Normal && Run(m, prefix).cut == []
    requires intro in {[0x1B, 0x5B], [0x9B], [0xC2, 0x9B]}
    requires forall i :: 0 <= i < |parameters| ==> parameters[i] < 0x40 || 0x7E < parameters[i]
    requires 0x40 <= final <= 0x7E
    ensures Run(m, prefix + (intro + parameters + [final]) + suffix).out == Run(m, prefix).out + Sanitize(suffix)
  {
    var f := SequenceFunction(intro, parameters, final);
    assert f.Valid();
    hide Run, IsSequenceOpening;
    ErasedWithoutTrace(m, prefix, f, suffix);
  }

  /** Any other byte after ESC goes with it, and nothing more. */
  lemma PairErased(m: Mode, prefix: Bytes, b: Byte, suffix: Bytes)
    requires Run(m, prefix).mode == Normal && Run(m, prefix).cut == []
    requires b !in {0x50, 0x58, 0x5B, 0x5D, 0x5E, 0x5F}
    ensures Run(m, prefix + [0x1B, b] + suffix).out == Run(m, prefix).out + Sanitize(suffix)
  {
    var f := EscapePair(b);
    assert f.Valid() && f.Text() == [0x1B, b];
    hide Run;
    ErasedWithoutTrace(m, prefix, f, suffix);
  }

  /** The characters that stay: newline, tab, and everything that is not a control character. */
  predicate Printable(r: nat) {
    r == 0x09 || r == 0x0A || 0x20 <= r <= 0x7E || 0xA0 <= r
  }

  /** In normal mode a character is shown, byte for byte, exactly when it is printable; a control character that
      introduces nothing is dropped alone. */
  lemma CharacterShownIff(r: nat, s: Bytes)
    requires r < 0xD800 || 0xE000 <= r <= 0x10FFFF
    requires r !in {0x1B, 0x90, 0x98, 0x9B, 0x9D, 0x9E, 0x9F}
    ensures Run(Normal, EncodeRune(r) + s) == Emit(if Printable(r) then EncodeRune(r) else [], Run(Normal, s))
  {
    var w := EncodeRune(r);
    DecodeOfEncode(r, s);
    LeadIsNoIntroducer(r);
    assert (w + s)[..|w|] == w;
    hide Run, EncodeRune, DecodeRune, StartsRune;
    AfterMove(Normal, w, s, Move(if Printable(r) then w else [], Normal, |w|));
  }

  lemma LeadIsNoIntroducer(r: nat)
    requires IsScalar(r) && r != 0x1B
    ensures |EncodeRune(r)| > 0
    ensures var c := EncodeRune(r)[0]; c != ESC && c != CSI && !IsStringIntroducer(c)
  {
  }

  /** A byte no rune starts with, and that introduces nothing, is dropped alone. */
  lemma InvalidByteDropped(b: Byte, s: Bytes)
    requires 0x80 <= b <= 0xC1 || 0xF5 <= b
    requires b !in {0x90, 0x98, 0x9B, 0x9D, 0x9E, 0x9F}
    ensures Run(Normal, [b] + s) == Run(Normal, s)
  {
    hide Run;
    AfterMove(Normal, [b], s, Move([], Normal, 1));
    EmitNothing(Run(Normal, s));
  }

  /** What may be dropped at the end of a chunk is exactly a proper, non-empty beginning of some character. */
  lemma UnfinishedRuneIff(p: Bytes)
    ensures IncompleteRune(p) <==> exists r: nat :: IsScalar(r) && Begins(p, r)
  {
    if IncompleteRune(p) {
      var w := p + Completion(p);
      assert StartsRune(w) && DecodeRune(w).size == |w|;
      EncodeOfDecode(w);
      assert w[..|w|] == w;
      assert Begins(p, DecodeRune(w).rune);
    }
    if r: nat :| IsScalar(r) && Begins(p, r) {
      var w := EncodeRune(r);
      DecodeOfEncode(r, []);
      assert w + [] == w;
      assert w[0] == p[0];
    }
  }

  ghost predicate Begins(p: Bytes, r: nat) {
    p != [] && |p| < |EncodeRune(r)| && p == EncodeRune(r)[..|p|]
  }
}
