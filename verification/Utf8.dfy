/** UTF-8 as the sanitizer sees it: the decoder, the encoder and the "is this rune complete?"
    test of Go's `unicode/utf8`, which accept exactly the byte sequences of section 4 of RFC 3629. */
module Utf8 {

  type Byte = b: int | 0 <= b < 0x100
  type Bytes = seq<Byte>

  const RUNE_SELF := 0x80
  const RUNE_ERROR := 0xFFFD

  /** How many bytes a rune led by `b` takes; 0 when no rune starts with `b`. */
  function LeadSize(b: Byte): nat {
    if b < 0x80 then 1
    else if 0xC2 <= b <= 0xDF then 2
    else if 0xE0 <= b <= 0xEF then 3
    else if 0xF0 <= b <= 0xF4 then 4
    else 0
  }

  predicate IsContinuation(b: Byte) {
    0x80 <= b <= 0xBF
  }

  /** The second byte is narrowed after four lead bytes: no overlong form, no surrogate, nothing above U+10FFFF. */
  predicate IsSecond(lead: Byte, b: Byte) {
    if lead == 0xE0 then 0xA0 <= b <= 0xBF
    else if lead == 0xED then 0x80 <= b <= 0x9F
    else if lead == 0xF0 then 0x90 <= b <= 0xBF
    else if lead == 0xF4 then 0x80 <= b <= 0x8F
    else IsContinuation(b)
  }

  /** The bytes of `s` do not contradict a rune that starts at `s[0]`, as far as they go. */
  predicate FitsRune(s: Bytes) {
    && |s| > 0
    && LeadSize(s[0]) > 0
    && (|s| > 1 && LeadSize(s[0]) > 1 ==> IsSecond(s[0], s[1]))
    && (|s| > 2 && LeadSize(s[0]) > 2 ==> IsContinuation(s[2]))
    && (|s| > 3 && LeadSize(s[0]) > 3 ==> IsContinuation(s[3]))
  }

  /** A complete, valid rune stands at the start of `s`. */
  predicate StartsRune(s: Bytes) {
    FitsRune(s) && |s| >= LeadSize(s[0])
  }

  /** All of `s` is the beginning of one rune whose last bytes are still missing. */
  predicate IncompleteRune(s: Bytes) {
    FitsRune(s) && |s| < LeadSize(s[0])
  }

  /** `utf8.FullRune`: an invalid start counts as full, because it decodes as a one-byte error. */
  predicate FullRune(s: Bytes) {
    |s| > 0 && !IncompleteRune(s)
  }

  /** The payload bits of a byte once its marker is taken off. */
  function Low(b: Byte, marker: Byte): int {
    b as int - marker as int
  }

  datatype Decoded = Decoded(rune: nat, size: nat)

  /** `utf8.DecodeRune`. */
  function DecodeRune(s: Bytes): (d: Decoded)
    ensures d.size <= |s|
    ensures s != [] ==> d.size >= 1
    ensures StartsRune(s) ==> d.size == LeadSize(s[0])
    ensures s != [] && !StartsRune(s) ==> d == Decoded(RUNE_ERROR, 1)
  {
    if s == [] then Decoded(RUNE_ERROR, 0)
    else if !StartsRune(s) then Decoded(RUNE_ERROR, 1)
    else if LeadSize(s[0]) == 1 then Decoded(s[0], 1)
    else if LeadSize(s[0]) == 2 then Decoded(Low(s[0], 0xC0) * 0x40 + Low(s[1], 0x80), 2)
    else if LeadSize(s[0]) == 3 then
      Decoded(Low(s[0], 0xE0) * 0x1000 + Low(s[1], 0x80) * 0x40 + Low(s[2], 0x80), 3)
    else
      Decoded(Low(s[0], 0xF0) * 0x40000 + Low(s[1], 0x80) * 0x1000 + Low(s[2], 0x80) * 0x40 + Low(s[3], 0x80), 4)
  }

  predicate IsScalar(r: nat) {
    r < 0xD800 || 0xE000 <= r <= 0x10FFFF
  }

  /** `utf8.AppendRune`: anything that is not a scalar value is written as the replacement character. */
  function EncodeRune(r: nat): Bytes {
    if r < 0x80 then [r]
    else if r < 0x800 then [0xC0 + r / 0x40, 0x80 + r % 0x40]
    else if !IsScalar(r) then [0xEF, 0xBF, 0xBD]
    else if r < 0x10000 then [0xE0 + r / 0x1000, 0x80 + r / 0x40 % 0x40, 0x80 + r % 0x40]
    else [0xF0 + r / 0x40000, 0x80 + r / 0x1000 % 0x40, 0x80 + r / 0x40 % 0x40, 0x80 + r % 0x40]
  }

  /** Encoding undoes decoding on every valid rune: what is written back is byte for byte what was read. */
  lemma EncodeOfDecode(s: Bytes)
    requires StartsRune(s)
    ensures IsScalar(DecodeRune(s).rune)
    ensures EncodeRune(DecodeRune(s).rune) == s[..DecodeRune(s).size]
  {
    var d := DecodeRune(s);
    if d.size == 3 {
      SplitThree(Low(s[0], 0xE0), Low(s[1], 0x80), Low(s[2], 0x80));
    } else if d.size == 4 {
      SplitFour(Low(s[0], 0xF0), Low(s[1], 0x80), Low(s[2], 0x80), Low(s[3], 0x80));
    }
  }

  /** The six-bit groups of a number. */
  lemma SplitThree(a: nat, b: nat, c: nat)
    requires b < 0x40 && c < 0x40
    ensures var r := a * 0x1000 + b * 0x40 + c; r / 0x1000 == a && r / 0x40 % 0x40 == b && r % 0x40 == c
  {
    var r := a * 0x1000 + b * 0x40 + c;
    assert r / 0x40 == a * 0x40 + b;
  }

  lemma SplitFour(a: nat, b: nat, c: nat, d: nat)
    requires b < 0x40 && c < 0x40 && d < 0x40
    ensures var r := a * 0x40000 + b * 0x1000 + c * 0x40 + d;
      r / 0x40000 == a && r / 0x1000 % 0x40 == b && r / 0x40 % 0x40 == c && r % 0x40 == d
  {
    var r := a * 0x40000 + b * 0x1000 + c * 0x40 + d;
    assert r / 0x40 == a * 0x1000 + b * 0x40 + c;
    assert r / 0x1000 == a * 0x40 + b;
  }

  lemma JoinGroups(r: nat)
    ensures r == r / 0x1000 * 0x1000 + r / 0x40 % 0x40 * 0x40 + r % 0x40
    ensures r == r / 0x40000 * 0x40000 + r / 0x1000 % 0x40 * 0x1000 + r / 0x40 % 0x40 * 0x40 + r % 0x40
  {
    assert r == r / 0x40 * 0x40 + r % 0x40;
    assert r / 0x40 == r / 0x1000 * 0x40 + r / 0x40 % 0x40;
    assert r / 0x1000 == r / 0x40000 * 0x40 + r / 0x1000 % 0x40;
  }

  /** Decoding undoes encoding on every scalar value, whatever follows the rune. */
  lemma DecodeOfEncode(r: nat, tail: Bytes)
    requires IsScalar(r)
    ensures StartsRune(EncodeRune(r) + tail)
    ensures DecodeRune(EncodeRune(r) + tail) == Decoded(r, |EncodeRune(r)|)
  {
    var w := EncodeRune(r);
    DecodeOfEncodeAlone(r);
    DecodeIgnoresTail(w, tail);
  }

  lemma DecodeOfEncodeAlone(r: nat)
    requires IsScalar(r)
    ensures StartsRune(EncodeRune(r))
    ensures DecodeRune(EncodeRune(r)) == Decoded(r, |EncodeRune(r)|)
  {
    JoinGroups(r);
  }

  /** Whether a rune starts here, and which, is settled by a full rune: later bytes do not matter. */
  lemma DecodeIgnoresTail(s: Bytes, tail: Bytes)
    requires FullRune(s)
    ensures FullRune(s + tail)
    ensures StartsRune(s + tail) == StartsRune(s)
    ensures DecodeRune(s + tail) == DecodeRune(s)
  {
  }

  /** Well-formed UTF-8: a concatenation of valid runes. */
  ghost predicate WellFormed(s: Bytes) {
    s == [] || (StartsRune(s) && WellFormed(s[DecodeRune(s).size..]))
  }

  /** No suffix of a well-formed string is the beginning of an unfinished rune. */
  lemma {:induction false} WellFormedHasNoIncompleteTail(s: Bytes, k: nat)
    requires WellFormed(s) && k <= |s|
    ensures !IncompleteRune(s[k..])
  {
    if k < |s| {
      var size := DecodeRune(s).size;
      if k == 0 {
        assert s[0..] == s;
      } else if k < size {
        assert IsContinuation(s[k]);
      } else {
        WellFormedHasNoIncompleteTail(s[size..], k - size);
        assert s[size..][k - size..] == s[k..];
      }
    }
  }
}
