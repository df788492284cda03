/** Bounded previews of tool output: lines cut at a rune boundary, long outputs reduced to head and tail. */
module DisplayPreview {
  import opened Utf8
  import opened TextLines

  const MaxDisplayLine := 512
  const NewLine: Byte := 0x0A
  const Ellipsis: Bytes := [0xE2, 0x80, 0xA6]

  /** A text of ASCII characters as bytes. */
  function Ascii(s: string): (b: Bytes)
    requires forall i :: 0 <= i < |s| ==> ' ' <= s[i] <= '~'
    ensures |b| == |s| && Printable(b) && forall i :: 0 <= i < |s| ==> b[i] == s[i] as int
  {
    seq(|s|, i requires 0 <= i < |s| => s[i] as int)
  }

  function Decimal(n: nat): (d: Bytes)
    ensures d != [] && Printable(d)
  {
    if n < 10 then [0x30 + n] else Decimal(n / 10) + [0x30 + n % 10]
  }

  /** The number a decimal numeral denotes. */
  function Numeral(d: Bytes): int {
    if d == [] then 0 else 10 * Numeral(d[..|d| - 1]) + d[|d| - 1] as int - 0x30
  }

  /** Reading the numeral gives the number back, and every byte of it is a digit. */
  lemma {:induction false} DecimalReadsBack(n: nat)
    ensures Numeral(Decimal(n)) == n
    ensures forall i :: 0 <= i < |Decimal(n)| ==> 0x30 <= Decimal(n)[i] <= 0x39
  {
    var d := Decimal(n);
    if n < 10 {
      assert d[..0] == [];
    } else {
      DecimalReadsBack(n / 10);
      assert d[..|d| - 1] == Decimal(n / 10);
    }
  }

  /** ASCII without control characters. */
  predicate Printable(s: Bytes) {
    forall i :: 0 <= i < |s| ==> 0x20 <= s[i] < 0x7F
  }

  function CutMarker(dropped: nat): Bytes {
    Ellipsis + (Ascii("(+") + Decimal(dropped) + Ascii(" bytes)"))
  }

  function HiddenMarker(hidden: nat): Bytes {
    Ellipsis + (Ascii(" ") + Decimal(hidden) + if hidden == 1 then Ascii(" more line ") else Ascii(" more lines ")) + Ellipsis
  }

  /** The note behind a cut line, byte for byte: an ellipsis and `(+N bytes)`. */
  lemma CutNoteReads(n: nat)
    ensures CutMarker(n) == [0xE2, 0x80, 0xA6, 0x28, 0x2B] + Decimal(n) + [0x20, 0x62, 0x79, 0x74, 0x65, 0x73, 0x29]
  {
    hide Decimal;
    assert Ascii("(+") == [0x28, 0x2B];
    assert Ascii(" bytes)") == [0x20, 0x62, 0x79, 0x74, 0x65, 0x73, 0x29];
    Regroup(Ellipsis, [0x28, 0x2B], Decimal(n), [0x20, 0x62, 0x79, 0x74, 0x65, 0x73, 0x29]);
  }

  lemma Regroup(a: Bytes, b: Bytes, c: Bytes, d: Bytes)
    ensures a + (b + c + d) == (a + b) + c + d
  {
  }

  /** The note in the middle of a preview: `N more lines` between two ellipses, `1 more line` for one. */
  lemma HiddenNoteReads(n: nat, word: Bytes)
    requires n == 1 ==> word == [0x20, 0x6D, 0x6F, 0x72, 0x65, 0x20, 0x6C, 0x69, 0x6E, 0x65, 0x20]
    requires n != 1 ==> word == [0x20, 0x6D, 0x6F, 0x72, 0x65, 0x20, 0x6C, 0x69, 0x6E, 0x65, 0x73, 0x20]
    ensures HiddenMarker(n) == [0xE2, 0x80, 0xA6, 0x20] + Decimal(n) + word + [0xE2, 0x80, 0xA6]
  {
    hide Decimal;
    assert Ascii(" ") == [0x20];
    Regroup(Ellipsis, [0x20], Decimal(n), word);
    Words();
  }

  lemma Words()
    ensures Ascii(" more line ") == [0x20, 0x6D, 0x6F, 0x72, 0x65, 0x20, 0x6C, 0x69, 0x6E, 0x65, 0x20]
    ensures Ascii(" more lines ") == [0x20, 0x6D, 0x6F, 0x72, 0x65, 0x20, 0x6C, 0x69, 0x6E, 0x65, 0x73, 0x20]
  {
  }

  /** The last place at or before `end` where a rune may start. */
  function BackUp(s: Bytes, end: nat): (e: nat)
    requires end < |s|
    ensures e <= end && (e == 0 || !IsContinuation(s[e])) && forall i :: e < i <= end ==> IsContinuation(s[i])
  {
    if end == 0 || !IsContinuation(s[end]) then end else BackUp(s, end - 1)
  }

  function Clipped(s: Bytes): Bytes {
    if |s| <= MaxDisplayLine then s
    else
      var end := BackUp(s, MaxDisplayLine);
      s[..end] + CutMarker(|s| - end)
  }

  method Clip(s: Bytes) returns (r: Bytes)
    ensures r == Clipped(s)
  {
    if |s| <= MaxDisplayLine {
      return s;
    }
    var end := MaxDisplayLine;
    while end > 0 && IsContinuation(s[end])
      invariant 0 <= end <= MaxDisplayLine
      invariant BackUp(s, end) == BackUp(s, MaxDisplayLine)
    {
      end := end - 1;
    }
    return s[..end] + CutMarker(|s| - end);
  }

  // ----- cutting never splits a rune -----

  /** A well-formed text divided where a rune may start is two well-formed texts. */
  lemma {:induction false} DividesAtRune(s: Bytes, k: nat)
    requires WellFormed(s) && k < |s| && !IsContinuation(s[k])
    ensures WellFormed(s[..k]) && WellFormed(s[k..])
  {
    if k == 0 {
      assert s[0..] == s;
    } else {
      var size := DecodeRune(s).size;
      InsideRune(s, k);
      hide StartsRune, DecodeRune, IsContinuation;
      var rest := s[size..];
      assert rest[k - size] == s[k];
      DividesAtRune(rest, k - size);
      assert rest[..k - size] == s[size..k] && rest[k - size..] == s[k..];
      RunePrefix(s, k);
    }
  }

  /** The bytes of a rune after its first are continuation bytes. */
  lemma InsideRune(s: Bytes, k: nat)
    requires StartsRune(s) && 0 < k < |s| && !IsContinuation(s[k])
    ensures k >= DecodeRune(s).size >= 1
  {
  }

  lemma RunePrefix(s: Bytes, k: nat)
    requires StartsRune(s) && DecodeRune(s).size <= k <= |s| && WellFormed(s[DecodeRune(s).size..k])
    ensures WellFormed(s[..k])
  {
    var size := DecodeRune(s).size;
    var front := s[..k];
    assert StartsRune(front) && DecodeRune(front).size == size;
    assert front[size..] == s[size..k];
  }

  lemma {:induction false} WellFormedConcat(a: Bytes, b: Bytes)
    requires WellFormed(a) && WellFormed(b)
    ensures WellFormed(a + b)
  {
    if a == [] {
      assert a + b == b;
    } else {
      DecodeIgnoresTail(a, b);
      var size := DecodeRune(a).size;
      WellFormedConcat(a[size..], b);
      assert (a + b)[size..] == a[size..] + b;
    }
  }

  lemma {:induction false} PrintableIsWellFormed(s: Bytes)
    requires Printable(s)
    ensures WellFormed(s)
  {
    if s != [] {
      PrintableIsWellFormed(s[1..]);
    }
  }

  lemma EllipsisIsWellFormed()
    ensures WellFormed(Ellipsis)
  {
    assert Ellipsis[3..] == [];
  }

  lemma CutMarkerIsWellFormed(n: nat)
    ensures WellFormed(CutMarker(n)) && NewLine !in CutMarker(n) && |CutMarker(n)| >= 13
  {
    EllipsisIsWellFormed();
    var rest := Ascii("(+") + Decimal(n) + Ascii(" bytes)");
    PrintableIsWellFormed(rest);
    WellFormedConcat(Ellipsis, rest);
    assert forall i :: 0 <= i < |rest| ==> rest[i] != NewLine;
  }

  /** In a well-formed text, at most three bytes separate any place from the start of a rune. */
  lemma {:induction false} RuneIsNear(s: Bytes, k: nat)
    requires WellFormed(s) && k < |s|
    ensures BackUp(s, k) + 3 >= k
    ensures !IsContinuation(s[BackUp(s, k)])
  {
    var size := DecodeRune(s).size;
    var e := BackUp(s, k);
    assert !IsContinuation(s[0]);
    if k >= size {
      RuneIsNear(s[size..], k - size);
      var f := BackUp(s[size..], k - size);
      assert !IsContinuation(s[size + f]);
      assert e >= size + f;
    }
  }

  /** A cut line of well-formed text is well-formed, loses the fewest bytes that make it fit, and says how many it lost. */
  lemma ClipKeepsRunes(s: Bytes)
    requires WellFormed(s)
    ensures WellFormed(Clipped(s))
    ensures |s| <= 512 ==> Clipped(s) == s
    ensures |s| > 512 ==> exists end :: 509 <= end <= 512 && Clipped(s) == s[..end] + CutMarker(|s| - end) && WellFormed(s[..end])
  {
    if |s| > MaxDisplayLine {
      var end := BackUp(s, MaxDisplayLine);
      RuneIsNear(s, MaxDisplayLine);
      DividesAtRune(s, end);
      CutMarkerIsWellFormed(|s| - end);
      WellFormedConcat(s[..end], CutMarker(|s| - end));
    }
  }

  /** The marker is not counted in the budget: a line of well-formed text stays within it exactly when it is not cut. */
  lemma WithinBudgetIff(s: Bytes)
    requires WellFormed(s)
    ensures |Clipped(s)| <= 512 <==> |s| <= 512
  {
    if |s| > MaxDisplayLine {
      var end := BackUp(s, MaxDisplayLine);
      RuneIsNear(s, MaxDisplayLine);
      CutMarkerIsWellFormed(|s| - end);
    }
  }

  // ----- head and tail -----

  method ClipLines(lines: array<Bytes>)
    modifies lines
    ensures forall i :: 0 <= i < lines.Length ==> lines[i] == Clipped(old(lines[i]))
  {
    for i := 0 to lines.Length
      invariant forall k :: 0 <= k < i ==> lines[k] == Clipped(old(lines[k]))
      invariant forall k :: i <= k < lines.Length ==> lines[k] == old(lines[k])
    {
      lines[i] := Clip(lines[i]);
    }
  }

  function AllClipped(lines: seq<Bytes>): seq<Bytes> {
    seq(|lines|, i requires 0 <= i < |lines| => Clipped(lines[i]))
  }

  /** The lines a preview keeps: all that fit, or the head, a note, and the tail. */
  function Kept(lines: seq<Bytes>, headN: nat, tailN: nat): seq<Bytes> {
    if |lines| <= headN + tailN then lines
    else lines[..headN] + [HiddenMarker(|lines| - headN - tailN)] + lines[|lines| - tailN..]
  }

  function LinesOf(s: Bytes): seq<Bytes> {
    Split(TrimRight(s, NewLine), NewLine)
  }

  method Elide(s: Bytes, headN: nat, tailN: nat) returns (r: Bytes)
    ensures r == Join(AllClipped(Kept(LinesOf(s), headN, tailN)), NewLine)
  {
    hide Clipped, HiddenMarker, LinesOf, Join;
    var lines := LinesOf(s);
    var out := lines;
    if |lines| > headN + tailN {
      var hidden := |lines| - headN - tailN;
      out := lines[..headN];
      out := out + [HiddenMarker(hidden)];
      out := out + lines[|lines| - tailN..];
    }
    assert out == Kept(lines, headN, tailN);
    var buffer := new Bytes[|out|](i requires 0 <= i < |out| => out[i]);
    assert buffer[..] == out;
    ClipLines(buffer);
    assert buffer[..] == AllClipped(out);
    return Join(buffer[..], NewLine);
  }

  lemma ClippedIsUnbroken(s: Bytes)
    requires NewLine !in s
    ensures NewLine !in Clipped(s)
  {
    if |s| > MaxDisplayLine {
      CutMarkerIsWellFormed(|s| - BackUp(s, MaxDisplayLine));
    }
  }

  lemma HiddenMarkerIsUnbroken(n: nat)
    ensures NewLine !in HiddenMarker(n)
  {
    var middle := Ascii(" ") + Decimal(n) + if n == 1 then Ascii(" more line ") else Ascii(" more lines ");
    assert forall i :: 0 <= i < |middle| ==> middle[i] != NewLine;
    assert HiddenMarker(n) == Ellipsis + middle + Ellipsis;
  }

  /** Read back line by line, a preview is exactly the kept lines, each cut to its budget: at most one more than asked for. */
  lemma ElideShows(s: Bytes, headN: nat, tailN: nat)
    ensures var kept := Kept(LinesOf(s), headN, tailN);
      Split(Join(AllClipped(kept), NewLine), NewLine) == AllClipped(kept)
    ensures |Kept(LinesOf(s), headN, tailN)| <= headN + tailN + 1
  {
    var lines := LinesOf(s);
    var kept := Kept(lines, headN, tailN);
    SplitIsUnbroken(TrimRight(s, NewLine), NewLine);
    HiddenMarkerIsUnbroken(if |lines| > headN + tailN then |lines| - headN - tailN else 0);
    forall i | 0 <= i < |kept| ensures NewLine !in AllClipped(kept)[i] {
      assert NewLine !in kept[i];
      ClippedIsUnbroken(kept[i]);
    }
    SplitOfJoin(AllClipped(kept), NewLine);
  }

  /** Which lines those are: all of them when they fit; else the first ones, a note that counts what is missing, and the
      last ones. */
  lemma KeptLinesAre(lines: seq<Bytes>, headN: nat, tailN: nat, k: nat)
    requires k < |Kept(lines, headN, tailN)|
    ensures |lines| <= headN + tailN ==> |Kept(lines, headN, tailN)| == |lines| && Kept(lines, headN, tailN)[k] == lines[k]
    ensures |lines| > headN + tailN ==>
      && |Kept(lines, headN, tailN)| == headN + 1 + tailN
      && (k < headN ==> Kept(lines, headN, tailN)[k] == lines[k])
      && (k == headN ==> Kept(lines, headN, tailN)[k] == HiddenMarker(|lines| - headN - tailN))
      && (k > headN ==> Kept(lines, headN, tailN)[k] == lines[|lines| - (headN + 1 + tailN - k)])
  {
    hide HiddenMarker;
  }

  /** A text that fits both budgets is shown as it is, without its trailing line ends. */
  lemma ShortIsWhole(s: Bytes, headN: nat, tailN: nat)
    requires |LinesOf(s)| <= headN + tailN && forall i :: 0 <= i < |LinesOf(s)| ==> |LinesOf(s)[i]| <= MaxDisplayLine
    ensures Join(AllClipped(Kept(LinesOf(s), headN, tailN)), NewLine) == TrimRight(s, NewLine)
  {
    assert AllClipped(LinesOf(s)) == LinesOf(s);
    JoinOfSplit(TrimRight(s, NewLine), NewLine);
  }
}
