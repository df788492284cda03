/** What gets through the filter: safety of the shown text, fixed points, and erasure of control functions. */
module DisplayLaws {
  import opened Utf8
  import opened DisplayStream

  /** Well-formed UTF-8 without any control character except newline and tab. */
  ghost predicate Clean(s: Bytes) {
    s == [] || (StartsRune(s) && !IsDisplayControl(DecodeRune(s).rune) && Clean(s[DecodeRune(s).size..]))
  }

  lemma {:induction false} CleanConcat(a: Bytes, b: Bytes)
    requires Clean(a) && Clean(b)
    ensures Clean(a + b)
  {
    hide IsDisplayControl;
    if a == [] {
      assert a + b == b;
    } else {
      DecodeIgnoresTail(a, b);
      var size := DecodeRune(a).size;
      CleanConcat(a[size..], b);
      assert (a + b)[size..] == a[size..] + b;
    }
  }

  /** Clean text is well-formed, and as raw bytes it holds no control byte: no ESC, no BEL, no DEL. */
  lemma {:induction false} CleanMeansHarmless(s: Bytes)
    requires Clean(s)
    ensures WellFormed(s)
    ensures forall i :: 0 <= i < |s| ==> (s[i] >= 0x20 || s[i] == NEWLINE || s[i] == TAB) && s[i] != DEL
  {
    if s != [] {
      var size := DecodeRune(s).size;
      CleanMeansHarmless(s[size..]);
      forall i | 0 <= i < |s| ensures (s[i] >= 0x20 || s[i] == NEWLINE || s[i] == TAB) && s[i] != DEL {
        if size <= i {
          assert s[i] == s[size..][i - size];
        }
      }
    }
  }

  lemma StepShowsCleanText(m: Mode, s: Bytes)
    requires s != [] && !Stuck(m, s)
    ensures Clean(Step(m, s).text)
  {
    var move := Step(m, s);
    if move.text != [] {
      var w := move.text;
      assert w + s[move.size..] == s;
      assert StartsRune(w) && DecodeRune(w) == DecodeRune(s);
      assert w[DecodeRune(w).size..] == [];
    }
  }

  /** Safety: in any mode, on any bytes, a call shows only clean text. */
  lemma {:induction false} RunShowsCleanText(m: Mode, s: Bytes)
    ensures Clean(Run(m, s).out)
    decreases |s|, if m == ControlStringEscape then 1 else 0
  {
    if s != [] && !Stuck(m, s) {
      var move := Step(m, s);
      StepShowsCleanText(m, s);
      RunShowsCleanText(move.mode, s[move.size..]);
      CleanConcat(move.text, Run(move.mode, s[move.size..]).out);
    }
  }

  /** Safety over whole streams: however the stream is divided, even inside runes, all shown text is clean. */
  lemma {:induction false} ChunksShowCleanText(m: Mode, chunks: seq<Bytes>)
    ensures Clean(RunChunks(m, chunks).out)
    decreases chunks
  {
    if chunks != [] {
      var first := Run(m, chunks[0]);
      RunShowsCleanText(m, chunks[0]);
      ChunksShowCleanText(first.mode, chunks[1..]);
      CleanConcat(first.out, RunChunks(first.mode, chunks[1..]).out);
    }
  }

  lemma CleanRunePasses(s: Bytes)
    requires StartsRune(s) && !IsDisplayControl(DecodeRune(s).rune)
    ensures !Stuck(Normal, s) && Step(Normal, s) == Move(s[..DecodeRune(s).size], Normal, DecodeRune(s).size)
  {
  }

  lemma {:induction false} CleanTextPasses(s: Bytes)
    requires Clean(s)
    ensures Run(Normal, s) == Outcome(s, Normal, [])
  {
    if s != [] {
      var size := DecodeRune(s).size;
      CleanTextPasses(s[size..]);
      CleanRunePasses(s);
      assert s == s[..size] + s[size..];
    }
  }

  /** The fixed points of the sanitizer are exactly the clean strings. */
  lemma FixedPointIffClean(s: Bytes)
    ensures Sanitize(s) == s <==> Clean(s)
  {
    RunShowsCleanText(Normal, s);
    if Clean(s) {
      CleanTextPasses(s);
    }
  }

  lemma SanitizeIsIdempotent(s: Bytes)
    ensures Sanitize(Sanitize(s)) == Sanitize(s)
  {
    RunShowsCleanText(Normal, s);
    CleanTextPasses(Sanitize(s));
  }

  ghost predicate Subsequence(a: Bytes, b: Bytes) {
    || a == []
    || (b != [] && (Subsequence(a, b[1..]) || (a[0] == b[0] && Subsequence(a[1..], b[1..]))))
  }

  lemma {:induction false} SubsequenceSkips(a: Bytes, skipped: Bytes, b: Bytes)
    requires Subsequence(a, b)
    ensures Subsequence(a, skipped + b)
  {
    if skipped == [] {
      assert skipped + b == b;
    } else {
      SubsequenceSkips(a, skipped[1..], b);
      assert (skipped + b)[1..] == skipped[1..] + b;
    }
  }

  lemma {:induction false} SubsequenceKeeps(kept: Bytes, a: Bytes, b: Bytes)
    requires Subsequence(a, b)
    ensures Subsequence(kept + a, kept + b)
  {
    if kept == [] {
      assert kept + a == a && kept + b == b;
    } else {
      SubsequenceKeeps(kept[1..], a, b);
      assert (kept + a)[1..] == kept[1..] + a && (kept + b)[1..] == kept[1..] + b;
    }
  }

  /** Nothing is invented: the shown text is a byte subsequence of the input. */
  lemma {:induction false} OutputIsSubsequence(m: Mode, s: Bytes)
    ensures Subsequence(Run(m, s).out, s)
    decreases |s|, if m == ControlStringEscape then 1 else 0
  {
    if s != [] && !Stuck(m, s) {
      var move := Step(m, s);
      var tail := s[move.size..];
      var shown := Run(move.mode, tail).out;
      OutputIsSubsequence(move.mode, tail);
      assert s == s[..move.size] + tail;
      if move.text == [] {
        assert move.text + shown == shown;
        SubsequenceSkips(shown, s[..move.size], tail);
      } else {
        SubsequenceKeeps(move.text, shown, tail);
      }
    }
  }
}
