/** Chunk independence: when feeding a stream in pieces shows what the whole stream shows. */
module DisplayChunks {
  import opened Utf8
  import opened DisplayStream

  lemma {:induction false} ConcatSnoc(chunks: seq<Bytes>, last: Bytes)
    ensures Concat(chunks + [last]) == Concat(chunks) + last
  {
    if chunks == [] {
      assert chunks + [last] == [last];
    } else {
      ConcatSnoc(chunks[1..], last);
      assert (chunks + [last])[1..] == chunks[1..] + [last];
    }
  }

  lemma {:induction false} RunChunksSnoc(m: Mode, chunks: seq<Bytes>, last: Bytes)
    ensures var before := RunChunks(m, chunks);
      RunChunks(m, chunks + [last]) == Then(before, Run(before.mode, last))
    decreases chunks
  {
    if chunks == [] {
      assert chunks + [last] == [last];
    } else {
      var first := Run(m, chunks[0]);
      var before := RunChunks(first.mode, chunks[1..]);
      RunChunksSnoc(first.mode, chunks[1..], last);
      assert (chunks + [last])[1..] == chunks[1..] + [last];
      ThenIsAssociative(first, before, Run(before.mode, last));
    }
  }

  /** While no chunk end cuts a rune, the machine does to the pieces exactly what it does to the whole. */
  lemma {:induction false} ChunksActAsWhole(m: Mode, chunks: seq<Bytes>)
    requires RunChunks(m, chunks).cut == []
    ensures RunChunks(m, chunks) == Run(m, Concat(chunks))
    decreases chunks
  {
    if chunks != [] {
      var first := Run(m, chunks[0]);
      ChunksActAsWhole(first.mode, chunks[1..]);
      RunSplits(m, chunks[0], Concat(chunks[1..]));
    }
  }

  /** The same for a division whose last chunk may end anywhere, even inside a rune. */
  lemma LastChunkMayCut(m: Mode, chunks: seq<Bytes>, last: Bytes)
    requires RunChunks(m, chunks).cut == []
    ensures RunChunks(m, chunks + [last]) == Run(m, Concat(chunks + [last]))
  {
    ChunksActAsWhole(m, chunks);
    RunChunksSnoc(m, chunks, last);
    ConcatSnoc(chunks, last);
    RunSplits(m, Concat(chunks), last);
  }

  /** Chunks of valid UTF-8, such as decoded JSON strings, may be cut anywhere between themselves:
      inside a control sequence, a control string, or a two-byte terminator. */
  lemma {:induction false} ValidChunksActAsWhole(m: Mode, chunks: seq<Bytes>)
    requires forall k :: 0 <= k < |chunks| ==> WellFormed(chunks[k])
    ensures RunChunks(m, chunks) == Run(m, Concat(chunks))
  {
    ValidChunksHaveNoCut(m, chunks);
    ChunksActAsWhole(m, chunks);
  }

  lemma {:induction false} ValidChunksHaveNoCut(m: Mode, chunks: seq<Bytes>)
    requires forall k :: 0 <= k < |chunks| ==> WellFormed(chunks[k])
    ensures RunChunks(m, chunks).cut == []
    decreases chunks
  {
    if chunks != [] {
      ValidChunkHasNoCut(m, chunks[0]);
      ValidChunksHaveNoCut(Run(m, chunks[0]).mode, chunks[1..]);
    }
  }

  /** After these chunks, every continuation shows what it would have shown without the cuts. */
  ghost predicate TransparentAfter(m: Mode, chunks: seq<Bytes>) {
    var r := RunChunks(m, chunks);
    forall rest: Bytes :: r.out + Run(r.mode, rest).out == Run(m, Concat(chunks) + rest).out
  }

  /** The division can be stopped after any of its chunks, and continued in any way, without a visible difference. */
  ghost predicate TransparentThroughout(m: Mode, chunks: seq<Bytes>) {
    forall k :: 0 <= k <= |chunks| ==> TransparentAfter(m, chunks[..k])
  }

  lemma ThroughoutSnoc(m: Mode, front: seq<Bytes>, last: Bytes)
    ensures TransparentThroughout(m, front + [last])
      <==> TransparentThroughout(m, front) && TransparentAfter(m, front + [last])
  {
    hide TransparentAfter;
    var chunks := front + [last];
    assert forall k :: 0 <= k <= |front| ==> chunks[..k] == front[..k];
    assert chunks[..|chunks|] == chunks;
  }

  /** A division is transparent throughout exactly when none of its calls takes the unfinished-rune return. */
  lemma {:induction false} TransparentThroughoutIffNoCut(m: Mode, chunks: seq<Bytes>)
    ensures TransparentThroughout(m, chunks) <==> RunChunks(m, chunks).cut == []
    decreases chunks
  {
    if chunks == [] {
      NothingIsTransparent(m);
      assert chunks[..0] == [];
    } else {
      var front, last := chunks[..|chunks| - 1], chunks[|chunks| - 1];
      assert chunks == front + [last];
      hide TransparentAfter, TransparentThroughout;
      TransparentThroughoutIffNoCut(m, front);
      ThroughoutSnoc(m, front, last);
      RunChunksSnoc(m, front, last);
      if RunChunks(m, front).cut == [] {
        TransparentSnoc(m, front, last);
      }
    }
  }

  lemma NothingIsTransparent(m: Mode)
    ensures TransparentAfter(m, [])
  {
    forall rest: Bytes ensures [] + Run(m, rest).out == Run(m, [] + rest).out {
      assert [] + rest == rest;
    }
  }

  lemma TransparentSnoc(m: Mode, front: seq<Bytes>, last: Bytes)
    requires RunChunks(m, front).cut == []
    ensures TransparentAfter(m, front + [last]) <==> Run(RunChunks(m, front).mode, last).cut == []
  {
    var before := RunChunks(m, front);
    TransparentIffNoCut(before.mode, last);
    forall rest: Bytes {
      ContinuationSnoc(m, front, last, rest);
    }
    var all := RunChunks(m, front + [last]);
    RunChunksSnoc(m, front, last);
    if Transparent(before.mode, last) {
    } else {
      var after := Run(before.mode, last);
      var rest: Bytes :| after.out + Run(after.mode, rest).out != Run(before.mode, last + rest).out;
      ContinuationSnoc(m, front, last, rest);
      assert all.out + Run(all.mode, rest).out != Run(m, Concat(front + [last]) + rest).out;
    }
  }

  lemma ContinuationSnoc(m: Mode, front: seq<Bytes>, last: Bytes, rest: Bytes)
    requires RunChunks(m, front).cut == []
    ensures var before := RunChunks(m, front); var after := Run(before.mode, last);
      var all := RunChunks(m, front + [last]);
      (all.out + Run(all.mode, rest).out == Run(m, Concat(front + [last]) + rest).out)
      <==> (after.out + Run(after.mode, rest).out == Run(before.mode, last + rest).out)
  {
    var before := RunChunks(m, front);
    var after := Run(before.mode, last);
    RunChunksSnoc(m, front, last);
    WholeAfterFront(m, front, last, rest);
    SameHead(before.out, after.out, Run(after.mode, rest).out, Run(before.mode, last + rest).out);
  }

  lemma WholeAfterFront(m: Mode, front: seq<Bytes>, last: Bytes, rest: Bytes)
    requires RunChunks(m, front).cut == []
    ensures var before := RunChunks(m, front);
      Run(m, Concat(front + [last]) + rest).out == before.out + Run(before.mode, last + rest).out
  {
    ConcatSnoc(front, last);
    assert Concat(front) + last + rest == Concat(front) + (last + rest);
    ChunksActAsWhole(m, front);
    RunSplits(m, Concat(front), last + rest);
  }

  lemma SameHead(a: Bytes, b: Bytes, c: Bytes, d: Bytes)
    ensures a + b + c == a + d <==> b + c == d
  {
    assert a + b + c == a + (b + c);
    assert (a + (b + c))[|a|..] == b + c && (a + d)[|a|..] == d;
  }

  /** One move from `s` to its suffix `tail`. */
  lemma OneMove(m: Mode, s: Bytes, move: Move, tail: Bytes)
    requires s != [] && !Stuck(m, s) && Step(m, s) == move && s[move.size..] == tail
    ensures Run(m, s) == Emit(move.text, Run(move.mode, tail))
  {
  }

  lemma AtEnd(m: Mode)
    ensures Run(m, []) == Outcome([], m, [])
  {
  }

  lemma LetterShows()
    ensures Run(Normal, [0x41]) == Outcome([0x41], Normal, [])
  {
    hide Run;
    OneMove(Normal, [0x41], Move([0x41], Normal, 1), []);
    AtEnd(Normal);
  }

  lemma TwoChunks(m: Mode, a: Bytes, b: Bytes)
    ensures RunChunks(m, [a, b]) == Then(Run(m, a), Run(Run(m, a).mode, b))
  {
    hide Run;
    var r := Run(Run(m, a).mode, b);
    assert RunChunks(Run(m, a).mode, [b]) == Then(r, Outcome([], r.mode, []));
    assert r.out + [] == r.out && r.cut + [] == r.cut;
    assert [a, b][1..] == [b];
  }

  /** The failing family is real: a snowman cut after its first byte turns its second byte into a control
      sequence introducer, and the text behind it disappears. */
  lemma CutRuneSwallowsText()
    ensures Sanitize([0xE2, 0x9B, 0x84, 0x41]) == [0xE2, 0x9B, 0x84, 0x41]
    ensures RunChunks(Normal, [[0xE2], [0x9B, 0x84, 0x41]]).out == []
  {
    hide Run;
    var s: Bytes := [0xE2, 0x9B, 0x84, 0x41];
    OneMove(Normal, s, Move(s[..3], Normal, 3), [0x41]);
    LetterShows();
    SequenceSwallows();
    IncompleteRuneIsDropped([0xE2]);
    TwoChunks(Normal, [0xE2], [0x9B, 0x84, 0x41]);
  }

  lemma SequenceSwallows()
    ensures Run(Normal, [0x9B, 0x84, 0x41]) == Outcome([], Normal, [])
  {
    hide Run;
    OneMove(Normal, [0x9B, 0x84, 0x41], Move([], Sequence, 1), [0x84, 0x41]);
    OneMove(Sequence, [0x84, 0x41], Move([], Sequence, 1), [0x41]);
    OneMove(Sequence, [0x41], Move([], Normal, 1), []);
    AtEnd(Normal);
  }

  lemma IncompleteRuneIsDropped(s: Bytes)
    requires IncompleteRune(s)
    ensures Run(Normal, s) == Outcome([], Normal, s)
  {
  }

  /** The other way round: an unfinished emoji swallows the text behind it in one piece, and shows it when cut there. */
  lemma CutRuneRevealsText()
    ensures Sanitize([0xF0, 0x9F, 0x41]) == []
    ensures RunChunks(Normal, [[0xF0, 0x9F], [0x41]]).out == [0x41]
  {
    hide Run;
    OneMove(Normal, [0xF0, 0x9F, 0x41], Move([], Normal, 1), [0x9F, 0x41]);
    OneMove(Normal, [0x9F, 0x41], Move([], ControlString, 1), [0x41]);
    OneMove(ControlString, [0x41], Move([], ControlString, 1), []);
    AtEnd(ControlString);
    IncompleteRuneIsDropped([0xF0, 0x9F]);
    LetterShows();
    TwoChunks(Normal, [0xF0, 0x9F], [0x41]);
  }
}
