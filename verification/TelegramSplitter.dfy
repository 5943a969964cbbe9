/**
 * Cutting a long Telegram message into parts (telegram.provider.ts).
 *
 * The splitter walks paragraphs, then lines, then hard cuts, carrying one unfinished piece from step to step.
 * Ghost state records the runs of newlines it drops, so that the text can be read back as
 * gap, chunk, gap, chunk, ..., gap.
 */
module TelegramSplitter {
  import opened JsStrings

  const MAX_MESSAGE_LENGTH := 4096
  const HEADROOM := 15

  // ------------------------------------------------------------------ vocabulary

  ghost predicate Newlines(s: string) {
    forall i | 0 <= i < |s| :: s[i] == '\n'
  }

  /** gaps[0] + chunks[0] + gaps[1] + chunks[1] + ... */
  ghost function Weave(gaps: seq<string>, chunks: seq<string>): string
    requires |gaps| == |chunks|
  {
    if |chunks| == 0 then ""
    else
      var n := |chunks| - 1;
      Weave(gaps[..n], chunks[..n]) + gaps[n] + chunks[n]
  }

  /** The text is the chunks in order, separated (and surrounded) by nothing but newlines. */
  ghost predicate Tiles(text: string, gaps: seq<string>, chunks: seq<string>) {
    && |gaps| == |chunks| + 1
    && (forall i | 0 <= i < |gaps| :: Newlines(gaps[i]))
    && text == Weave(gaps[..|chunks|], chunks) + gaps[|chunks|]
  }

  ghost predicate Sized(chunks: seq<string>, max: nat) {
    forall i | 0 <= i < |chunks| :: 0 < |chunks[i]| <= max
  }

  /** text[lo..hi] is longer than a chunk, free of `sep`, and has the position p strictly inside. */
  ghost predicate TooLongAround(text: string, sep: string, max: nat, p: nat, lo: nat, hi: nat) {
    lo < p < hi <= |text| && hi - lo > max && !Contains(text[lo..hi], sep)
  }

  /**
   * A cut at p that drops `gap`. A cut that drops nothing lies inside a line longer than a chunk; one that
   * drops a single newline lies inside a paragraph longer than a chunk; every other cut is a paragraph break.
   */
  ghost predicate CutIsLastResort(text: string, max: nat, p: nat, gap: string) {
    && (|gap| == 0 ==> exists lo: nat, hi: nat :: TooLongAround(text, "\n", max, p, lo, hi))
    && (|gap| == 1 ==> exists lo: nat, hi: nat :: TooLongAround(text, "\n\n", max, p, lo, hi))
  }

  ghost predicate CutsAreLastResort(text: string, max: nat, gaps: seq<string>, chunks: seq<string>)
    requires |gaps| >= |chunks|
  {
    forall i | 1 <= i < |chunks| :: CutIsLastResort(text, max, |Weave(gaps[..i], chunks[..i])|, gaps[i])
  }

  ghost predicate Strong(pieces: seq<string>, max: nat, i: nat)
    requires i + 1 < |pieces|
  {
    |pieces[i]| + |pieces[i + 1]| >= max - 1
  }

  /** Any three consecutive chunks together nearly fill one. */
  ghost predicate Dense(chunks: seq<string>, max: nat) {
    forall i | 0 <= i < |chunks| - 2 :: |chunks[i]| + |chunks[i + 1]| + |chunks[i + 2]| >= max - 1
  }

  // ------------------------------------------------------------------ ghost bookkeeping

  /** Where the walk stands: `done` characters read, finished chunks and their gaps, the open gap, the pending piece. */
  datatype Walk = Walk(done: nat, chunks: seq<string>, gaps: seq<string>, gap: string, current: string)
  {
    /** The finished chunks, then the pending piece unless it is empty. */
    ghost function Pieces(): seq<string> {
      if current == "" then chunks else chunks + [current]
    }

    /** addChunk(current) */
    ghost function Flushed(): Walk {
      if current == "" then this
      else Walk(done, chunks + [current], gaps + [gap], "", "")
    }

    ghost function Absorbed(sep: string): Walk {
      this.(done := done + |sep|, gap := gap + sep)
    }

    ghost function Grown(more: string): Walk {
      this.(done := done + |more|, current := current + more)
    }

    /** Where the pending piece's gap begins. */
    ghost function CutPoint(): nat {
      if |gaps| == |chunks| then |Weave(gaps, chunks)| else 0
    }
  }

  /** What the loops know about the part of the text already read. */
  ghost predicate Woven(text: string, max: nat, w: Walk) {
    && |w.gaps| == |w.chunks|
    && (forall i | 0 <= i < |w.gaps| :: Newlines(w.gaps[i]))
    && Newlines(w.gap)
    && w.done <= |text|
    && text[..w.done] == Weave(w.gaps, w.chunks) + w.gap + w.current
    && Sized(w.chunks, max)
    && |w.current| <= max
    && CutsAreLastResort(text, max, w.gaps, w.chunks)
    && (w.current != "" && w.chunks != [] ==> CutIsLastResort(text, max, w.CutPoint(), w.gap))
  }

  /** At a paragraph boundary: no two adjacent weak pairs, and the last pair is strong. */
  ghost predicate Balanced(pieces: seq<string>, max: nat) {
    && (forall i | 0 <= i < |pieces| - 2 :: Strong(pieces, max, i) || Strong(pieces, max, i + 1))
    && (|pieces| >= 2 ==> Strong(pieces, max, |pieces| - 2))
  }

  /** Inside an overlong paragraph that began after `n` chunks: its own pieces are pairwise strong. */
  ghost predicate StrongFrom(pieces: seq<string>, max: nat, n: nat) {
    forall i | n <= i < |pieces| - 1 :: Strong(pieces, max, i)
  }

  /** If nothing is pending, the last chunk is full enough to be strong with whatever follows. */
  ghost predicate FullLast(w: Walk, max: nat) {
    w.current == "" && w.chunks != [] ==> |w.chunks[|w.chunks| - 1]| >= max - 1
  }

  lemma WeaveSnoc(gaps: seq<string>, chunks: seq<string>, gap: string, chunk: string)
    requires |gaps| == |chunks|
    ensures Weave(gaps + [gap], chunks + [chunk]) == Weave(gaps, chunks) + gap + chunk
  {
    assert (gaps + [gap])[..|chunks|] == gaps;
    assert (chunks + [chunk])[..|chunks|] == chunks;
  }

  lemma FlushKeepsCuts(text: string, max: nat, w: Walk)
    requires |w.gaps| == |w.chunks| && CutsAreLastResort(text, max, w.gaps, w.chunks)
    requires w.chunks != [] ==> CutIsLastResort(text, max, w.CutPoint(), w.gap)
    ensures CutsAreLastResort(text, max, w.gaps + [w.gap], w.chunks + [w.current])
  {
    hide CutIsLastResort, Weave;
    var chunks, gaps := w.chunks + [w.current], w.gaps + [w.gap];
    forall i | 1 <= i < |chunks|
      ensures CutIsLastResort(text, max, |Weave(gaps[..i], chunks[..i])|, gaps[i])
    {
      assert gaps[..i] == w.gaps[..i] && chunks[..i] == w.chunks[..i];
      if i == |w.chunks| {
        assert w.gaps[..i] == w.gaps && w.chunks[..i] == w.chunks;
      }
    }
  }

  lemma FlushKeepsWoven(text: string, max: nat, w: Walk)
    requires Woven(text, max, w)
    ensures Woven(text, max, w.Flushed())
    ensures w.current != "" ==> w.Flushed().CutPoint() == w.done
  {
    hide CutsAreLastResort, CutIsLastResort, Weave, Newlines;
    if w.current != "" {
      WeaveSnoc(w.gaps, w.chunks, w.gap, w.current);
      FlushKeepsCuts(text, max, w);
      var v := w.Flushed();
      assert Newlines("") by { NoNewlines(); }
      assert Weave(v.gaps, v.chunks) + "" + "" == Weave(w.gaps, w.chunks) + w.gap + w.current;
      assert |text[..w.done]| == w.done;
    }
  }

  lemma NoNewlines()
    ensures Newlines("")
  {
  }

  lemma AbsorbKeepsWoven(text: string, max: nat, w: Walk, sep: string)
    requires Woven(text, max, w) && w.current == ""
    requires Newlines(sep) && Follows(text, w.done, sep)
    ensures Woven(text, max, w.Absorbed(sep))
  {
    assert text[..w.done + |sep|] == text[..w.done] + sep;
  }

  lemma GrowKeepsWoven(text: string, max: nat, w: Walk, more: string)
    requires Woven(text, max, w)
    requires Follows(text, w.done, more) && |w.current + more| <= max
    requires w.current == "" && more != "" && w.chunks != [] ==> CutIsLastResort(text, max, w.CutPoint(), w.gap)
    ensures Woven(text, max, w.Grown(more))
  {
    hide CutsAreLastResort, CutIsLastResort, Sized, Newlines, Weave;
    var v := w.Grown(more);
    assert text[..v.done] == text[..w.done] + more;
    assert (Weave(w.gaps, w.chunks) + w.gap + w.current) + more == Weave(w.gaps, w.chunks) + w.gap + (w.current + more);
  }

  /** A fresh piece goes behind pieces whose last one is strong with it. */
  lemma StartKeepsBalanced(pieces: seq<string>, piece: string, max: nat)
    requires Balanced(pieces, max)
    requires pieces != [] ==> |pieces[|pieces| - 1]| + |piece| >= max - 1
    ensures Balanced(pieces + [piece], max)
  {
    var all := pieces + [piece];
    forall i | 0 <= i < |all| - 2
      ensures Strong(all, max, i) || Strong(all, max, i + 1)
    {
      if i < |pieces| - 2 {
        assert Strong(pieces, max, i) || Strong(pieces, max, i + 1);
      }
    }
  }

  lemma GrowKeepsBalanced(chunks: seq<string>, piece: string, longer: string, max: nat)
    requires Balanced(chunks + [piece], max) && |piece| <= |longer|
    ensures Balanced(chunks + [longer], max)
  {
    var before, after := chunks + [piece], chunks + [longer];
    forall i | 0 <= i < |after| - 1 && Strong(before, max, i)
      ensures Strong(after, max, i)
    {
    }
    forall i | 0 <= i < |after| - 2
      ensures Strong(after, max, i) || Strong(after, max, i + 1)
    {
      assert Strong(before, max, i) || Strong(before, max, i + 1);
    }
  }

  /** The pieces of an overlong paragraph, put behind balanced chunks, are balanced again. */
  lemma LongParagraphIsBalanced(before: seq<string>, pieces: seq<string>, max: nat)
    requires before <= pieces && |pieces| > |before|
    requires Balanced(before, max) && StrongFrom(pieces, max, |before|)
    requires |pieces| == |before| + 1 ==> |pieces[|before|]| >= max - 1
    ensures Balanced(pieces, max)
  {
    var n := |before|;
    forall i | 0 <= i < |pieces| - 2
      ensures Strong(pieces, max, i) || Strong(pieces, max, i + 1)
    {
      if i < n - 2 {
        assert Strong(before, max, i) || Strong(before, max, i + 1);
      } else if i == n - 2 {
        assert Strong(before, max, i);
      }
    }
  }

  lemma BalancedIsDense(pieces: seq<string>, max: nat)
    requires Balanced(pieces, max)
    ensures Dense(pieces, max)
  {
    forall i | 0 <= i < |pieces| - 2
      ensures |pieces[i]| + |pieces[i + 1]| + |pieces[i + 2]| >= max - 1
    {
      assert Strong(pieces, max, i) || Strong(pieces, max, i + 1);
    }
  }

  // ------------------------------------------------------------------ the innermost loop

  /** One full slice of a hard-cut line is read and becomes a chunk. */
  lemma SliceKeepsWoven(text: string, max: nat, line: string, start: nat, w: Walk, slice: string)
    requires Woven(text, max, w) && w.current == "" && start <= w.done && slice != "" && |slice| <= max
    requires w.chunks != [] ==> CutIsLastResort(text, max, w.CutPoint(), w.gap)
    requires Follows(text, start, line) && !Contains(line, "\n") && |line| > max
    requires Follows(text, w.done, slice) && w.done + |slice| < start + |line|
    ensures var v := w.Grown(slice).Flushed();
      && Woven(text, max, v) && v.CutPoint() == w.done + |slice| > start
      && v == Walk(w.done + |slice|, w.chunks + [slice], w.gaps + [w.gap], "", "")
      && CutIsLastResort(text, max, v.CutPoint(), v.gap)
  {
    hide CutsAreLastResort, Sized, Newlines, Weave, Contains;
    GrowKeepsWoven(text, max, w, slice);
    assert "" + slice == slice;
    FlushKeepsWoven(text, max, w.Grown(slice));
    assert TooLongAround(text, "\n", max, w.done + |slice|, start, start + |line|);
  }

  lemma SliceFollows(text: string, start: nat, line: string, pos: nat, end: nat)
    requires Follows(text, start, line) && pos <= end <= |line|
    ensures Follows(text, start + pos, line[pos..end])
  {
    SliceOfSlice(text, start, start + |line|, pos, end);
  }

  lemma LastSliceKeepsWoven(text: string, max: nat, w: Walk, slice: string)
    requires Woven(text, max, w) && w.current == "" && Follows(text, w.done, slice) && |slice| <= max
    requires w.chunks != [] ==> CutIsLastResort(text, max, w.CutPoint(), w.gap)
    ensures var v := w.Grown(slice);
      Woven(text, max, v) && v == Walk(w.done + |slice|, w.chunks, w.gaps, w.gap, slice) && v.CutPoint() == w.CutPoint()
  {
    GrowKeepsWoven(text, max, w, slice);
    assert "" + slice == slice;
  }

  /** Cut a line longer than a chunk every `max` characters; the last slice stays pending. */
  method HardCut(ghost text: string, max: nat, line: string, chunks: seq<string>, ghost w: Walk)
    returns (chunks': seq<string>, current: string, ghost w': Walk)
    requires 0 < max < |line| && !Contains(line, "\n")
    requires Woven(text, max, w) && w.chunks == chunks && w.current == ""
    requires Follows(text, w.done, line)
    requires chunks != [] ==> CutIsLastResort(text, max, w.CutPoint(), w.gap)
    ensures Woven(text, max, w') && w'.chunks == chunks' && w'.current == current
    ensures w'.done == w.done + |line| && w.done + |current| <= w'.done && w.done < w'.CutPoint()
    ensures chunks < chunks' && current != ""
    ensures forall i | |chunks| <= i < |chunks'| :: |chunks'[i]| == max
  {
    hide Woven, CutIsLastResort, Contains, Follows, Weave;
    chunks', current, w' := chunks, "", w;
    var pos := 0;
    while pos < |line|
      invariant 0 <= pos
      invariant Woven(text, max, w') && w'.chunks == chunks' && w'.current == current
      invariant chunks <= chunks' && (pos > 0 ==> chunks < chunks' && w.done < w'.CutPoint())
      invariant forall i | |chunks| <= i < |chunks'| :: |chunks'[i]| == max
      invariant current == "" ==> pos < |line| && w'.done == w.done + pos
      invariant current == "" && chunks' != [] ==> CutIsLastResort(text, max, w'.CutPoint(), w'.gap)
      invariant current != "" ==> pos >= |line| && w'.done == w.done + |line| && |current| <= |line|
    {
      var slice := line[pos..if pos + max < |line| then pos + max else |line|];
      SliceFollows(text, w.done, line, pos, pos + |slice|);
      if pos + max < |line| {
        SliceKeepsWoven(text, max, line, w.done, w', slice);
        w' := w'.Grown(slice).Flushed();
        chunks' := chunks' + [slice];
      } else {
        LastSliceKeepsWoven(text, max, w', slice);
        w' := w'.Grown(slice);
        current := slice;
      }
      pos := pos + max;
    }
  }

  // ------------------------------------------------------------------ the middle loop

  /** What holds while the lines of an overlong paragraph are read; `w0` is the walk at its first character. */
  ghost predicate InParagraph(text: string, max: nat, para: string, w0: Walk, w: Walk) {
    && Woven(text, max, w)
    && w0.done + |w.current| <= w.done <= w0.done + |para|
    && w0.chunks <= w.chunks
    && StrongFrom(w.Pieces(), max, |w0.chunks|)
    && (w.chunks == w0.chunks ==> w.gaps == w0.gaps && |w0.gap| <= |w.gap|)
    && (w.chunks != w0.chunks ==> w0.done < w.CutPoint() && FullLast(w, max) && (w.current == "" ==> |w.gap| >= 1))
  }

  /** An overlong paragraph starts: nothing pending, the last pair strong, a paragraph break dropped. */
  ghost predicate ParagraphStart(text: string, max: nat, para: string, w0: Walk) {
    && 0 < max < |para| && !Contains(para, "\n\n") && Follows(text, w0.done, para)
    && Woven(text, max, w0) && w0.current == ""
    && (w0.chunks != [] ==> |w0.gap| >= 2)
    && Balanced(w0.chunks, max)
  }

  /** A new piece inside an overlong paragraph starts behind at least one dropped newline. */
  lemma CutInsideParagraph(text: string, max: nat, para: string, w0: Walk, w: Walk)
    requires ParagraphStart(text, max, para, w0)
    requires Woven(text, max, w) && w.current == "" && w.done < w0.done + |para|
    requires w.chunks == w0.chunks ==> |w0.gap| <= |w.gap|
    requires w.chunks != w0.chunks ==> w0.done < w.CutPoint() && |w.gap| >= 1
    ensures w.chunks != [] ==> CutIsLastResort(text, max, w.CutPoint(), w.gap)
  {
    if |w.gap| == 1 && w.chunks != [] {
      assert TooLongAround(text, "\n\n", max, w.CutPoint(), w0.done, w0.done + |para|);
    }
  }

  lemma LineStarts(text: string, max: nat, para: string, w0: Walk, w: Walk, sep: string, line: string)
    requires ParagraphStart(text, max, para, w0) && InParagraph(text, max, para, w0, w)
    requires w.current == "" && |line| <= max
    requires Newlines(sep) && Follows(text, w.done, sep) && Follows(text, w.done + |sep|, line)
    requires w.done + |sep| + |line| <= w0.done + |para|
    ensures InParagraph(text, max, para, w0, w.Absorbed(sep).Grown(line))
  {
    hide CutIsLastResort, CutsAreLastResort, Contains, Balanced, Sized, Newlines, StrongFrom, Weave;
    AbsorbKeepsWoven(text, max, w, sep);
    if line != "" {
      CutInsideParagraph(text, max, para, w0, w.Absorbed(sep));
    }
    GrowKeepsWoven(text, max, w.Absorbed(sep), line);
    FullLastIsStrong(max, w0, w, line);
  }

  lemma FullLastIsStrong(max: nat, w0: Walk, w: Walk, line: string)
    requires w.current == "" && StrongFrom(w.Pieces(), max, |w0.chunks|)
    requires w0.chunks <= w.chunks && (w.chunks != w0.chunks ==> FullLast(w, max))
    ensures StrongFrom(w.Grown(line).Pieces(), max, |w0.chunks|)
  {
    var pieces := w.Grown(line).Pieces();
    forall i | |w0.chunks| <= i < |pieces| - 1
      ensures Strong(pieces, max, i)
    {
      if i < |w.Pieces()| - 1 {
        assert Strong(w.Pieces(), max, i);
      }
    }
  }

  lemma LineGrows(text: string, max: nat, para: string, w0: Walk, w: Walk, more: string)
    requires ParagraphStart(text, max, para, w0) && InParagraph(text, max, para, w0, w)
    requires w.current != "" && |w.current + more| <= max && Follows(text, w.done, more)
    requires w.done + |more| <= w0.done + |para|
    ensures InParagraph(text, max, para, w0, w.Grown(more))
  {
    GrowKeepsWoven(text, max, w, more);
    forall i | |w0.chunks| <= i < |w.Grown(more).Pieces()| - 1
      ensures Strong(w.Grown(more).Pieces(), max, i)
    {
      assert Strong(w.Pieces(), max, i);
    }
  }

  /** The pending piece is full: it becomes a chunk, and the newline behind it is dropped. */
  lemma LineOverflows(text: string, max: nat, para: string, w0: Walk, w: Walk, sep: string)
    requires ParagraphStart(text, max, para, w0) && InParagraph(text, max, para, w0, w)
    requires Newlines(sep) && Follows(text, w.done, sep) && w.done + |sep| <= w0.done + |para|
    requires w.current != "" ==> sep != ""
    ensures var v := w.Flushed().Absorbed(sep);
      && Woven(text, max, v) && v.Pieces() == w.Pieces() && w0.chunks <= v.chunks
      && (v.chunks == w0.chunks ==> v.gaps == w0.gaps && |w0.gap| <= |v.gap|)
      && (v.chunks != w0.chunks ==> w0.done < v.CutPoint() && |v.gap| >= 1)
  {
    FlushKeepsWoven(text, max, w);
    AbsorbKeepsWoven(text, max, w.Flushed(), sep);
  }

  lemma PieceIsStrong(pieces: seq<string>, piece: string, max: nat, n: nat)
    requires StrongFrom(pieces, max, n) && pieces != []
    requires |pieces[|pieces| - 1]| + |piece| >= max - 1
    ensures StrongFrom(pieces + [piece], max, n)
  {
    var all := pieces + [piece];
    forall i | n <= i < |all| - 1 ensures Strong(all, max, i) {
      assert i < |pieces| - 1 ==> Strong(pieces, max, i);
    }
  }

  lemma ShortLineStartsPiece(text: string, max: nat, para: string, w0: Walk, w: Walk, sep: string, line: string)
    requires ParagraphStart(text, max, para, w0) && InParagraph(text, max, para, w0, w)
    requires Newlines(sep) && Follows(text, w.done, sep) && Follows(text, w.done + |sep|, line)
    requires w.done + |sep| + |line| <= w0.done + |para|
    requires w.current != "" && sep == "\n" && |line| <= max < |w.current| + 1 + |line|
    ensures InParagraph(text, max, para, w0, w.Flushed().Absorbed(sep).Grown(line))
  {
    hide CutsAreLastResort, CutIsLastResort, Sized, Newlines, Weave, Contains, Balanced, Woven, StrongFrom,
      ParagraphStart, Follows;
    LineOverflows(text, max, para, w0, w, sep);
    var v := w.Flushed().Absorbed(sep);
    if line != "" {
      CutInsideParagraph(text, max, para, w0, v);
    }
    GrowKeepsWoven(text, max, v, line);
    PieceIsStrong(w.Pieces(), line, max, |w0.chunks|);
    assert "" + line == line;
    assert v.Grown(line).Pieces() == if line == "" then w.Pieces() else w.Pieces() + [line];
  }

  /** A hard-cut line leaves full chunks, so every new pair is strong. */
  lemma LongLineStartsPieces(text: string, max: nat, para: string, w0: Walk, w: Walk, v: Walk)
    requires ParagraphStart(text, max, para, w0) && InParagraph(text, max, para, w0, w)
    requires Woven(text, max, v) && w.Pieces() < v.chunks && v.current != ""
    requires forall i | |w.Pieces()| <= i < |v.chunks| :: |v.chunks[i]| == max
    requires w0.done + |v.current| <= v.done <= w0.done + |para|
    requires w0.done < v.CutPoint()
    ensures InParagraph(text, max, para, w0, v)
  {
    var pieces := v.Pieces();
    forall i | |w0.chunks| <= i < |pieces| - 1
      ensures Strong(pieces, max, i)
    {
      if i < |w.Pieces()| - 1 {
        assert Strong(w.Pieces(), max, i);
      } else if i == |w.Pieces()| - 1 {
        assert |pieces[i + 1]| == max;
      }
    }
  }

  /** Two newlines dropped off the front of a paragraph would be a paragraph break. */
  lemma DroppedNewlinesAreInText(text: string, para: string, w0: Walk, w: Walk)
    requires Follows(text, w0.done, para) && |w0.gaps| == |w0.chunks|
    requires w0.done + |para| == w.done && w0.current == ""
    requires text[..w0.done] == Weave(w0.gaps, w0.chunks) + w0.gap
    requires text[..w.done] == Weave(w0.gaps, w0.chunks) + w.gap + w.current
    requires Newlines(w.gap) && |w.gap| >= |w0.gap| + 2
    ensures Contains(para, "\n\n")
  {
    var woven, d := Weave(w0.gaps, w0.chunks), |w0.gap|;
    assert |woven| + d == w0.done;
    forall i | 0 <= i < 2
      ensures para[i] == '\n'
    {
      assert para[i] == text[w0.done + i] == text[..w.done][w0.done + i]
        == (woven + w.gap + w.current)[w0.done + i] == w.gap[d + i];
    }
    assert OccursAt(para, "\n\n", 0);
  }

  lemma ParagraphBegins(text: string, max: nat, para: string, w0: Walk)
    requires ParagraphStart(text, max, para, w0)
    ensures InParagraph(text, max, para, w0, w0)
    ensures 0 < max < |para| && !Contains(para, "\n\n") && Follows(text, w0.done, para) && w0.current == ""
  {
  }

  lemma ParagraphEnds(text: string, max: nat, para: string, w0: Walk, w: Walk)
    requires ParagraphStart(text, max, para, w0) && InParagraph(text, max, para, w0, w)
    requires w.done == w0.done + |para|
    ensures Woven(text, max, w) && Balanced(w.Pieces(), max) && FullLast(w, max)
  {
    if w.chunks == w0.chunks {
      if |w.gap| >= |w0.gap| + 2 {
        DroppedNewlinesAreInText(text, para, w0, w);
      }
      assert |Weave(w0.gaps, w0.chunks)| + |w0.gap| == w0.done;
      assert |w.current| >= max;
    }
    LongParagraphIsBalanced(w0.chunks, w.Pieces(), max);
  }

  lemma BothFollow(text: string, at: nat, a: string, b: string)
    requires Follows(text, at, a) && Follows(text, at + |a|, b)
    ensures Follows(text, at, a + b)
  {
    assert text[at..at + |a + b|] == text[at..at + |a|] + text[at + |a|..at + |a| + |b|];
  }

  /** The line joins the pending piece. */
  lemma LineFits(text: string, max: nat, para: string, w0: Walk, w: Walk, sep: string, line: string) returns (v: Walk)
    requires ParagraphStart(text, max, para, w0) && InParagraph(text, max, para, w0, w)
    requires sep == "\n" || (sep == "" && w.current == "")
    requires Follows(text, w.done, sep) && Follows(text, w.done + |sep|, line)
    requires w.done + |sep| + |line| <= w0.done + |para|
    requires |w.current| + (if w.current == "" then 0 else 1) + |line| <= max
    ensures InParagraph(text, max, para, w0, v) && v.chunks == w.chunks
    ensures v.current == w.current + (if w.current == "" then "" else "\n") + line
    ensures v.done == w.done + |sep| + |line|
  {
    if w.current == "" {
      LineStarts(text, max, para, w0, w, sep, line);
      v := w.Absorbed(sep).Grown(line);
    } else {
      BothFollow(text, w.done, sep, line);
      LineGrows(text, max, para, w0, w, sep + line);
      v := w.Grown(sep + line);
    }
  }

  lemma ShortLineOverflows(text: string, max: nat, para: string, w0: Walk, w: Walk, sep: string, line: string)
      returns (v: Walk)
    requires ParagraphStart(text, max, para, w0) && InParagraph(text, max, para, w0, w)
    requires Follows(text, w.done, sep) && Follows(text, w.done + |sep|, line)
    requires w.done + |sep| + |line| <= w0.done + |para|
    requires w.current != "" && sep == "\n" && |line| <= max < |w.current| + 1 + |line|
    ensures InParagraph(text, max, para, w0, v) && v.chunks == w.chunks + [w.current] && v.current == line
    ensures v.done == w.done + |sep| + |line|
  {
    ShortLineStartsPiece(text, max, para, w0, w, sep, line);
    v := w.Flushed().Absorbed(sep).Grown(line);
    assert "" + line == line;
  }

  /** Everything the hard cut asks for when a line is longer than a chunk. */
  lemma LongLineOverflows(text: string, max: nat, para: string, w0: Walk, w: Walk, sep: string, line: string)
      returns (v: Walk)
    requires ParagraphStart(text, max, para, w0) && InParagraph(text, max, para, w0, w)
    requires sep == "\n" || (sep == "" && w.current == "")
    requires Follows(text, w.done, sep) && Follows(text, w.done + |sep|, line)
    requires w.done + |sep| + |line| <= w0.done + |para| && line != ""
    ensures Woven(text, max, v) && v.current == "" && v.chunks == w.Pieces()
    ensures v.done == w.done + |sep| && w0.done <= v.done
    ensures v.chunks != [] ==> CutIsLastResort(text, max, v.CutPoint(), v.gap)
  {
    LineOverflows(text, max, para, w0, w, sep);
    v := w.Flushed().Absorbed(sep);
    CutInsideParagraph(text, max, para, w0, v);
  }

  /** The lines of a text stand in the larger text it was found in. */
  lemma LinesBegin(text: string, at: nat, para: string)
    requires Follows(text, at, para)
    ensures at + |para| <= |text| && text[at..at + |para|] == Rest(Split(para, "\n"), "\n", 0)
    ensures forall line | line in Split(para, "\n") :: !Contains(line, "\n")
  {
    SplitIsExact(para, "\n");
  }

  /** A paragraph longer than a chunk is split by lines. */
  method SplitLines(ghost text: string, max: nat, para: string, chunks: seq<string>, ghost w: Walk)
    returns (chunks': seq<string>, current: string, ghost w': Walk)
    requires ParagraphStart(text, max, para, w) && w.chunks == chunks
    ensures Woven(text, max, w') && w'.chunks == chunks' && w'.current == current
    ensures w'.done == w.done + |para|
    ensures Balanced(w'.Pieces(), max) && FullLast(w', max)
  {
    hide InParagraph, ParagraphStart, Woven, Balanced, FullLast, CutIsLastResort, Contains, Split, Follows,
      StrongFrom, OccursAt, Weave, Newlines, Rest;
    chunks', current, w' := chunks, "", w;
    ParagraphBegins(text, max, para, w);
    var lines := Split(para, "\n");
    LinesBegin(text, w.done, para);
    ghost var end := w.done + |para|;
    var k := 0;
    while k < |lines|
      invariant 0 <= k <= |lines|
      invariant InParagraph(text, max, para, w, w')
      invariant w'.chunks == chunks' && w'.current == current && (current != "" ==> k > 0)
      invariant w'.done <= end <= |text| && text[w'.done..end] == Rest(lines, "\n", k)
    {
      var line := lines[k];
      NextPart(text, w'.done, end, lines, "\n", k);
      ghost var sep := Before("\n", k);
      var lineSep := if current != "" then "\n" else "";
      if |current + lineSep + line| <= max {
        w' := LineFits(text, max, para, w, w', sep, line);
        current := current + lineSep + line;
      } else {
        ghost var pieces := w'.Pieces();
        if current != "" {
          chunks' := chunks' + [current];
        }
        if |line| <= max {
          w' := ShortLineOverflows(text, max, para, w, w', sep, line);
          current := line;
        } else {
          ghost var v := LongLineOverflows(text, max, para, w, w', sep, line);
          chunks', current, v := HardCut(text, max, line, chunks', v);
          LongLineStartsPieces(text, max, para, w, w', v);
          w' := v;
        }
      }
      k := k + 1;
    }
    RestAtEnd(lines, "\n");
    ParagraphEnds(text, max, para, w, w');
  }

  // ------------------------------------------------------------------ the outer loop

  /** What holds between paragraphs. */
  ghost predicate BetweenParagraphs(text: string, max: nat, w: Walk) {
    Woven(text, max, w) && Balanced(w.Pieces(), max) && FullLast(w, max)
  }

  lemma ParagraphFits(text: string, max: nat, w: Walk, sep: string, para: string)
    requires BetweenParagraphs(text, max, w)
    requires sep == "\n\n" || (sep == "" && w.chunks == [] && w.current == "")
    requires Follows(text, w.done, sep) && Follows(text, w.done + |sep|, para)
    requires |w.current| + (if w.current == "" then 0 else 2) + |para| <= max
    ensures BetweenParagraphs(text, max, if w.current == "" then w.Absorbed(sep).Grown(para) else w.Grown(sep + para))
  {
    if w.current == "" {
      AbsorbKeepsWoven(text, max, w, sep);
      GrowKeepsWoven(text, max, w.Absorbed(sep), para);
      assert "" + para == para;
      if para != "" {
        StartKeepsBalanced(w.chunks, para, max);
      }
    } else {
      BothFollow(text, w.done, sep, para);
      GrowKeepsWoven(text, max, w, sep + para);
      GrowKeepsBalanced(w.chunks, w.current, w.current + (sep + para), max);
    }
  }

  lemma FollowsFlush(text: string, w: Walk, sep: string)
    requires Follows(text, w.done, sep)
    ensures Follows(text, w.Flushed().done, sep)
  {
  }

  /** The pending piece cannot take the next paragraph: it becomes a chunk and the paragraph break is dropped. */
  lemma ParagraphOverflows(text: string, max: nat, w: Walk, sep: string, para: string)
    requires BetweenParagraphs(text, max, w)
    requires sep == "\n\n" || (sep == "" && w.chunks == [] && w.current == "")
    requires Follows(text, w.done, sep) && Follows(text, w.done + |sep|, para)
    ensures var v := w.Flushed().Absorbed(sep);
      Woven(text, max, v) && v.current == "" && Balanced(v.chunks, max) && (v.chunks != [] ==> |v.gap| >= 2)
  {
    hide Woven, Balanced, Follows, FullLast;
    FlushKeepsWoven(text, max, w);
    assert Newlines(sep);
    FollowsFlush(text, w, sep);
    AbsorbKeepsWoven(text, max, w.Flushed(), sep);
    assert w.Flushed().chunks == w.Pieces();
  }

  lemma LongGapIsLastResort(text: string, max: nat, p: nat, gap: string)
    requires |gap| >= 2
    ensures CutIsLastResort(text, max, p, gap)
  {
  }

  lemma ShortParagraphStartsPiece(text: string, max: nat, w: Walk, sep: string, para: string)
    requires BetweenParagraphs(text, max, w) && w.current != "" && sep == "\n\n"
    requires Follows(text, w.done, sep) && Follows(text, w.done + |sep|, para)
    requires |para| <= max < |w.current| + 2 + |para|
    ensures BetweenParagraphs(text, max, w.Flushed().Absorbed(sep).Grown(para))
  {
    hide Woven, Balanced, Follows, Weave, CutIsLastResort;
    ParagraphOverflows(text, max, w, sep, para);
    var v := w.Flushed().Absorbed(sep);
    assert "" + para == para;
    assert para != "" && v.chunks != [] ==> CutIsLastResort(text, max, v.CutPoint(), v.gap) by {
      if v.chunks != [] {
        LongGapIsLastResort(text, max, v.CutPoint(), v.gap);
      }
    }
    GrowKeepsWoven(text, max, v, para);
    if para != "" {
      StartKeepsBalanced(v.chunks, para, max);
    }
  }

  lemma WalkEnds(text: string, max: nat, w: Walk)
    requires BetweenParagraphs(text, max, w) && w.done == |text|
    ensures var v := w.Flushed();
      && v.chunks == w.Pieces() && Sized(v.chunks, max) && Dense(v.chunks, max)
      && Tiles(text, v.gaps + [v.gap], v.chunks) && CutsAreLastResort(text, max, v.gaps + [v.gap], v.chunks)
  {
    FlushKeepsWoven(text, max, w);
    BalancedIsDense(w.Pieces(), max);
    AllRead(text, max, w.Flushed());
  }

  lemma AllRead(text: string, max: nat, v: Walk)
    requires Woven(text, max, v) && v.current == "" && v.done == |text|
    ensures Tiles(text, v.gaps + [v.gap], v.chunks) && CutsAreLastResort(text, max, v.gaps + [v.gap], v.chunks)
  {
    var gaps := v.gaps + [v.gap];
    assert gaps[..|v.chunks|] == v.gaps && text[..|text|] == text;
    forall i | 1 <= i < |v.chunks|
      ensures CutIsLastResort(text, max, |Weave(gaps[..i], v.chunks[..i])|, gaps[i])
    {
      assert gaps[..i] == v.gaps[..i];
    }
  }

  lemma WalkBegins(text: string, max: nat)
    ensures BetweenParagraphs(text, max, Walk(0, [], [], "", ""))
  {
  }

  /** Outer loop, first branch: the paragraph joins the pending piece. */
  lemma ParagraphJoins(text: string, max: nat, w: Walk, sep: string, para: string) returns (v: Walk)
    requires BetweenParagraphs(text, max, w)
    requires sep == "\n\n" || (sep == "" && w.chunks == [] && w.current == "")
    requires Follows(text, w.done, sep) && Follows(text, w.done + |sep|, para)
    requires |w.current| + (if w.current == "" then 0 else 2) + |para| <= max
    ensures BetweenParagraphs(text, max, v) && v.chunks == w.chunks
    ensures v.current == w.current + (if w.current == "" then "" else "\n\n") + para
    ensures v.done == w.done + |sep| + |para|
  {
    ParagraphFits(text, max, w, sep, para);
    v := if w.current == "" then w.Absorbed(sep).Grown(para) else w.Grown(sep + para);
  }

  /** Second branch: it starts a new piece. */
  lemma ParagraphStartsPiece(text: string, max: nat, w: Walk, sep: string, para: string) returns (v: Walk)
    requires BetweenParagraphs(text, max, w) && w.current != "" && sep == "\n\n"
    requires Follows(text, w.done, sep) && Follows(text, w.done + |sep|, para)
    requires |para| <= max < |w.current| + 2 + |para|
    ensures BetweenParagraphs(text, max, v) && v.chunks == w.chunks + [w.current] && v.current == para
    ensures v.done == w.done + |sep| + |para|
  {
    ShortParagraphStartsPiece(text, max, w, sep, para);
    v := w.Flushed().Absorbed(sep).Grown(para);
    assert "" + para == para;
  }

  /** Third branch: it is longer than a chunk itself. */
  lemma LongParagraphStarts(text: string, max: nat, w: Walk, sep: string, para: string) returns (v: Walk)
    requires BetweenParagraphs(text, max, w)
    requires sep == "\n\n" || (sep == "" && w.chunks == [] && w.current == "")
    requires Follows(text, w.done, sep) && Follows(text, w.done + |sep|, para)
    requires 0 < max < |para| && !Contains(para, "\n\n")
    ensures ParagraphStart(text, max, para, v) && v.chunks == w.Pieces() && v.done == w.done + |sep|
  {
    hide Contains, BetweenParagraphs, Woven, Balanced;
    ParagraphOverflows(text, max, w, sep, para);
    v := w.Flushed().Absorbed(sep);
  }

  lemma LongParagraphEnded(text: string, max: nat, w: Walk)
    requires Woven(text, max, w) && Balanced(w.Pieces(), max) && FullLast(w, max)
    ensures BetweenParagraphs(text, max, w)
  {
  }

  lemma ShortTextIsOneChunk(text: string, max: nat)
    requires |text| <= max
    ensures Tiles(text, ["", ""], [text]) && CutsAreLastResort(text, max, ["", ""], [text]) && Dense([text], max)
  {
    assert Weave([""], [text]) == text;
  }

  /** The loop of splitIntoChunks, for a text longer than one chunk. */
  method SplitParagraphs(text: string, max: nat) returns (chunks: seq<string>, ghost gaps: seq<string>)
    requires 0 < max < |text|
    ensures Tiles(text, gaps, chunks) && Sized(chunks, max)
    ensures CutsAreLastResort(text, max, gaps, chunks) && Dense(chunks, max)
  {
    hide BetweenParagraphs, ParagraphStart, Woven, Balanced, FullLast, Dense, CutsAreLastResort, Tiles, Sized,
      Split, Contains, Follows, Rest;
    chunks := [];
    var current := "";
    ghost var w := Walk(0, [], [], "", "");
    WalkBegins(text, max);
    var paras := Split(text, "\n\n");
    SplitIsExact(text, "\n\n");
    var k := 0;
    while k < |paras|
      invariant 0 <= k <= |paras|
      invariant BetweenParagraphs(text, max, w) && w.chunks == chunks && w.current == current
      invariant chunks != [] || current != "" ==> k > 0
      invariant w.done <= |text| && text[w.done..|text|] == Rest(paras, "\n\n", k)
    {
      var para := paras[k];
      NextPart(text, w.done, |text|, paras, "\n\n", k);
      ghost var dropped := Before("\n\n", k);
      var sep := if current != "" then "\n\n" else "";
      if |current + sep + para| <= max {
        w := ParagraphJoins(text, max, w, dropped, para);
        current := current + sep + para;
      } else {
        ghost var pieces := w.Pieces();
        if current != "" {
          chunks := chunks + [current];
        }
        if |para| <= max {
          w := ParagraphStartsPiece(text, max, w, dropped, para);
          current := para;
        } else {
          w := LongParagraphStarts(text, max, w, dropped, para);
          chunks, current, w := SplitLines(text, max, para, chunks, w);
          LongParagraphEnded(text, max, w);
        }
      }
      k := k + 1;
    }
    RestAtEnd(paras, "\n\n");
    WalkEnds(text, max, w);
    gaps := w.Flushed().gaps + [w.Flushed().gap];
    if current != "" {
      chunks := chunks + [current];
    }
  }

  /**
   * splitIntoChunks. The precondition is termination: on a line longer than a chunk the original loops forever
   * unless maxLength exceeds the headroom. Its only caller passes 4096.
   */
  method SplitIntoChunks(text: string, maxLength: nat) returns (chunks: seq<string>, ghost gaps: seq<string>)
    requires maxLength > HEADROOM
    ensures |text| <= maxLength - HEADROOM ==> chunks == [text]
    ensures |text| > maxLength - HEADROOM ==> Sized(chunks, maxLength - HEADROOM)
    ensures Tiles(text, gaps, chunks)
    ensures CutsAreLastResort(text, maxLength - HEADROOM, gaps, chunks)
    ensures Dense(chunks, maxLength - HEADROOM)
  {
    var max := maxLength - HEADROOM;
    if |text| <= max {
      ShortTextIsOneChunk(text, max);
      return [text], ["", ""];
    }
    chunks, gaps := SplitParagraphs(text, max);
  }
}
