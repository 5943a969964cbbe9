/**
 * Sending a rendered message to a chat (telegram.provider.ts, sendNotification): truncation to Telegram's limit,
 * a caption if there is media, otherwise sequential parts tagged "(i/N)".
 */
module TelegramSender {
  import opened JsStrings
  import opened TelegramSplitter

  const MAX_CAPTION_LENGTH := 1024
  const ELLIPSIS := '\U{2026}'

  /** slice(0, limit - 1) + '…' when the text is too long. */
  function Truncate(text: string, limit: nat): (r: string)
    requires limit > 0
    ensures |text| <= limit ==> r == text
    ensures |text| > limit ==> |r| == limit && r[..limit - 1] == text[..limit - 1] && r[limit - 1] == ELLIPSIS
  {
    if |text| <= limit then text else text[..limit - 1] + [ELLIPSIS]
  }

  datatype Message =
    | Media(caption: string)
    | Part(text: string, keyboard: bool)

  function Tag(i: nat, n: nat): string {
    "\n\n<i>(" + Decimal(i) + "/" + Decimal(n) + ")</i>"
  }

  /** The i-th of the messages that carry the chunks: tagged unless it is the only one, keyboard on the last. */
  function PartOf(chunks: seq<string>, i: nat): (r: Message)
    requires i < |chunks|
    ensures r.Part?
  {
    Part(if |chunks| > 1 then chunks[i] + Tag(i + 1, |chunks|) else chunks[i], i == |chunks| - 1)
  }

  function PartsOf(chunks: seq<string>): (parts: seq<Message>)
    ensures |parts| == |chunks|
    ensures forall i | 0 <= i < |chunks| :: parts[i] == PartOf(chunks, i)
  {
    seq(|chunks|, i requires 0 <= i < |chunks| => PartOf(chunks, i))
  }

  lemma OneMorePart(chunks: seq<string>, i: nat)
    requires i < |chunks|
    ensures PartsOf(chunks)[..i + 1] == PartsOf(chunks)[..i] + [PartOf(chunks, i)]
  {
    hide PartsOf, PartOf;
  }

  // ------------------------------------------------------------------ what a message says

  ghost predicate IsTag(tag: string, i: nat, n: nat) {
    exists a: string, b: string ::
      IsNumeral(a, i) && IsNumeral(b, n) && tag == "\n\n<i>(" + a + "/" + b + ")</i>"
  }

  /** m is the i-th of n messages, from 0: it begins with the chunk, and what follows is a tag, or nothing if n is 1. */
  ghost predicate Carries(m: Message, chunk: string, i: nat, n: nat) {
    && m.Part? && chunk <= m.text
    && (if n == 1 then m.text == chunk else IsTag(m.text[|chunk|..], i + 1, n))
    && (m.keyboard <==> i + 1 == n)
  }

  lemma PartCarriesChunk(chunks: seq<string>, i: nat)
    requires i < |chunks|
    ensures Carries(PartOf(chunks, i), chunks[i], i, |chunks|)
  {
    var a, b := Decimal(i + 1), Decimal(|chunks|);
    assert (chunks[i] + Tag(i + 1, |chunks|))[|chunks[i]|..] == Tag(i + 1, |chunks|);
    assert Tag(i + 1, |chunks|) == "\n\n<i>(" + a + "/" + b + ")</i>";
    DecimalIsNumeral(i + 1);
    DecimalIsNumeral(|chunks|);
    hide IsNumeral;
  }

  lemma PartsCarryChunks(chunks: seq<string>)
    ensures forall i | 0 <= i < |chunks| :: Carries(PartsOf(chunks)[i], chunks[i], i, |chunks|)
  {
    hide PartOf, Carries;
    forall i | 0 <= i < |chunks| ensures Carries(PartsOf(chunks)[i], chunks[i], i, |chunks|) {
      PartCarriesChunk(chunks, i);
    }
  }

  /** The text before its last line break and the character in front of that. */
  function BeforeTag(text: string): string {
    if text == "" then ""
    else if text[|text| - 1] == '\n' then text[..if |text| >= 2 then |text| - 2 else 0]
    else BeforeTag(text[..|text| - 1])
  }

  /** What a message says without its tag. */
  function Body(m: Message, n: nat): string {
    match m
    case Media(caption) => caption
    case Part(text, _) => if n == 1 then text else BeforeTag(text)
  }

  function Bodies(messages: seq<Message>): (r: seq<string>)
    ensures |r| == |messages|
  {
    seq(|messages|, i requires 0 <= i < |messages| => Body(messages[i], |messages|))
  }

  lemma {:induction false} CutAtLineBreak(s: string, rest: string)
    requires '\n' !in rest
    ensures BeforeTag(s + "\n\n" + rest) == s
  {
    var text := s + "\n\n" + rest;
    if rest == "" {
      assert text[..|text| - 2] == s;
    } else {
      CutAtLineBreak(s, rest[..|rest| - 1]);
      assert text[..|text| - 1] == s + "\n\n" + rest[..|rest| - 1];
    }
  }

  lemma NumeralIsOneLine(digits: string, n: nat)
    requires IsNumeral(digits, n)
    ensures '\n' !in digits
  {
  }

  lemma TagIsCutOff(chunk: string, tag: string, i: nat, n: nat)
    requires IsTag(tag, i, n)
    ensures BeforeTag(chunk + tag) == chunk
  {
    hide IsNumeral, BeforeTag;
    var a, b :| IsNumeral(a, i) && IsNumeral(b, n) && tag == "\n\n<i>(" + a + "/" + b + ")</i>";
    var rest := "<i>(" + a + "/" + b + ")</i>";
    NumeralIsOneLine(a, i);
    NumeralIsOneLine(b, n);
    assert chunk + tag == chunk + "\n\n" + rest;
    CutAtLineBreak(chunk, rest);
  }

  /** The chunks can be read off the messages. */
  lemma BodiesAreChunks(parts: seq<Message>, chunks: seq<string>)
    requires |parts| == |chunks| && forall i | 0 <= i < |parts| :: Carries(parts[i], chunks[i], i, |chunks|)
    ensures Bodies(parts) == chunks
  {
    hide IsTag, BeforeTag;
    forall i | 0 <= i < |parts| ensures Bodies(parts)[i] == chunks[i] {
      if |parts| != 1 {
        var tag := parts[i].text[|chunks[i]|..];
        assert parts[i].text == chunks[i] + tag;
        TagIsCutOff(chunks[i], tag, i + 1, |chunks|);
      }
    }
  }

  // ------------------------------------------------------------------ how many parts, and how long

  function TotalLength(chunks: seq<string>): nat {
    if chunks == [] then 0 else |chunks[0]| + TotalLength(chunks[1..])
  }

  lemma {:induction false} TotalSnoc(chunks: seq<string>, chunk: string)
    ensures TotalLength(chunks + [chunk]) == TotalLength(chunks) + |chunk|
  {
    if chunks == [] {
      assert TotalLength([chunk]) == |chunk| + TotalLength([]);
      assert [] + [chunk] == [chunk];
    } else {
      TotalSnoc(chunks[1..], chunk);
      assert (chunks + [chunk])[1..] == chunks[1..] + [chunk];
    }
  }

  lemma {:induction false} WeaveHoldsChunks(gaps: seq<string>, chunks: seq<string>)
    requires |gaps| == |chunks|
    ensures |Weave(gaps, chunks)| >= TotalLength(chunks)
  {
    if chunks != [] {
      var n := |chunks| - 1;
      WeaveHoldsChunks(gaps[..n], chunks[..n]);
      TotalSnoc(chunks[..n], chunks[n]);
      assert chunks[..n] + [chunks[n]] == chunks;
    }
  }

  lemma {:induction false} DenseChunksAreLong(chunks: seq<string>, max: nat)
    requires max >= 1 && Dense(chunks, max)
    ensures TotalLength(chunks) >= |chunks| / 3 * (max - 1)
  {
    if |chunks| >= 3 {
      var rest := chunks[3..];
      forall i | 0 <= i < |rest| - 2
        ensures |rest[i]| + |rest[i + 1]| + |rest[i + 2]| >= max - 1
      {
        assert |chunks[i + 3]| + |chunks[i + 4]| + |chunks[i + 5]| >= max - 1;
      }
      DenseChunksAreLong(rest, max);
      var c1, c2 := chunks[1..], chunks[2..];
      assert c1[1..] == c2 && c2[1..] == rest;
      assert TotalLength(chunks) == |chunks[0]| + TotalLength(c1);
      assert TotalLength(c1) == |chunks[1]| + TotalLength(c2);
      assert TotalLength(c2) == |chunks[2]| + TotalLength(rest);
      var n := |rest| / 3;
      assert |chunks| / 3 == n + 1;
      assert (n + 1) * (max - 1) == n * (max - 1) + (max - 1);
    }
  }

  /** A tiled text has at most about three chunks per chunk-length of text. */
  lemma ChunkCount(text: string, gaps: seq<string>, chunks: seq<string>, max: nat)
    requires max >= 1 && Tiles(text, gaps, chunks) && Dense(chunks, max)
    ensures |chunks| / 3 * (max - 1) <= |text|
  {
    WeaveHoldsChunks(gaps[..|chunks|], chunks);
    DenseChunksAreLong(chunks, max);
  }

  /**
   * The tag leaves one character of the headroom free if and only if there are fewer than ten parts. It still fits for
   * the parts 1 to 9 of up to 99; every other tagged full chunk would be too long.
   */
  lemma HeadroomIsForOneDigit(i: nat, n: nat)
    requires 1 <= i <= n
    ensures |Tag(i, n)| <= HEADROOM - 1 <==> n < 10
    ensures |Tag(i, n)| <= HEADROOM <==> n < 10 || (n < 100 && i < 10)
  {
    assert |Decimal(n)| <= 2 <==> n < 100;
    assert |Decimal(i)| == 1 <==> i < 10;
  }

  lemma PartFits(text: string, chunks: seq<string>, i: nat)
    requires i < |chunks| < 10
    requires |chunks| == 1 || |chunks[i]| <= MAX_MESSAGE_LENGTH - HEADROOM
    requires |chunks| == 1 ==> |chunks[i]| <= MAX_MESSAGE_LENGTH
    ensures |PartOf(chunks, i).text| <= MAX_MESSAGE_LENGTH
  {
    hide Tag;
    HeadroomIsForOneDigit(i + 1, |chunks|);
  }

  /**
   * A text within Telegram's limit gives at most five chunks, so every index in a tag is one digit, the tag
   * fits the headroom, and no part exceeds the limit.
   */
  lemma PartsFit(text: string, gaps: seq<string>, chunks: seq<string>)
    requires |text| <= MAX_MESSAGE_LENGTH
    requires |text| <= MAX_MESSAGE_LENGTH - HEADROOM ==> chunks == [text]
    requires |text| > MAX_MESSAGE_LENGTH - HEADROOM ==> Sized(chunks, MAX_MESSAGE_LENGTH - HEADROOM)
    requires Tiles(text, gaps, chunks) && Dense(chunks, MAX_MESSAGE_LENGTH - HEADROOM)
    ensures |chunks| <= 5
    ensures forall i | 0 <= i < |chunks| :: |PartOf(chunks, i).text| <= MAX_MESSAGE_LENGTH
  {
    hide Tiles, Dense, Decimal, Tag, PartOf;
    ChunkCount(text, gaps, chunks, MAX_MESSAGE_LENGTH - HEADROOM);
    forall i | 0 <= i < |chunks|
      ensures |PartOf(chunks, i).text| <= MAX_MESSAGE_LENGTH
    {
      PartFits(text, chunks, i);
    }
  }

  /** Only a text made of newlines alone produces no message at all. */
  lemma NothingSentOnlyForNewlines(text: string, gaps: seq<string>)
    requires Tiles(text, gaps, [])
    ensures Newlines(text)
  {
    assert text == "" + gaps[0];
  }

  /** A chat, as the messages the Bot API has accepted for it. */
  class Chat {
    var sent: seq<Message>

    /**
     * The part loop. `failAt` is the index of the first API call that throws (nothing throws if it is past the
     * last call); the parts before it stay sent.
     */
    method SendParts(chunks: seq<string>, failAt: nat) returns (ok: bool)
      modifies this
      ensures ok == (failAt >= |chunks|)
      ensures sent == old(sent) + PartsOf(chunks)[..if ok then |chunks| else failAt]
      ensures forall i | |old(sent)| <= i < |sent| ::
        Carries(sent[i], chunks[i - |old(sent)|], i - |old(sent)|, |chunks|)
    {
      PartsCarryChunks(chunks);
      hide PartsOf, PartOf, Carries;
      for i := 0 to |chunks|
        invariant i <= failAt
        invariant sent == old(sent) + PartsOf(chunks)[..i]
      {
        if i == failAt {
          return false;
        }
        sent := sent + [PartOf(chunks, i)];
        OneMorePart(chunks, i);
      }
      ok := true;
    }

    /**
     * sendNotification, from the rendered text on, without media: truncate, split, send the parts in order. Every
     * message begins with its chunk, and if all are accepted, the messages without their tags tile the truncated text.
     */
    method SendText(rendered: string, failAt: nat)
        returns (ok: bool, ghost chunks: seq<string>, ghost gaps: seq<string>)
      modifies this
      ensures ok == (failAt >= |chunks|)
      ensures sent == old(sent) + PartsOf(chunks)[..if ok then |chunks| else failAt]
      ensures forall i | |old(sent)| <= i < |sent| ::
        Carries(sent[i], chunks[i - |old(sent)|], i - |old(sent)|, |chunks|) && |sent[i].text| <= 4096
      ensures ok ==> Tiles(Truncate(rendered, 4096), gaps, Bodies(sent[|old(sent)|..]))
      ensures Tiles(Truncate(rendered, 4096), gaps, chunks)
      ensures CutsAreLastResort(Truncate(rendered, 4096), 4096 - 15, gaps, chunks)
      ensures |chunks| <= 5
    {
      hide Tiles, CutsAreLastResort, Dense, Sized, IsTag, BeforeTag;
      var text := Truncate(rendered, MAX_MESSAGE_LENGTH);
      var cs;
      cs, gaps := SplitIntoChunks(text, MAX_MESSAGE_LENGTH);
      chunks := cs;
      PartsFit(text, gaps, chunks);
      PartsCarryChunks(chunks);
      hide PartOf, PartsOf, Carries;
      BodiesAreChunks(PartsOf(chunks), chunks);
      ok := SendParts(cs, failAt);
      assert ok ==> sent[|old(sent)|..] == PartsOf(chunks);
    }

    /** sendNotification with a banner or video: one media message whose caption is truncated once more. */
    method SendMedia(rendered: string, fails: bool) returns (ok: bool)
      modifies this
      ensures ok == !fails
      ensures sent == old(sent) + if fails then [] else [Media(Truncate(rendered, 1024))]
    {
      var caption := Truncate(Truncate(rendered, MAX_MESSAGE_LENGTH), MAX_CAPTION_LENGTH);
      assert |rendered| > MAX_MESSAGE_LENGTH ==>
        Truncate(rendered, MAX_MESSAGE_LENGTH)[..MAX_CAPTION_LENGTH - 1] == rendered[..MAX_CAPTION_LENGTH - 1];
      ok := !fails;
      if ok {
        sent := sent + [Media(caption)];
      }
    }
  }
}
