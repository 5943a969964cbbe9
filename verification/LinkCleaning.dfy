/**
 * When the cleaned text of parseMarkdownLinks (src/common/utils/link-parser.ts) holds a link again. Removing links is
 * idempotent for exactly the texts whose labels and gaps complete no new one; where a new one starts is determined.
 */
module LinkCleaning {
  import opened JsStrings
  import opened LinkParser

  // ------------------------------------------------------------------ a match at the front of a string

  /** A url and its ')' can be read: the run up to the first ')' is not empty. */
  predicate UrlFollows(s: string) {
    s != "" && s[0] != ')' && ')' in s
  }

  /** The string goes on with "](", a url and ')'. */
  predicate Closes(s: string) {
    |s| >= 2 && s[0] == ']' && s[1] == '(' && UrlFollows(s[2..])
  }

  /** The string begins with a link. */
  predicate Opens(s: string) {
    s != "" && s[0] == '[' && var close := Scan(s, ']', 1); close > 1 && Closes(s[close..])
  }

  lemma ScanStops(s: string, c: char, from: nat)
    requires from <= |s|
    ensures Scan(s, c, from) < |s| <==> c in s[from..]
  {
    var at := Scan(s, c, from);
    assert s[from..] == s[from..at] + s[at..];
    if at < |s| {
      assert s[from..][at - from] == c;
    } else {
      assert s[at..] == "";
    }
  }

  /** Opens is what the regular expression finds at the front. */
  lemma OpensIsMatch(s: string)
    ensures StartsMatch(s, 0) <==> Opens(s)
  {
    hide ReadsAs;
    var m := MatchAt(s, 0);
    if StartsMatch(s, 0) {
      var hi: nat, labelText: string, url: string :| ReadsAs(s, 0, hi, labelText, url);
      MatchIsUnique(s, 0, hi, labelText, url);
    }
    assert StartsMatch(s, 0) <==> m.Some?;
    if s != "" && s[0] == '[' {
      var close := Scan(s, ']', 1);
      if close + 1 < |s| && s[close + 1] == '(' {
        var tail := s[close..];
        assert tail[0] == ']' && tail[1] == '(' && tail[2..] == s[close + 2..];
        ScanStops(s, ')', close + 2);
        assert close + 2 < |s| ==> (Scan(s, ')', close + 2) == close + 2 <==> s[close + 2] == ')');
      }
    }
  }

  lemma ReadingInSuffix(s: string, p: nat, hi: nat, labelText: string, url: string)
    requires p <= |s|
    ensures hi >= p ==> (ReadsAs(s, p, hi, labelText, url) <==> ReadsAs(s[p..], 0, hi - p, labelText, url))
  {
    if p <= hi <= |s| {
      assert s[p..hi] == s[p..][0..hi - p];
    }
  }

  lemma MatchInSuffix(s: string, p: nat)
    requires p <= |s|
    ensures StartsMatch(s, p) <==> Opens(s[p..])
  {
    hide ReadsAs;
    OpensIsMatch(s[p..]);
    if StartsMatch(s, p) {
      var hi: nat, labelText: string, url: string :| ReadsAs(s, p, hi, labelText, url);
      assert hi >= p by { Forwards(s, p, hi, labelText, url); }
      ReadingInSuffix(s, p, hi, labelText, url);
      assert ReadsAs(s[p..], 0, hi - p, labelText, url);
    }
    if StartsMatch(s[p..], 0) {
      var hi: nat, labelText: string, url: string :| ReadsAs(s[p..], 0, hi, labelText, url);
      ReadingInSuffix(s, p, hi + p, labelText, url);
      assert ReadsAs(s, p, hi + p, labelText, url);
    }
  }

  lemma Forwards(s: string, p: nat, hi: nat, labelText: string, url: string)
    requires ReadsAs(s, p, hi, labelText, url)
    ensures p <= hi
  {
  }

  // ------------------------------------------------------------------ scanning across pieces

  lemma {:induction false} ScanInFront(a: string, b: string, c: char, from: nat)
    requires from <= |a|
    ensures Scan(a + b, c, from) == if c in a[from..] then Scan(a, c, from) else |a| + Scan(b, c, 0)
    decreases |a| - from
  {
    if from == |a| {
      ScanShifted(a, b, c, 0);
    } else if a[from] != c {
      ScanInFront(a, b, c, from + 1);
      assert a[from..] == [a[from]] + a[from + 1..];
      assert c in a[from..] <==> c in a[from + 1..];
    } else {
      assert a[from..][0] == c;
    }
  }

  lemma {:induction false} ScanShifted(a: string, b: string, c: char, from: nat)
    requires from <= |b|
    ensures Scan(a + b, c, |a| + from) == |a| + Scan(b, c, from)
    decreases |b| - from
  {
    if from < |b| && b[from] != c {
      ScanShifted(a, b, c, from + 1);
    }
  }

  // ------------------------------------------------------------------ the three places a character can stand

  /** g reads "[x]" with x not empty and free of ']'. */
  predicate Bracketed(g: string) {
    |g| >= 3 && g[0] == '[' && Scan(g, ']', 1) == |g| - 1
  }

  /** A link's own source, in front of the rest of the text. */
  function LinkSource(labelText: string, url: string, rest: string): string {
    "[" + labelText + "](" + url + ")" + rest
  }

  lemma OpensAcross(g: string, labelText: string, url: string, rest: string)
    requires g != "" && g[0] == '[' && ']' !in g[1..]
    requires labelText != "" && ']' !in labelText && url != "" && ')' !in url
    ensures Opens(g + LinkSource(labelText, url, rest))
  {
    var inside := g + "[" + labelText;
    var tail := "](" + url + ")" + rest;
    var whole := g + LinkSource(labelText, url, rest);
    assert whole == inside + tail;
    assert inside[1..] == g[1..] + "[" + labelText;
    SourceCloses(url, rest);
    hide Closes;
    ScanInFront(inside, tail, ']', 1);
    assert Scan(tail, ']', 0) == 0;
    assert whole[|inside|..] == tail;
  }

  lemma SourceCloses(url: string, rest: string)
    requires url != "" && ')' !in url
    ensures Closes("](" + url + ")" + rest)
  {
    var tail := "](" + url + ")" + rest;
    assert tail[2..] == url + ")" + rest;
    assert tail[2..][|url|] == ')';
    assert tail[2..][0] == url[0] && url[0] in url;
  }

  lemma UrlFollowsBefore(h: string, after: string, labelText: string, url: string, rest: string)
    requires UrlFollows(h + after)
    ensures UrlFollows(h + LinkSource(labelText, url, rest))
  {
    var source := LinkSource(labelText, url, rest);
    assert source[0] == '[' && source[|labelText| + |url| + 3] == ')';
    assert (h + source)[|h| + |labelText| + |url| + 3] == ')';
    assert h != "" ==> (h + source)[0] == h[0] == (h + after)[0];
  }

  /** Behind a ']' of g that is not its last character, the next one decides, whatever comes after g. */
  lemma ClosesInside(g: string, close: nat, after: string)
    requires close + 1 < |g| && g[close] == ']'
    ensures Closes((g + after)[close..]) <==> g[close + 1] == '(' && UrlFollows(g[close + 2..] + after)
  {
    assert (g + after)[close..] == g[close..] + after;
    assert (g[close..] + after)[2..] == g[close + 2..] + after;
  }

  /**
   * In a gap, before a link, a bracket that closes inside the gap and opens a link in `after` opens one in `source`.
   */
  lemma OpensBefore(g: string, after: string, labelText: string, url: string, rest: string)
    requires g != "" && g[0] == '[' && ']' in g[1..] && Scan(g, ']', 1) + 1 < |g|
    requires Opens(g + after)
    ensures Opens(g + LinkSource(labelText, url, rest))
  {
    hide Closes, UrlFollows, LinkSource;
    var source := LinkSource(labelText, url, rest);
    var close := Scan(g, ']', 1);
    ScanInFront(g, after, ']', 1);
    ScanInFront(g, source, ']', 1);
    ClosesInside(g, close, after);
    ClosesInside(g, close, source);
    UrlFollowsBefore(g[close + 2..], after, labelText, url, rest);
  }

  /**
   * A '[' in a gap, where no link started, starts one in the cleaned text exactly if it closes as the gap ends and the
   * label behind it supplies the "(url)".
   */
  lemma GapPlace(g: string, labelText: string, url: string, rest: string, cleanRest: string)
    requires g != "" && labelText != "" && ']' !in labelText && url != "" && ')' !in url
    requires !Opens(g + LinkSource(labelText, url, rest))
    ensures Opens(g + labelText + cleanRest)
      <==> Bracketed(g) && labelText[0] == '(' && UrlFollows(labelText[1..] + cleanRest)
  {
    hide Opens;
    if g[0] == '[' {
      if ']' !in g[1..] {
        OpensAcross(g, labelText, url, rest);
      } else {
        ScanStops(g, ']', 1);
        assert g + labelText + cleanRest == g + (labelText + cleanRest);
        if Scan(g, ']', 1) + 1 < |g| {
          if Opens(g + (labelText + cleanRest)) {
            OpensBefore(g, labelText + cleanRest, labelText, url, rest);
          }
        } else {
          GapEnds(g, labelText, cleanRest);
        }
      }
    } else {
      NotOpened(g, labelText + cleanRest);
      assert g + labelText + cleanRest == g + (labelText + cleanRest);
    }
  }

  lemma NotOpened(g: string, after: string)
    requires g != "" && g[0] != '['
    ensures !Opens(g + after)
  {
  }

  lemma ClosesAtEnd(after: string)
    requires after != ""
    ensures Closes("]" + after) <==> after[0] == '(' && UrlFollows(after[1..])
  {
    assert ("]" + after)[2..] == after[1..];
  }

  lemma GapEnds(g: string, labelText: string, cleanRest: string)
    requires g != "" && g[0] == '[' && labelText != "" && ']' in g[1..] && Scan(g, ']', 1) + 1 == |g|
    ensures Opens(g + labelText + cleanRest)
      <==> Bracketed(g) && labelText[0] == '(' && UrlFollows(labelText[1..] + cleanRest)
  {
    hide Scan, Closes, UrlFollows;
    var after := labelText + cleanRest;
    var close := |g| - 1;
    assert g + labelText + cleanRest == g + after;
    ScanInFront(g, after, ']', 1);
    assert (g + after)[close..] == "]" + after;
    assert after[1..] == labelText[1..] + cleanRest;
    ClosesAtEnd(after);
  }

  /** A '[' in a label starts a link exactly if the text behind the label closes it. */
  predicate Completes(labelTail: string, cleanRest: string) {
    var close := Scan(cleanRest, ']', 0);
    |labelTail| + close > 0 && Closes(cleanRest[close..])
  }

  lemma LabelPlace(labelTail: string, cleanRest: string)
    requires labelTail != "" && ']' !in labelTail
    ensures Opens(labelTail + cleanRest) <==> labelTail[0] == '[' && Completes(labelTail[1..], cleanRest)
  {
    var whole := labelTail + cleanRest;
    assert ']' !in labelTail[1..];
    ScanInFront(labelTail, cleanRest, ']', 1);
    var close := Scan(cleanRest, ']', 0);
    assert whole[|labelTail| + close..] == cleanRest[close..];
  }

  // ------------------------------------------------------------------ the cleaned text

  /** The cleaned text from the k-th gap on. */
  function CleanFrom(text: string, links: seq<Link>, k: nat): string
    requires k <= |links|
  {
    SplicedFrom(text, links, Labels(links), k)
  }

  function Clean(text: string, links: seq<Link>): string {
    CleanFrom(text, links, 0)
  }

  /** The gap in front of the k-th link. */
  function Gap(text: string, links: seq<Link>, k: nat): string
    requires k < |links|
  {
    Slice(text, EndBefore(links, k), links[k].startIndex)
  }

  predicate ReopensAt(labelText: string, o: nat, cleanRest: string)
    requires o < |labelText|
  {
    labelText[o] == '[' && Completes(labelText[o + 1..], cleanRest)
  }

  /** Some '[' of the k-th label is closed as a link by what follows the label. */
  predicate LabelReopens(text: string, links: seq<Link>, k: nat)
    requires k < |links|
  {
    var labelText, cleanRest := links[k].labelText, CleanFrom(text, links, k + 1);
    exists o | 0 <= o < |labelText| :: ReopensAt(labelText, o, cleanRest)
  }

  /** The k-th gap ends in "[x]", and the label behind it goes on as "(url)". */
  predicate GapReopens(text: string, links: seq<Link>, k: nat)
    requires k < |links|
  {
    var gap, labelText := Gap(text, links, k), links[k].labelText;
    && (exists b | 0 <= b < |gap| :: Bracketed(gap[b..]))
    && labelText != "" && labelText[0] == '(' && UrlFollows(labelText[1..] + CleanFrom(text, links, k + 1))
  }

  predicate Reopens(text: string, links: seq<Link>, k: nat)
    requires k < |links|
  {
    LabelReopens(text, links, k) || GapReopens(text, links, k)
  }

  predicate OpensAt(s: string, p: nat) {
    p <= |s| && Opens(s[p..])
  }

  /** No suffix of s that starts in the given range begins with a link. */
  ghost predicate NoneOpensIn(s: string, lo: nat, hi: nat) {
    forall p | lo <= p < hi :: !OpensAt(s, p)
  }

  ghost predicate NoneOpens(s: string) {
    NoneOpensIn(s, 0, |s| + 1)
  }

  lemma NoneOpensIsNoMatch(s: string)
    ensures NoneOpens(s) <==> forall p: nat :: !StartsMatch(s, p)
  {
    hide Opens, StartsMatch;
    forall p: nat
      ensures StartsMatch(s, p) <==> OpensAt(s, p)
    {
      if p <= |s| {
        MatchInSuffix(s, p);
      } else {
        NoMatchPastEnd(s, p);
      }
    }
  }

  /** The k-th link with its surroundings, in the text and in the cleaned text. */
  lemma LinkInText(text: string, links: seq<Link>, k: nat)
    requires IsScanOf(text, links) && k < |links|
    ensures var gap, l := Gap(text, links, k), links[k];
      && l.labelText != "" && ']' !in l.labelText && l.url != "" && ')' !in l.url
      && EndBefore(links, k) <= l.startIndex < l.endIndex == EndBefore(links, k + 1) <= |text|
      && text[EndBefore(links, k)..] == gap + LinkSource(l.labelText, l.url, text[l.endIndex..])
      && |gap| == l.startIndex - EndBefore(links, k)
      && l.endIndex == l.startIndex + |l.labelText| + |l.url| + 4
      && CleanFrom(text, links, k) == gap + l.labelText + CleanFrom(text, links, k + 1)
  {
    hide IsScanOf, SplicedFrom, StartsMatch;
    ScanInside(text, links);
    Bounds(text, links, k);
    ScanLink(text, links, k);
    var l := links[k];
    SliceInside(text, EndBefore(links, k), l.startIndex);
    ThreeSlices(text, EndBefore(links, k), l.startIndex, l.endIndex);
    CleanUnfolds(text, links, k);
    assert "[" + l.labelText + "](" + l.url + ")" + text[l.endIndex..]
      == LinkSource(l.labelText, l.url, text[l.endIndex..]);
  }

  lemma CleanUnfolds(text: string, links: seq<Link>, k: nat)
    requires k < |links|
    ensures CleanFrom(text, links, k) == Gap(text, links, k) + links[k].labelText + CleanFrom(text, links, k + 1)
  {
  }

  /** Where the gap in front of the k-th link opens a link in the cleaned text. */
  lemma GapOpensIff(text: string, links: seq<Link>, k: nat)
    requires IsScanOf(text, links) && k < |links|
    ensures NoneOpensIn(CleanFrom(text, links, k), 0, |Gap(text, links, k)|) <==> !GapReopens(text, links, k)
  {
    hide IsScanOf, Opens, Bracketed, UrlFollows, CleanFrom, Gap, LinkSource;
    LinkInText(text, links, k);
    var gap, l, from := Gap(text, links, k), links[k], EndBefore(links, k);
    var rest, cleanRest := text[l.endIndex..], CleanFrom(text, links, k + 1);
    forall b | 0 <= b < |gap|
      ensures OpensAt(CleanFrom(text, links, k), b)
        <==> Bracketed(gap[b..]) && l.labelText[0] == '(' && UrlFollows(l.labelText[1..] + cleanRest)
    {
      ScanLink(text, links, k);
      GapHasNoMatch(text, links, k, b);
      assert text[from + b..] == text[from..][b..] == gap[b..] + LinkSource(l.labelText, l.url, rest);
      GapPlace(gap[b..], l.labelText, l.url, rest, cleanRest);
      assert CleanFrom(text, links, k)[b..] == gap[b..] + l.labelText + cleanRest;
    }
  }

  lemma GapHasNoMatch(text: string, links: seq<Link>, k: nat, b: nat)
    requires IsScanOf(text, links) && k < |links| && EndBefore(links, k) + b < links[k].startIndex
    ensures EndBefore(links, k) + b <= |text| && !Opens(text[EndBefore(links, k) + b..])
  {
    hide Opens, StartsMatch;
    ScanInside(text, links);
    Bounds(text, links, k);
    assert LeftmostFrom(text, EndBefore(links, k), links[k]);
    MatchInSuffix(text, EndBefore(links, k) + b);
  }

  /** Where the k-th label opens a link in the cleaned text. */
  lemma LabelOpensIff(text: string, links: seq<Link>, k: nat)
    requires IsScanOf(text, links) && k < |links|
    ensures var n := |Gap(text, links, k)|;
      NoneOpensIn(CleanFrom(text, links, k), n, n + |links[k].labelText|) <==> !LabelReopens(text, links, k)
  {
    hide IsScanOf, Opens, Completes, CleanFrom, Gap, LinkSource;
    LinkInText(text, links, k);
    var gap, labelText, cleanRest := Gap(text, links, k), links[k].labelText, CleanFrom(text, links, k + 1);
    var whole := CleanFrom(text, links, k);
    forall p | |gap| <= p < |gap| + |labelText|
      ensures OpensAt(whole, p) <==> ReopensAt(labelText, p - |gap|, cleanRest)
    {
      LabelPlace(labelText[p - |gap|..], cleanRest);
      assert whole[p..] == labelText[p - |gap|..] + cleanRest;
      assert labelText[p - |gap|..][1..] == labelText[p - |gap| + 1..];
    }
    forall o | 0 <= o < |labelText|
      ensures ReopensAt(labelText, o, cleanRest) <==> OpensAt(whole, |gap| + o)
    {
    }
  }

  lemma NoneOpensBehind(front: string, c: string)
    ensures NoneOpensIn(front + c, |front|, |front + c| + 1) <==> NoneOpens(c)
  {
    hide Opens;
    forall p | 0 <= p <= |c|
      ensures OpensAt(c, p) <==> OpensAt(front + c, |front| + p)
    {
      assert (front + c)[|front| + p..] == c[p..];
    }
    forall q | |front| <= q <= |front + c|
      ensures OpensAt(front + c, q) <==> OpensAt(c, q - |front|)
    {
    }
  }

  lemma NoneOpensInPieces(a: string, b: string, c: string)
    ensures var s := a + b + c;
      NoneOpens(s) <==> NoneOpensIn(s, 0, |a|) && NoneOpensIn(s, |a|, |a| + |b|) && NoneOpens(c)
  {
    hide OpensAt;
    NoneOpensBehind(a + b, c);
  }

  lemma {:induction false} NoneOpensFrom(text: string, links: seq<Link>, k: nat)
    requires IsScanOf(text, links) && k <= |links|
    ensures NoneOpens(CleanFrom(text, links, k)) <==> forall j | k <= j < |links| :: !Reopens(text, links, j)
    decreases |links| - k
  {
    hide IsScanOf, Opens, CleanFrom, NoneOpens, NoneOpensIn, LabelReopens, GapReopens, Gap, LinkSource;
    if k == |links| {
      LastGapOpensNothing(text, links);
    } else {
      NoneOpensFrom(text, links, k + 1);
      LinkInText(text, links, k);
      GapOpensIff(text, links, k);
      LabelOpensIff(text, links, k);
      NoneOpensInPieces(Gap(text, links, k), links[k].labelText, CleanFrom(text, links, k + 1));
      assert (forall j | k <= j < |links| :: !Reopens(text, links, j))
        <==> !Reopens(text, links, k) && forall j | k + 1 <= j < |links| :: !Reopens(text, links, j);
    }
  }

  lemma LastGapOpensNothing(text: string, links: seq<Link>)
    requires IsScanOf(text, links)
    ensures NoneOpens(CleanFrom(text, links, |links|))
  {
    hide Opens, StartsMatch;
    ScanInside(text, links);
    Bounds(text, links, |links|);
    var from := EndBefore(links, |links|);
    SliceInside(text, from, |text|);
    var last := CleanFrom(text, links, |links|);
    assert last == text[from..];
    forall p | 0 <= p <= |last| ensures !OpensAt(last, p) {
      MatchInSuffix(text, from + p);
      assert text[from + p..] == last[p..];
    }
  }

  // ------------------------------------------------------------------ main results

  /** The cleaned text starts a match somewhere if and only if a label or a gap of the parse completes one. */
  lemma CleanTextHasLinkIff(text: string, links: seq<Link>)
    requires IsScanOf(text, links)
    ensures (exists p: nat :: StartsMatch(Clean(text, links), p))
      <==> exists k | 0 <= k < |links| :: Reopens(text, links, k)
  {
    hide IsScanOf, StartsMatch, NoneOpens, Reopens;
    NoneOpensFrom(text, links, 0);
    NoneOpensIsNoMatch(Clean(text, links));
  }

  lemma {:induction false} CleaningShortens(text: string, links: seq<Link>, k: nat)
    requires IsScanOf(text, links) && k <= |links|
    ensures EndBefore(links, k) <= |text|
    ensures |CleanFrom(text, links, k)| <= |text| - EndBefore(links, k)
    ensures k < |links| ==> |CleanFrom(text, links, k)| < |text| - EndBefore(links, k)
    decreases |links| - k
  {
    if k == |links| {
      ScanInside(text, links);
      Bounds(text, links, k);
    } else {
      hide IsScanOf, CleanFrom, LinkSource, Gap;
      CleaningShortens(text, links, k + 1);
      LinkInText(text, links, k);
    }
  }

  lemma NoLinksNothingChanges(text: string, links: seq<Link>)
    requires IsScanOf(text, links) && |links| == 0
    ensures Clean(text, links) == text
  {
    SliceInside(text, 0, |text|);
  }

  lemma ScanIsEmptyIff(text: string, links: seq<Link>)
    requires IsScanOf(text, links)
    ensures |links| == 0 <==> forall p: nat :: !StartsMatch(text, p)
  {
    if |links| > 0 {
      ScanLink(text, links, 0);
      assert StartsMatch(text, links[0].startIndex);
    }
  }

  /**
   * Removing links twice is removing them once if and only if no label and no gap of the parse completes a new link.
   */
  lemma CleaningIsIdempotentIff(text: string, links: seq<Link>, again: seq<Link>)
    requires IsScanOf(text, links) && IsScanOf(Clean(text, links), again)
    ensures Clean(Clean(text, links), again) == Clean(text, links)
      <==> forall k | 0 <= k < |links| :: !Reopens(text, links, k)
  {
    hide IsScanOf, StartsMatch, Reopens, CleanFrom;
    var clean := Clean(text, links);
    CleanTextHasLinkIff(text, links);
    ScanIsEmptyIff(clean, again);
    CleaningShortens(clean, again, 0);
    if |again| == 0 {
      NoLinksNothingChanges(clean, again);
    }
  }

  /** In particular, labels without '[' that do not begin with '(' make no link: what is removed stays removed. */
  lemma PlainLabelsStayClean(text: string, links: seq<Link>)
    requires IsScanOf(text, links)
    requires forall k | 0 <= k < |links| :: '[' !in links[k].labelText && !("(" <= links[k].labelText)
    ensures forall p: nat :: !StartsMatch(Clean(text, links), p)
  {
    CleanTextHasLinkIff(text, links);
    forall k | 0 <= k < |links| ensures !Reopens(text, links, k) {
      var labelText := links[k].labelText;
      assert forall o | 0 <= o < |labelText| :: labelText[o] in labelText;
    }
  }

  /** Both places occur: a '[' inside a label, and a "[x]" that ends a gap before a label that begins with '('. */
  lemma BothPlacesOccur()
    ensures var inLabel, inGap := [Link("[a", "b", 0, 7, Url)], [Link("(y", "z", 3, 10, Url)];
      && LabelReopens("[[a](b)](c)", inLabel, 0) && !GapReopens("[[a](b)](c)", inLabel, 0)
      && GapReopens("[x][(y](z))", inGap, 0) && !LabelReopens("[x][(y](z))", inGap, 0)
  {
    var one, two := "[[a](b)](c)", "[x][(y](z))";
    var inLabel, inGap := [Link("[a", "b", 0, 7, Url)], [Link("(y", "z", 3, 10, Url)];
    var rest := CleanFrom(one, inLabel, 1);
    assert rest == "](c)" && rest[0..] == rest && rest[2..] == "c)";
    assert "c)"[1] == ')';
    assert Completes("[a"[1..], rest);
    assert ReopensAt("[a", 0, rest);
    assert Gap(one, inLabel, 0) == "";
    var gap := Gap(two, inGap, 0);
    assert gap == "[x]" && gap[0..] == gap;
    ScanFinds(gap, ']', 1, 2);
    assert Bracketed(gap[0..]);
    var url := "y" + CleanFrom(two, inGap, 1);
    assert "(y"[1..] == "y" && CleanFrom(two, inGap, 1) == ")" && url == "y)" && url[1] == ')';
  }
}
