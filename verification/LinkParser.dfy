/**
 * Markdown links (src/common/utils/link-parser.ts): the scan for [label](url), the text with the links reduced to
 * their labels, and the text with the links replaced by HTML.
 */
module LinkParser {
  import opened JsStrings
  import opened HtmlEscape

  datatype LinkType = Image | Video | Url

  datatype Link = Link(labelText: string, url: string, startIndex: nat, endIndex: nat, linkType: LinkType)

  // ------------------------------------------------------------------ the regular expression

  /** The first position at or after `from` that holds c, or the end of the text. */
  function Scan(text: string, c: char, from: nat): (r: nat)
    requires from <= |text|
    ensures from <= r <= |text|
    ensures c !in text[from..(r)] && (r < |text| ==> text[r] == c)
    decreases |text| - from
  {
    if from == |text| || text[from] == c then from else Scan(text, c, from + 1)
  }

  /** text[lo..hi] reads "[label](url)" with a non-empty label free of ']' and a non-empty url free of ')'. */
  predicate ReadsAs(text: string, lo: nat, hi: nat, labelText: string, url: string) {
    && lo <= hi <= |text|
    && labelText != "" && ']' !in labelText
    && url != "" && ')' !in url
    && text[lo..hi] == "[" + labelText + "](" + url + ")"
  }

  ghost predicate StartsMatch(text: string, at: nat) {
    exists hi: nat, labelText: string, url: string :: ReadsAs(text, at, hi, labelText, url)
  }

  /** /\[([^\]]+)\]\(([^)]+)\)/ anchored at `at`: both runs are as long as they can be, so the match is unique. */
  function MatchAt(text: string, at: nat): (r: Option<(nat, string, string)>)
    requires at <= |text|
    ensures r.Some? ==> at < r.value.0 && ReadsAs(text, at, r.value.0, r.value.1, r.value.2)
  {
    if at == |text| || text[at] != '[' then None
    else
      var close := Scan(text, ']', at + 1);
      if close == at + 1 || close + 1 >= |text| || text[close + 1] != '(' then None
      else
        var end := Scan(text, ')', close + 2);
        if end == close + 2 || end == |text| then None
        else
          var labelText, url := text[at + 1..close], text[close + 2..end];
          MatchedText(text, at, close, end);
          Some((end + 1, labelText, url))
  }

  lemma MatchedText(text: string, at: nat, close: nat, end: nat)
    requires at < close && close + 1 < end < |text|
    requires text[at] == '[' && text[close] == ']' && text[close + 1] == '(' && text[end] == ')'
    ensures text[at..end + 1] == "[" + text[at + 1..close] + "](" + text[close + 2..end] + ")"
  {
  }

  /** Where the pieces of a reading stand. */
  lemma ReadingLaidOut(text: string, lo: nat, hi: nat, labelText: string, url: string)
    requires ReadsAs(text, lo, hi, labelText, url)
    ensures var close, end := lo + 1 + |labelText|, lo + 3 + |labelText| + |url|;
      && end + 1 == hi <= |text|
      && text[lo] == '[' && text[close] == ']' && text[close + 1] == '(' && text[end] == ')'
      && text[lo + 1..close] == labelText && text[close + 2..end] == url
  {
    var n, m := |labelText|, |url|;
    var whole := "[" + labelText + "](" + url + ")";
    assert whole[0] == '[' && whole[1 + n] == ']' && whole[2 + n] == '(' && whole[3 + n + m] == ')';
    assert whole[1..1 + n] == labelText && whole[3 + n..3 + n + m] == url;
    assert forall i | 0 <= i < |whole| :: text[lo + i] == text[lo..hi][i] == whole[i];
    SliceOfSlice(text, lo, hi, 1, 1 + n);
    SliceOfSlice(text, lo, hi, 3 + n, 3 + n + m);
  }

  /** The anchored match is the only reading there is, and it is found whenever there is one. */
  lemma MatchIsUnique(text: string, at: nat, hi: nat, labelText: string, url: string)
    requires at <= |text| && ReadsAs(text, at, hi, labelText, url)
    ensures MatchAt(text, at) == Some((hi, labelText, url))
  {
    ReadingLaidOut(text, at, hi, labelText, url);
    var close, end := at + 1 + |labelText|, at + 3 + |labelText| + |url|;
    assert forall i | at + 1 <= i < close :: text[i] == text[at + 1..close][i - at - 1];
    assert forall i | close + 2 <= i < end :: text[i] == text[close + 2..end][i - close - 2];
    ScanFinds(text, ']', at + 1, close);
    ScanFinds(text, ')', close + 2, end);
  }

  lemma {:induction false} ScanFinds(text: string, c: char, from: nat, stop: nat)
    requires from <= stop < |text| && text[stop] == c
    requires forall i | from <= i < stop :: text[i] != c
    ensures Scan(text, c, from) == stop
    decreases stop - from
  {
    if from < stop {
      ScanFinds(text, c, from + 1, stop);
    }
  }

  // ------------------------------------------------------------------ parseMarkdownLinks

  /** links[k] is a match of the text, starting at or after `from`, and nothing before it from there on starts one. */
  ghost predicate LeftmostFrom(text: string, from: nat, link: Link) {
    && from <= link.startIndex < link.endIndex
    && ReadsAs(text, link.startIndex, link.endIndex, link.labelText, link.url)
    && (forall p: nat | from <= p < link.startIndex :: !StartsMatch(text, p))
  }

  function EndBefore(links: seq<Link>, k: nat): nat
    requires k <= |links|
  {
    if k == 0 then 0 else links[k - 1].endIndex
  }

  /** Each link is the leftmost match after the one before it. */
  ghost predicate Leftmost(text: string, links: seq<Link>) {
    forall k {:trigger EndBefore(links, k)} | 0 <= k < |links| :: LeftmostFrom(text, EndBefore(links, k), links[k])
  }

  /** The links are all of the leftmost matches of the text, in order. */
  ghost predicate IsScanOf(text: string, links: seq<Link>) {
    && Leftmost(text, links)
    && (forall p: nat | EndBefore(links, |links|) <= p :: !StartsMatch(text, p))
  }

  /** String.prototype.slice with non-negative arguments: clamped, and empty when they cross. */
  function Slice(text: string, lo: nat, hi: nat): string {
    var h := if hi <= |text| then hi else |text|;
    if lo <= h then text[lo..h] else ""
  }

  /** The text from the end of link k - 1 on, with each later span replaced by its replacement. */
  function SplicedFrom(text: string, links: seq<Link>, replacements: seq<string>, k: nat): string
    requires k <= |links| == |replacements|
    decreases |links| - k
  {
    if k == |links| then Slice(text, EndBefore(links, k), |text|)
    else
      Slice(text, EndBefore(links, k), links[k].startIndex) + replacements[k]
      + SplicedFrom(text, links, replacements, k + 1)
  }

  /** The text with each link's span replaced: gap, replacement, gap, replacement, ..., gap. */
  function Spliced(text: string, links: seq<Link>, replacements: seq<string>): string
    requires |links| == |replacements|
  {
    SplicedFrom(text, links, replacements, 0)
  }

  function Labels(links: seq<Link>): (labels: seq<string>)
    ensures |labels| == |links|
  {
    seq(|links|, i requires 0 <= i < |links| => links[i].labelText)
  }

  /** regex.exec with the global flag: the leftmost match at or after lastIndex. */
  method Exec(text: string, lastIndex: nat) returns (found: Option<(nat, nat, string, string)>)
    requires lastIndex <= |text|
    ensures found.Some?
      ==> LeftmostFrom(text, lastIndex, Link(found.value.2, found.value.3, found.value.0, found.value.1, Url))
    ensures found.None? ==> forall p: nat | lastIndex <= p :: !StartsMatch(text, p)
  {
    hide ReadsAs;
    var at := lastIndex;
    while at < |text|
      invariant lastIndex <= at <= |text|
      invariant forall p: nat | lastIndex <= p < at :: !StartsMatch(text, p)
    {
      var m := MatchAt(text, at);
      if m.Some? {
        return Some((at, m.value.0, m.value.1, m.value.2));
      }
      NoMatchAt(text, at);
      at := at + 1;
    }
    forall p: nat | at <= p
      ensures !StartsMatch(text, p)
    {
      NoMatchPastEnd(text, p);
    }
    found := None;
  }

  lemma NoMatchAt(text: string, at: nat)
    requires at <= |text| && MatchAt(text, at).None?
    ensures !StartsMatch(text, at)
  {
    forall hi: nat, labelText: string, url: string
      ensures !ReadsAs(text, at, hi, labelText, url)
    {
      if ReadsAs(text, at, hi, labelText, url) {
        MatchIsUnique(text, at, hi, labelText, url);
      }
    }
  }

  /**
   * The pattern, position by position: a bracket, at least one character up to the next closing bracket, a parenthesis
   * right behind that, and at least one character up to the next closing parenthesis.
   */
  lemma StartsMatchIff(text: string, at: nat)
    ensures StartsMatch(text, at) <==>
      exists close: nat, end: nat ::
        && at + 1 < close && close + 2 < end < |text|
        && text[at] == '[' && text[close] == ']' && text[close + 1] == '(' && text[end] == ')'
        && ']' !in text[at + 1..close] && ')' !in text[close + 2..end]
  {
    if StartsMatch(text, at) {
      var hi: nat, labelText: string, url: string :| ReadsAs(text, at, hi, labelText, url);
      ReadAtPlaces(text, at, hi, labelText, url);
    }
    forall close: nat, end: nat |
        && at + 1 < close && close + 2 < end < |text|
        && text[at] == '[' && text[close] == ']' && text[close + 1] == '(' && text[end] == ')'
        && ']' !in text[at + 1..close] && ')' !in text[close + 2..end]
      ensures StartsMatch(text, at)
    {
      MatchedText(text, at, close, end);
      assert ReadsAs(text, at, end + 1, text[at + 1..close], text[close + 2..end]);
    }
  }

  lemma ReadAtPlaces(text: string, at: nat, hi: nat, labelText: string, url: string)
    requires ReadsAs(text, at, hi, labelText, url)
    ensures var close := at + 1 + |labelText|;
      var end := close + 2 + |url|;
      && at + 1 < close && close + 2 < end < |text|
      && text[at] == '[' && text[close] == ']' && text[close + 1] == '(' && text[end] == ')'
      && text[at + 1..close] == labelText && text[close + 2..end] == url
  {
    var read := text[at..hi];
    assert read == "[" + labelText + "](" + url + ")";
    var close, end := 1 + |labelText|, 3 + |labelText| + |url|;
    assert read[0] == '[' && read[close] == ']' && read[close + 1] == '(' && read[end] == ')';
    assert read[1..close] == labelText && read[close + 2..end] == url;
    SliceOfSlice(text, at, hi, 1, close);
    SliceOfSlice(text, at, hi, close + 2, end);
  }

  lemma NoMatchPastEnd(text: string, at: nat)
    requires |text| <= at
    ensures !StartsMatch(text, at)
  {
  }

  /**
   * parseMarkdownLinks. detectLinkType is a parameter: it only classifies the url. The cleaned text is what the
   * global replace of every match by its label gives.
   */
  method ParseMarkdownLinks(text: string, detectLinkType: string -> LinkType)
      returns (cleanText: string, links: seq<Link>)
    ensures IsScanOf(text, links)
    ensures forall k | 0 <= k < |links| :: links[k].linkType == detectLinkType(links[k].url)
    ensures cleanText == Spliced(text, links, Labels(links))
  {
    links := [];
    assert Leftmost(text, links);
    hide LeftmostFrom, StartsMatch, Leftmost, Spliced;
    var lastIndex := 0;
    var searching := true;
    while searching
      invariant lastIndex == EndBefore(links, |links|) <= |text|
      invariant Leftmost(text, links)
      invariant forall k | 0 <= k < |links| :: links[k].linkType == detectLinkType(links[k].url)
      invariant !searching ==> forall p: nat | lastIndex <= p :: !StartsMatch(text, p)
      decreases searching, |text| - lastIndex
    {
      var found := Exec(text, lastIndex);
      if found.None? {
        searching := false;
      } else {
        var (startIndex, endIndex, labelText, url) := found.value;
        LeftmostGrows(text, links, Link(labelText, url, startIndex, endIndex, Url));
        links := links + [Link(labelText, url, startIndex, endIndex, detectLinkType(url))];
        lastIndex := endIndex;
      }
    }
    cleanText := ReplaceMatchesByLabels(text, links);
  }

  /** From the same place, the leftmost match is one and the same. */
  lemma LeftmostIsUnique(text: string, from: nat, a: Link, b: Link)
    requires LeftmostFrom(text, from, a) && LeftmostFrom(text, from, b)
    ensures SameSpan(a, b)
  {
    assert StartsMatch(text, a.startIndex) && StartsMatch(text, b.startIndex);
    assert a.startIndex == b.startIndex;
    MatchIsUnique(text, a.startIndex, a.endIndex, a.labelText, a.url);
    MatchIsUnique(text, b.startIndex, b.endIndex, b.labelText, b.url);
  }

  lemma ScanLink(text: string, links: seq<Link>, k: nat)
    requires IsScanOf(text, links) && k < |links|
    ensures LeftmostFrom(text, EndBefore(links, k), links[k]) && StartsMatch(text, links[k].startIndex)
  {
  }

  lemma LeftmostGrows(text: string, links: seq<Link>, link: Link)
    requires Leftmost(text, links) && LeftmostFrom(text, EndBefore(links, |links|), link)
    ensures forall t: LinkType :: Leftmost(text, links + [link.(linkType := t)])
    ensures EndBefore(links, |links|) <= link.startIndex < link.endIndex <= |text|
  {
    forall t: LinkType
      ensures Leftmost(text, links + [link.(linkType := t)])
    {
      var all := links + [link.(linkType := t)];
      forall k | 0 <= k < |all|
        ensures LeftmostFrom(text, EndBefore(all, k), all[k])
      {
        if k < |links| {
          assert LeftmostFrom(text, EndBefore(links, k), links[k]);
        }
      }
    }
  }

  lemma ScanInside(text: string, links: seq<Link>)
    requires IsScanOf(text, links)
    ensures Ascending(text, links)
  {
    forall k | 0 <= k < |links|
      ensures EndBefore(links, k) <= links[k].startIndex < links[k].endIndex <= |text|
    {
      assert LeftmostFrom(text, EndBefore(links, k), links[k]);
    }
  }

  predicate SameSpan(a: Link, b: Link) {
    a.startIndex == b.startIndex && a.endIndex == b.endIndex && a.labelText == b.labelText && a.url == b.url
  }

  /** If nothing from here on starts a match, the scan is over. */
  lemma NoMoreLinks(text: string, links: seq<Link>, k: nat)
    requires IsScanOf(text, links) && k <= |links|
    requires forall p: nat | EndBefore(links, k) <= p :: !StartsMatch(text, p)
    ensures k == |links|
  {
    if k < |links| {
      ScanLink(text, links, k);
    }
  }

  /** If a match is found from here on, it is the scan's next link. */
  lemma SameNextLink(text: string, links: seq<Link>, k: nat, found: Link)
    requires IsScanOf(text, links) && k <= |links|
    requires LeftmostFrom(text, EndBefore(links, k), found)
    ensures k < |links| && SameSpan(links[k], found)
  {
    hide ReadsAs;
    assert ReadsAs(text, found.startIndex, found.endIndex, found.labelText, found.url);
    assert StartsMatch(text, found.startIndex);
    assert EndBefore(links, |links|) <= found.startIndex ==> k < |links|;
    assert k < |links|;
    LeftmostIsUnique(text, EndBefore(links, k), links[k], found);
  }

  /** The specification determines the result: two scans of one text list the same spans. */
  lemma ScanIsUnique(text: string, a: seq<Link>, b: seq<Link>)
    requires IsScanOf(text, a) && IsScanOf(text, b)
    ensures |a| == |b| && forall k | 0 <= k < |a| :: SameSpan(a[k], b[k])
  {
    PrefixesAgree(text, a, b, |a|);
    PrefixesAgree(text, b, a, |b|);
  }

  lemma {:induction false} PrefixesAgree(text: string, a: seq<Link>, b: seq<Link>, k: nat)
    requires IsScanOf(text, a) && IsScanOf(text, b) && k <= |a|
    ensures k <= |b| && forall j | 0 <= j < k :: SameSpan(a[j], b[j])
  {
    hide StartsMatch, LeftmostFrom, IsScanOf;
    if k > 0 {
      var j := k - 1;
      PrefixesAgree(text, a, b, j);
      assert EndBefore(a, j) == EndBefore(b, j) by {
        assert j > 0 ==> SameSpan(a[j - 1], b[j - 1]);
      }
      ScanLink(text, a, j);
      SameNextLink(text, b, j, a[j]);
    }
  }

  lemma LastGap(text: string, links: seq<Link>, k: nat)
    requires k == |links| && EndBefore(links, k) <= |text|
    ensures SplicedFrom(text, links, Labels(links), k) == text[EndBefore(links, k)..]
  {
  }

  lemma OneMoreLabel(text: string, links: seq<Link>, k: nat, found: Link, soFar: string)
    requires k < |links| && SameSpan(links[k], found) && Ascending(text, links)
    ensures found.endIndex == EndBefore(links, k + 1) <= |text|
      && EndBefore(links, k) <= found.startIndex < found.endIndex
    ensures soFar + SplicedFrom(text, links, Labels(links), k)
         == soFar + text[EndBefore(links, k)..found.startIndex] + found.labelText
           + SplicedFrom(text, links, Labels(links), k + 1)
  {
    var rest := SplicedFrom(text, links, Labels(links), k + 1);
    var gap := text[EndBefore(links, k)..found.startIndex];
    assert SplicedFrom(text, links, Labels(links), k) == gap + found.labelText + rest;
    assert soFar + (gap + found.labelText + rest) == soFar + gap + found.labelText + rest;
  }

  /** text.replace(MARKDOWN_LINK_REGEX, '$1'): a scan of its own, which meets the same matches. */
  method ReplaceMatchesByLabels(text: string, ghost links: seq<Link>) returns (cleanText: string)
    requires IsScanOf(text, links)
    ensures cleanText == Spliced(text, links, Labels(links))
  {
    hide LeftmostFrom, StartsMatch, IsScanOf, SplicedFrom, SameSpan;
    ScanInside(text, links);
    cleanText := "";
    var lastIndex := 0;
    var searching := true;
    ghost var k := 0;
    while searching
      invariant k <= |links| && lastIndex == EndBefore(links, k) <= |text|
      invariant searching
        ==> cleanText + SplicedFrom(text, links, Labels(links), k) == Spliced(text, links, Labels(links))
      invariant !searching ==> cleanText == Spliced(text, links, Labels(links))
      decreases searching, |text| - lastIndex
    {
      var found := Exec(text, lastIndex);
      if found.None? {
        NoMoreLinks(text, links, k);
        LastGap(text, links, k);
        cleanText := cleanText + text[lastIndex..];
        searching := false;
      } else {
        var (startIndex, endIndex, labelText, url) := found.value;
        SameNextLink(text, links, k, Link(labelText, url, startIndex, endIndex, Url));
        OneMoreLabel(text, links, k, Link(labelText, url, startIndex, endIndex, Url), cleanText);
        cleanText := cleanText + text[lastIndex..startIndex] + labelText;
        lastIndex := endIndex;
        k := k + 1;
      }
    }
  }

  // ------------------------------------------------------------------ convertLinksToHtml

  function RenderHtmlElement(link: Link): string {
    var safeUrl, safeLabel := EscapeHtml(link.url), EscapeHtml(link.labelText);
    match link.linkType
    case Image =>
      "<a href=\"" + safeUrl + "\"><img src=\"" + safeUrl + "\" alt=\"" + safeLabel
        + "\" style=\"max-width:100%;height:auto;\" /></a>"
    case Video => "<a href=\"" + safeUrl + "\">" + safeLabel + "</a>"
    case Url => "<a href=\"" + safeUrl + "\">" + safeLabel + "</a>"
  }

  function Rendered(links: seq<Link>): (html: seq<string>)
    ensures |html| == |links|
    ensures forall i | 0 <= i < |links| :: html[i] == RenderHtmlElement(links[i])
  {
    seq(|links|, i requires 0 <= i < |links| => RenderHtmlElement(links[i]))
  }

  // ------------------------------------------------------------------ what an element says

  /** A text that escaping and unescaping give back: it spells out none of four entities. */
  ghost predicate RoundTrips(text: string) {
    !Contains(text, "&lt;") && !Contains(text, "&gt;") && !Contains(text, "&quot;") && !Contains(text, "&#039;")
  }

  /** Neither markup nor the end of an attribute value; and unescaping gives the text back, if anything can. */
  ghost predicate Encodes(safe: string, text: string) {
    && '<' !in safe && '>' !in safe && '"' !in safe && '\'' !in safe
    && (UnescapeHtml(safe) == text <==> RoundTrips(text))
  }

  /** html from `from` up to the next c. */
  function UpTo(html: string, c: char, from: nat): string {
    if from <= |html| then html[from..Scan(html, c, from)] else ""
  }

  predicate HoldsAt(html: string, at: nat, part: string) {
    at + |part| <= |html| && html[at..at + |part|] == part
  }

  /** An anchor, read from left to right: up to the quote that ends the href, then up to the next tag. */
  ghost predicate ReadsAnchor(html: string, url: string, name: string) {
    && HoldsAt(html, 0, "<a href=\"") && UpTo(html, '"', 9) == url && HoldsAt(html, 9 + |url|, "\">")
    && UpTo(html, '<', 11 + |url|) == name
    && 11 + |url| + |name| <= |html| && html[11 + |url| + |name|..] == "</a>"
  }

  /** An anchor around an image, read likewise: the url once more as its source, the label as alternative text. */
  ghost predicate ReadsImage(html: string, url: string, name: string) {
    var inside := 11 + |url|;
    && HoldsAt(html, 0, "<a href=\"") && UpTo(html, '"', 9) == url && HoldsAt(html, 9 + |url|, "\">")
    && HoldsAt(html, inside, "<img src=\"") && UpTo(html, '"', inside + 10) == url
    && HoldsAt(html, inside + 10 + |url|, "\" alt=\"") && UpTo(html, '"', inside + 17 + |url|) == name
    && inside + 17 + |url| + |name| <= |html|
    && html[inside + 17 + |url| + |name|..] == "\" style=\"max-width:100%;height:auto;\" /></a>"
  }

  /** The element goes to the url and shows the label, as an image only for an image link; and that is all it holds. */
  ghost predicate SaysLink(html: string, link: Link) {
    exists url: string, name: string ::
      && Encodes(url, link.url) && Encodes(name, link.labelText)
      && if link.linkType == Image then ReadsImage(html, url, name) else ReadsAnchor(html, url, name)
  }

  lemma EscapedEncodes(text: string)
    ensures Encodes(EscapeHtml(text), text)
  {
    hide EscapeHtml, UnescapeHtml;
    EscapedIsSafe(text);
    RoundTripIff(text);
  }

  /** What is left of html from k on starts with `part`. */
  lemma ReadPart(html: string, k: nat, part: string, rest: string)
    requires k <= |html| && html[k..] == part + rest
    ensures HoldsAt(html, k, part) && k + |part| <= |html| && html[k + |part|..] == rest
  {
    assert html[k..][|part|..] == rest;
  }

  /** What is left starts with a piece that does not hold the character behind it. */
  lemma ReadPiece(html: string, k: nat, piece: string, rest: string, c: char)
    requires k <= |html| && html[k..] == piece + rest
    requires c !in piece && rest != "" && rest[0] == c
    ensures UpTo(html, c, k) == piece && k + |piece| <= |html| && html[k + |piece|..] == rest
  {
    ReadPart(html, k, piece, rest);
    var end := Scan(html, c, k);
    assert html[k + |piece|] == c;
    assert forall i | k <= i < k + |piece| :: html[i] == piece[i - k];
    assert forall i | k <= i < end :: html[i] in html[k..end];
  }

  lemma Assoc<T>(a: seq<T>, b: seq<T>, c: seq<T>)
    ensures a + b + c == a + (b + c)
  {
  }

  /** Every rendered link says its link. */
  lemma RenderedSaysLink(link: Link)
    ensures SaysLink(RenderHtmlElement(link), link)
  {
    var url, name := EscapeHtml(link.url), EscapeHtml(link.labelText);
    EscapedEncodes(link.url);
    EscapedEncodes(link.labelText);
    hide EscapeHtml, UnescapeHtml, RoundTrips, ReadsAnchor, ReadsImage;
    if link.linkType == Image {
      ReadImage(url, name);
    } else {
      ReadAnchor(url, name);
    }
    hide Encodes;
  }

  lemma ReadAnchor(url: string, name: string)
    requires '"' !in url && '<' !in name
    ensures ReadsAnchor("<a href=\"" + url + "\">" + name + "</a>", url, name)
  {
    hide UpTo, HoldsAt;
    var html := "<a href=\"" + url + "\">" + name + "</a>";
    Assoc("<a href=\"" + url + "\">", name, "</a>");
    Assoc("<a href=\"" + url, "\">", name + "</a>");
    Assoc("<a href=\"", url, "\">" + (name + "</a>"));
    assert html[0..] == html;
    ReadPart(html, 0, "<a href=\"", url + ("\">" + (name + "</a>")));
    ReadPiece(html, 9, url, "\">" + (name + "</a>"), '"');
    ReadPart(html, 9 + |url|, "\">", name + "</a>");
    ReadPiece(html, 11 + |url|, name, "</a>", '<');
  }

  lemma ReadImage(url: string, name: string)
    requires '"' !in url && '"' !in name
    ensures ReadsImage("<a href=\"" + url + "\"><img src=\"" + url + "\" alt=\"" + name
      + "\" style=\"max-width:100%;height:auto;\" /></a>", url, name)
  {
    hide UpTo, HoldsAt;
    var a, b, c, end := "<a href=\"", "\"><img src=\"", "\" alt=\"", "\" style=\"max-width:100%;height:auto;\" /></a>";
    assert "\">" + "<img src=\"" == b;
    var html := a + url + b + url + c + name + end;
    Reassociate(a, url, "\">", "<img src=\"", c, name, end);
    ReadPieces(html, a, url, "\">", "<img src=\"", c, name, end);
  }

  lemma Reassociate(a: string, url: string, b1: string, b2: string, c: string, name: string, end: string)
    ensures a + url + (b1 + b2) + url + c + name + end == a + (url + (b1 + (b2 + (url + (c + (name + end))))))
  {
    var t := c + (name + end);
    Assoc(a + url + (b1 + b2) + url + c, name, end);
    Assoc(a + url + (b1 + b2) + url, c, name + end);
    Assoc(a + url + (b1 + b2), url, t);
    Assoc(a + url, b1 + b2, url + t);
    Assoc(b1, b2, url + t);
    Assoc(a, url, b1 + (b2 + (url + t)));
  }

  lemma ReadPieces(
      html: string, a: string, url: string, b1: string, b2: string, c: string, name: string, end: string)
    requires html == a + (url + (b1 + (b2 + (url + (c + (name + end))))))
    requires '"' !in url && '"' !in name
    requires b1 != "" && b1[0] == '"' && c != "" && c[0] == '"' && end != "" && end[0] == '"'
    ensures var k := |a| + |url| + |b1| + |b2|;
      && HoldsAt(html, 0, a) && UpTo(html, '"', |a|) == url && HoldsAt(html, |a| + |url|, b1)
      && HoldsAt(html, |a| + |url| + |b1|, b2) && UpTo(html, '"', k) == url
      && HoldsAt(html, k + |url|, c) && UpTo(html, '"', k + |url| + |c|) == name
      && k + |url| + |c| + |name| <= |html| && html[k + |url| + |c| + |name|..] == end
  {
    hide UpTo, HoldsAt;
    assert html[0..] == html;
    ReadFront(html, a, url, b1, b2, url + (c + (name + end)));
    var k := |a| + |url| + |b1| + |b2|;
    ReadPiece(html, k, url, c + (name + end), '"');
    ReadPart(html, k + |url|, c, name + end);
    ReadPiece(html, k + |url| + |c|, name, end, '"');
  }

  lemma ReadFront(html: string, a: string, url: string, b1: string, b2: string, rest: string)
    requires html[0..] == a + (url + (b1 + (b2 + rest)))
    requires '"' !in url && b1 != "" && b1[0] == '"'
    ensures HoldsAt(html, 0, a) && UpTo(html, '"', |a|) == url && HoldsAt(html, |a| + |url|, b1)
    ensures HoldsAt(html, |a| + |url| + |b1|, b2)
    ensures |a| + |url| + |b1| + |b2| <= |html| && html[|a| + |url| + |b1| + |b2|..] == rest
  {
    hide UpTo, HoldsAt;
    ReadPart(html, 0, a, url + (b1 + (b2 + rest)));
    ReadPiece(html, |a|, url, b1 + (b2 + rest), '"');
    ReadPart(html, |a| + |url|, b1, b2 + rest);
    ReadPart(html, |a| + |url| + |b1|, b2, rest);
  }

  function CountOf(s: string, c: char): nat {
    multiset(s)[c]
  }

  lemma CountOfConcat(a: string, b: string, c: char)
    ensures CountOf(a + b, c) == CountOf(a, c) + CountOf(b, c)
  {
  }

  /** The occurrences of a character in the element of a type, without those in the url and the label. */
  function FixedCount(linkType: LinkType, c: char): nat {
    if linkType == Image then
      CountOf("<a href=\"", c) + CountOf("\"><img src=\"", c) + CountOf("\" alt=\"", c)
      + CountOf("\" style=\"max-width:100%;height:auto;\" /></a>", c)
    else CountOf("<a href=\"", c) + CountOf("\">", c) + CountOf("</a>", c)
  }

  lemma EscapedHasNone(text: string, c: char)
    requires c in {'<', '>', '"', '\''}
    ensures CountOf(EscapeHtml(text), c) == 0
  {
    EscapedIsSafe(text);
    hide EscapeHtml;
    assert c !in EscapeHtml(text);
  }

  lemma WithoutTexts(link: Link, c: char)
    requires c in {'<', '>', '"', '\''}
    ensures CountOf(RenderHtmlElement(link), c) == FixedCount(link.linkType, c)
  {
    hide EscapeHtml, CountOf;
    EscapedHasNone(link.url, c);
    EscapedHasNone(link.labelText, c);
    var url, name := EscapeHtml(link.url), EscapeHtml(link.labelText);
    if link.linkType == Image {
      CountOfImage("<a href=\"", url, "\"><img src=\"", "\" alt=\"", name,
        "\" style=\"max-width:100%;height:auto;\" /></a>", c);
    } else {
      CountOfAnchor("<a href=\"", url, "\">", name, "</a>", c);
    }
  }

  lemma CountOfAnchor(a: string, url: string, b: string, name: string, end: string, c: char)
    ensures CountOf(a + url + b + name + end, c)
      == CountOf(a, c) + CountOf(url, c) + CountOf(b, c) + CountOf(name, c) + CountOf(end, c)
  {
    hide CountOf;
    CountOfConcat(a + url + b + name, end, c);
    CountOfConcat(a + url + b, name, c);
    CountOfConcat(a + url, b, c);
    CountOfConcat(a, url, c);
  }

  lemma CountOfImage(a: string, url: string, b: string, alt: string, name: string, end: string, c: char)
    ensures CountOf(a + url + b + url + alt + name + end, c) == CountOf(a, c) + 2 * CountOf(url, c) + CountOf(b, c)
      + CountOf(alt, c) + CountOf(name, c) + CountOf(end, c)
  {
    hide CountOf;
    CountOfConcat(a + url + b + url + alt + name, end, c);
    CountOfAnchor(a, url, b, url, alt, c);
    CountOfConcat(a + url + b + url + alt, name, c);
  }

  /** How often a character that could be markup occurs in an element depends on the type of the link alone. */
  lemma MarkupIsTheElements(link: Link, other: Link, c: char)
    requires link.linkType == other.linkType && c in {'<', '>', '"', '\''}
    ensures CountOf(RenderHtmlElement(link), c) == CountOf(RenderHtmlElement(other), c)
  {
    hide RenderHtmlElement, FixedCount, CountOf;
    WithoutTexts(link, c);
    WithoutTexts(other, c);
  }

  /** links.sort((a, b) => b.startIndex - a.startIndex), which is stable. */
  function SortDescending(links: seq<Link>): (sorted: seq<Link>)
    ensures multiset(sorted) == multiset(links)
    ensures Descending(sorted)
  {
    if links == [] then []
    else
      var n := |links| - 1;
      assert links == links[..n] + [links[n]];
      InsertDescending(SortDescending(links[..n]), links[n])
  }

  predicate Descending(links: seq<Link>) {
    forall i, j | 0 <= i < j < |links| :: links[i].startIndex >= links[j].startIndex
  }

  /** Behind the links that start no earlier. */
  function InsertDescending(sorted: seq<Link>, link: Link): (r: seq<Link>)
    requires Descending(sorted)
    ensures multiset(r) == multiset(sorted) + multiset{link}
    ensures Descending(r)
  {
    if sorted == [] then [link]
    else if sorted[0].startIndex < link.startIndex then [link] + sorted
    else
      var rest := InsertDescending(sorted[1..], link);
      assert sorted == [sorted[0]] + sorted[1..];
      HeadIsLargest(sorted, link, rest);
      [sorted[0]] + rest
  }

  lemma HeadIsLargest(sorted: seq<Link>, link: Link, rest: seq<Link>)
    requires sorted != [] && Descending(sorted) && Descending(rest)
    requires multiset(rest) == multiset(sorted[1..]) + multiset{link}
    requires sorted[0].startIndex >= link.startIndex
    ensures Descending([sorted[0]] + rest)
  {
    forall i | 0 <= i < |rest|
      ensures sorted[0].startIndex >= rest[i].startIndex
    {
      assert rest[i] in multiset(rest);
      if rest[i] != link {
        assert rest[i] in sorted[1..];
      }
    }
  }

  /** The link alone, if it starts there. */
  function IfStarts(link: Link, at: nat): seq<Link> {
    if link.startIndex == at then [link] else []
  }

  function StartingAt(links: seq<Link>, at: nat): seq<Link> {
    if links == [] then [] else IfStarts(links[0], at) + StartingAt(links[1..], at)
  }

  lemma {:induction false} NoneStartLater(links: seq<Link>, at: nat)
    requires forall i | 0 <= i < |links| :: links[i].startIndex < at
    ensures StartingAt(links, at) == []
  {
    if links != [] {
      NoneStartLater(links[1..], at);
    }
  }

  lemma StartingAtCons(link: Link, links: seq<Link>, at: nat)
    ensures StartingAt([link] + links, at) == IfStarts(link, at) + StartingAt(links, at)
  {
    hide IfStarts;
    assert ([link] + links)[1..] == links;
  }

  lemma InsertUnfolds(sorted: seq<Link>, link: Link)
    requires Descending(sorted) && sorted != []
    ensures Descending(sorted[1..])
    ensures InsertDescending(sorted, link)
      == if sorted[0].startIndex < link.startIndex then [link] + sorted
         else [sorted[0]] + InsertDescending(sorted[1..], link)
  {
  }

  lemma {:induction false} InsertIsStable(sorted: seq<Link>, link: Link, at: nat)
    requires Descending(sorted)
    ensures StartingAt(InsertDescending(sorted, link), at) == StartingAt(sorted, at) + IfStarts(link, at)
  {
    hide Descending, InsertDescending, StartingAt, IfStarts;
    if sorted == [] {
      InsertAlone(link, at);
    } else {
      InsertUnfolds(sorted, link);
      if sorted[0].startIndex < link.startIndex {
        InsertInFront(sorted, link, at);
      } else {
        var first, rest := sorted[0], sorted[1..];
        InsertIsStable(rest, link, at);
        StartingAtCons(first, InsertDescending(rest, link), at);
        StartingAtCons(first, rest, at);
        Assoc(IfStarts(first, at), StartingAt(rest, at), IfStarts(link, at));
        assert sorted == [first] + rest;
      }
    }
  }

  lemma InsertAlone(link: Link, at: nat)
    ensures StartingAt(InsertDescending([], link), at) == StartingAt([], at) + IfStarts(link, at)
  {
    StartingAtCons(link, [], at);
    assert [link] + [] == [link];
  }

  lemma InsertInFront(sorted: seq<Link>, link: Link, at: nat)
    requires Descending(sorted) && sorted != [] && sorted[0].startIndex < link.startIndex
    ensures StartingAt([link] + sorted, at) == StartingAt(sorted, at) + IfStarts(link, at)
  {
    StartingAtCons(link, sorted, at);
    if link.startIndex == at {
      NoneStartLater(sorted, at);
    }
    hide StartingAt;
  }

  lemma {:induction false} StartingAtSnoc(links: seq<Link>, link: Link, at: nat)
    ensures StartingAt(links + [link], at) == StartingAt(links, at) + IfStarts(link, at)
  {
    if links == [] {
      StartingAtCons(link, [], at);
      assert [] + [link] == [link] == [link] + [];
    } else {
      var first, rest := links[0], links[1..];
      StartingAtSnoc(rest, link, at);
      StartingAtCons(first, rest + [link], at);
      StartingAtCons(first, rest, at);
      hide StartingAt, IfStarts;
      assert links == [first] + rest;
      assert links + [link] == [first] + (rest + [link]);
    }
  }

  /** Links that start at one place keep their order. */
  lemma {:induction false} SortIsStable(links: seq<Link>, at: nat)
    ensures StartingAt(SortDescending(links), at) == StartingAt(links, at)
  {
    if links != [] {
      var n := |links| - 1;
      assert links == links[..n] + [links[n]];
      SortIsStable(links[..n], at);
      InsertIsStable(SortDescending(links[..n]), links[n], at);
      StartingAtSnoc(links[..n], links[n], at);
    }
  }

  /** Non-empty spans inside the text, each starting no earlier than the one before it ends. */
  ghost predicate Ascending(text: string, links: seq<Link>) {
    forall k {:trigger EndBefore(links, k)} | 0 <= k < |links| ::
      EndBefore(links, k) <= links[k].startIndex < links[k].endIndex <= |text|
  }

  /** One turn of the loop: cut the span out of the working text and put the element in. */
  function SpliceOne(result: string, link: Link): string {
    Slice(result, 0, link.startIndex) + RenderHtmlElement(link) + Slice(result, link.endIndex, |result|)
  }

  function SpliceEach(text: string, links: seq<Link>): string {
    if links == [] then text
    else
      var n := |links| - 1;
      SpliceOne(SpliceEach(text, links[..n]), links[n])
  }

  lemma SortedNothing()
    ensures SortDescending([]) == []
  {
  }

  function Reversed(links: seq<Link>): (r: seq<Link>)
    ensures |r| == |links|
    ensures forall i | 0 <= i < |r| :: r[i] == links[|links| - 1 - i]
  {
    seq(|links|, i requires 0 <= i < |links| => links[|links| - 1 - i])
  }

  lemma {:induction false} ReversedKeepsAll(links: seq<Link>)
    ensures multiset(Reversed(links)) == multiset(links)
  {
    if links != [] {
      var n := |links| - 1;
      ReversedKeepsAll(links[..n]);
      assert links == links[..n] + [links[n]];
      assert Reversed(links) == [links[n]] + Reversed(links[..n]);
    } else {
      assert Reversed(links) == [];
    }
  }

  ghost predicate StrictlyDescending(links: seq<Link>) {
    forall i, j | 0 <= i < j < |links| :: links[i].startIndex > links[j].startIndex
  }

  /** A sorted arrangement of links with distinct start indices is unique. */
  lemma {:induction false} SortedArrangementIsUnique(a: seq<Link>, b: seq<Link>)
    requires multiset(a) == multiset(b)
    requires Descending(a) && StrictlyDescending(b)
    ensures a == b
  {
    assert |a| == |multiset(a)| == |multiset(b)| == |b|;
    if a != [] {
      HeadsAgree(a, b);
      TailMultiset(a);
      TailMultiset(b);
      SortedArrangementIsUnique(a[1..], b[1..]);
      assert a == [a[0]] + a[1..] && b == [b[0]] + b[1..];
    }
  }

  lemma HeadsAgree(a: seq<Link>, b: seq<Link>)
    requires a != [] && b != [] && multiset(a) == multiset(b)
    requires Descending(a) && StrictlyDescending(b)
    ensures a[0] == b[0]
  {
    assert a[0] in multiset(b) && b[0] in multiset(a);
    var i :| 0 <= i < |b| && b[i] == a[0];
    var j :| 0 <= j < |a| && a[j] == b[0];
  }

  lemma TailMultiset(a: seq<Link>)
    requires a != []
    ensures multiset(a[1..]) == multiset(a) - multiset{a[0]}
  {
    assert a == [a[0]] + a[1..];
  }

  lemma AscendingStarts(text: string, links: seq<Link>, i: nat, j: nat)
    requires Ascending(text, links) && i < j < |links|
    ensures links[i].startIndex < links[j].startIndex
    decreases j
  {
    assert links[j - 1].endIndex == EndBefore(links, j) <= links[j].startIndex;
    assert EndBefore(links, j - 1) <= links[j - 1].startIndex < links[j - 1].endIndex;
    if i < j - 1 {
      AscendingStarts(text, links, i, j - 1);
    }
  }

  lemma ReversedDescends(text: string, order: seq<Link>)
    requires Ascending(text, order)
    ensures StrictlyDescending(Reversed(order))
  {
    hide Ascending, Reversed;
    var r, n := Reversed(order), |order|;
    forall i, j | 0 <= i < j < n
      ensures r[i].startIndex > r[j].startIndex
    {
      AscendingStarts(text, order, n - 1 - j, n - 1 - i);
    }
  }

  lemma SortReverses(text: string, order: seq<Link>, links: seq<Link>)
    requires Ascending(text, order) && multiset(links) == multiset(order)
    ensures SortDescending(links) == Reversed(order)
  {
    hide Ascending, Reversed, SortDescending, Descending, StrictlyDescending;
    ReversedDescends(text, order);
    ReversedKeepsAll(order);
    SortedArrangementIsUnique(SortDescending(links), Reversed(order));
  }

  lemma SpliceOneIntoPrefix(text: string, link: Link, rest: string)
    requires link.startIndex < link.endIndex <= |text|
    ensures SpliceOne(text[..link.endIndex] + rest, link) == text[..link.startIndex] + RenderHtmlElement(link) + rest
  {
    var result := text[..link.endIndex] + rest;
    assert result[0..link.startIndex] == text[..link.startIndex];
    assert result[link.endIndex..|result|] == rest;
  }

  /** After i turns the last i links are rendered and the text before them is untouched. */
  lemma {:induction false} SplicingFromTheRight(text: string, order: seq<Link>, i: nat)
    requires Ascending(text, order) && i <= |order|
    ensures EndBefore(order, |order| - i) <= |text|
    ensures SpliceEach(text, Reversed(order)[..i])
         == text[..EndBefore(order, |order| - i)] + SplicedFrom(text, order, Rendered(order), |order| - i)
  {
    hide SpliceOne, SplicedFrom, RenderHtmlElement, Reversed, Rendered;
    if i == 0 {
      NothingSpliced(text, order);
    } else {
      hide SpliceEach, Ascending;
      SplicingFromTheRight(text, order, i - 1);
      SpliceOneMore(text, order, Reversed(order)[..i - 1], |order| - i);
      NextReversed(order, i);
    }
  }

  lemma NextReversed(order: seq<Link>, i: nat)
    requires 0 < i <= |order|
    ensures Reversed(order)[..i] == Reversed(order)[..i - 1] + [order[|order| - i]]
  {
  }

  /** One turn: the links spliced so far render the text from link j + 1 on, and link j is next. */
  lemma SpliceOneMore(text: string, order: seq<Link>, spliced: seq<Link>, j: nat)
    requires Ascending(text, order) && j < |order| && EndBefore(order, j + 1) <= |text|
    requires SpliceEach(text, spliced)
      == text[..EndBefore(order, j + 1)] + SplicedFrom(text, order, Rendered(order), j + 1)
    ensures EndBefore(order, j) <= |text|
    ensures SpliceEach(text, spliced + [order[j]])
      == text[..EndBefore(order, j)] + SplicedFrom(text, order, Rendered(order), j)
  {
    hide SpliceOne, SplicedFrom, RenderHtmlElement, Rendered, SpliceEach, Ascending;
    SpliceEachSnoc(text, spliced, order[j]);
    OneMoreGap(text, order, j);
    SpliceOneIntoPrefix(text, order[j], SplicedFrom(text, order, Rendered(order), j + 1));
  }

  lemma SpliceEachSnoc(text: string, links: seq<Link>, link: Link)
    ensures SpliceEach(text, links + [link]) == SpliceOne(SpliceEach(text, links), link)
  {
    hide SpliceOne;
    assert (links + [link])[..|links|] == links;
  }

  lemma NothingSpliced(text: string, order: seq<Link>)
    requires Ascending(text, order)
    ensures EndBefore(order, |order|) <= |text|
    ensures text == text[..EndBefore(order, |order|)] + SplicedFrom(text, order, Rendered(order), |order|)
  {
    hide RenderHtmlElement, Rendered;
    if order != [] {
      var last := |order| - 1;
      assert EndBefore(order, last) <= order[last].startIndex < order[last].endIndex <= |text|;
    }
  }

  lemma OneMoreGap(text: string, order: seq<Link>, j: nat)
    requires Ascending(text, order) && j < |order|
    ensures EndBefore(order, j) <= order[j].startIndex < order[j].endIndex == EndBefore(order, j + 1) <= |text|
    ensures text[..order[j].startIndex] + RenderHtmlElement(order[j]) + SplicedFrom(text, order, Rendered(order), j + 1)
         == text[..EndBefore(order, j)] + SplicedFrom(text, order, Rendered(order), j)
  {
    hide RenderHtmlElement;
    var from, start := EndBefore(order, j), order[j].startIndex;
    var html, rest := RenderHtmlElement(order[j]), SplicedFrom(text, order, Rendered(order), j + 1);
    assert SplicedFrom(text, order, Rendered(order), j) == text[from..start] + html + rest;
    assert text[..start] == text[..from] + text[from..start];
    assert text[..from] + text[from..start] + html + rest == text[..from] + (text[from..start] + html + rest);
  }

  /**
   * For non-overlapping links handed over in any order, splicing right to left is the single left-to-right
   * concatenation of gaps and rendered links.
   */
  lemma SpliceEqualsConcatenation(text: string, order: seq<Link>, links: seq<Link>)
    requires Ascending(text, order) && multiset(links) == multiset(order)
    ensures SpliceEach(text, SortDescending(links)) == Spliced(text, order, Rendered(order))
  {
    hide SpliceEach, SplicedFrom, SortDescending;
    SortReverses(text, order, links);
    SplicingFromTheRight(text, order, |order|);
    assert Reversed(order)[..|order|] == Reversed(order);
    assert text[..0] == "";
  }

  /** The text with every link replaced by an element that says it. */
  ghost predicate ShowsLinks(result: string, text: string, order: seq<Link>) {
    exists html: seq<string> ::
      && |html| == |order| && (forall i | 0 <= i < |order| :: SaysLink(html[i], order[i]))
      && result == Spliced(text, order, html)
  }

  lemma RenderedShowsLinks(text: string, order: seq<Link>)
    ensures ShowsLinks(Spliced(text, order, Rendered(order)), text, order)
  {
    hide SaysLink, RenderHtmlElement, Spliced;
    forall i | 0 <= i < |order| ensures SaysLink(Rendered(order)[i], order[i]) {
      RenderedSaysLink(order[i]);
    }
  }

  /**
   * The loop splices from right to left into a text that keeps changing. Whenever the links do not overlap, in
   * whatever order they come, that is the one left-to-right concatenation of gaps and rendered links.
   */
  method ConvertLinksToHtml(text: string, links: seq<Link>) returns (result: string)
    ensures forall order | Ascending(text, order) && multiset(order) == multiset(links) ::
        result == Spliced(text, order, Rendered(order)) && ShowsLinks(result, text, order)
    ensures result == SpliceEach(text, SortDescending(links))
  {
    hide ShowsLinks, SortDescending, SpliceOne, Ascending, Spliced, RenderHtmlElement;
    if |links| == 0 {
      SortedNothing();
      result := text;
    } else {
      result := text;
      var sortedLinks := SortDescending(links);
      for i := 0 to |sortedLinks|
        invariant result == SpliceEach(text, sortedLinks[..i])
      {
        result := SpliceOne(result, sortedLinks[i]);
        assert sortedLinks[..i + 1][..i] == sortedLinks[..i];
      }
      assert sortedLinks[..|sortedLinks|] == sortedLinks;
    }
    forall order | Ascending(text, order) && multiset(order) == multiset(links)
      ensures result == Spliced(text, order, Rendered(order)) && ShowsLinks(result, text, order)
    {
      SpliceEqualsConcatenation(text, order, links);
      RenderedShowsLinks(text, order);
    }
  }

  /** Putting every link's own source text back gives the text back: gaps and spans tile it. */
  lemma {:induction false} LinksAndGapsTileText(text: string, links: seq<Link>, k: nat)
    requires Ascending(text, links) && k <= |links|
    ensures EndBefore(links, k) <= |text|
    ensures SplicedFrom(text, links, Sources(text, links), k) == text[EndBefore(links, k)..]
    decreases |links| - k
  {
    hide Sources, Ascending, Slice;
    Bounds(text, links, k);
    SliceInside(text, EndBefore(links, k), |text|);
    if k < |links| {
      LinksAndGapsTileText(text, links, k + 1);
      var from, start, end := EndBefore(links, k), links[k].startIndex, links[k].endIndex;
      SliceInside(text, from, start);
      SliceInside(text, start, end);
      ThreeSlices(text, from, start, end);
    }
  }

  lemma SliceInside(text: string, lo: nat, hi: nat)
    requires lo <= hi <= |text|
    ensures Slice(text, lo, hi) == text[lo..hi]
    ensures hi == |text| ==> text[lo..hi] == text[lo..]
  {
  }

  lemma Bounds(text: string, links: seq<Link>, k: nat)
    requires Ascending(text, links) && k <= |links|
    ensures EndBefore(links, k) <= |text|
    ensures k < |links|
      ==> EndBefore(links, k) <= links[k].startIndex < links[k].endIndex == EndBefore(links, k + 1) <= |text|
  {
    if k > 0 {
      assert EndBefore(links, k - 1) <= links[k - 1].startIndex;
    }
  }

  lemma ThreeSlices(text: string, a: nat, b: nat, c: nat)
    requires a <= b <= c <= |text|
    ensures text[a..] == text[a..b] + text[b..c] + text[c..]
  {
  }

  function Sources(text: string, links: seq<Link>): (r: seq<string>)
    ensures |r| == |links|
    ensures forall i | 0 <= i < |links| :: r[i] == Slice(text, links[i].startIndex, links[i].endIndex)
  {
    seq(|links|, i requires 0 <= i < |links| => Slice(text, links[i].startIndex, links[i].endIndex))
  }

  /** The two functions used together, as the mail templates do: parse, then render what was parsed. */
  method ParseAndRender(text: string, detectLinkType: string -> LinkType) returns (html: string, links: seq<Link>)
    ensures IsScanOf(text, links)
    ensures html == Spliced(text, links, Rendered(links)) && ShowsLinks(html, text, links)
  {
    hide IsScanOf, SpliceEach, SortDescending, Spliced, ShowsLinks;
    var cleanText;
    cleanText, links := ParseMarkdownLinks(text, detectLinkType);
    html := ConvertLinksToHtml(text, links);
    ScanInside(text, links);
  }

  /** Removing links is not idempotent: here the label of the only link completes a new link. */
  lemma CleaningCanMakeLinks()
    ensures var text := "[[a](b)](c)";
      var links := [Link("[a", "b", 0, 7, Url)];
      && IsScanOf(text, links)
      && Spliced(text, links, Labels(links)) == "[a](c)"
      && StartsMatch("[a](c)", 0)
  {
    var text := "[[a](b)](c)";
    var links := [Link("[a", "b", 0, 7, Url)];
    assert ReadsAs(text, 0, 7, "[a", "b");
    forall p: nat | 7 <= p
      ensures !StartsMatch(text, p)
    {
      if p < |text| {
        NoMatchAt(text, p);
      } else {
        NoMatchPastEnd(text, p);
      }
    }
    assert SplicedFrom(text, links, Labels(links), 1) == Slice(text, 7, |text|) == "](c)";
    assert Spliced(text, links, Labels(links)) == "" + "[a" + "](c)";
    assert ReadsAs("[a](c)", 0, 6, "a", "c");
  }
}
