/** escapeHtml and unescapeHtml (src/common/utils/link-parser.ts): each is five global replacements in a row. */
module HtmlEscape {
  import opened JsStrings

  /** text.replace(/pattern/g, replacement) for a literal pattern. */
  function ReplaceAll(s: string, pattern: string, replacement: string): string
    requires pattern != ""
    decreases |s|
  {
    if s == "" then ""
    else if pattern <= s then replacement + ReplaceAll(s[|pattern|..], pattern, replacement)
    else [s[0]] + ReplaceAll(s[1..], pattern, replacement)
  }

  function EscapeHtml(text: string): string {
    var t1 := ReplaceAll(text, "&", "&amp;");
    var t2 := ReplaceAll(t1, "<", "&lt;");
    var t3 := ReplaceAll(t2, ">", "&gt;");
    var t4 := ReplaceAll(t3, "\"", "&quot;");
    ReplaceAll(t4, "'", "&#039;")
  }

  function UnescapeHtml(text: string): string {
    var t1 := ReplaceAll(text, "&amp;", "&");
    var t2 := ReplaceAll(t1, "&lt;", "<");
    var t3 := ReplaceAll(t2, "&gt;", ">");
    var t4 := ReplaceAll(t3, "&quot;", "\"");
    ReplaceAll(t4, "&#039;", "'")
  }

  // ------------------------------------------------------------------ the simultaneous reading

  const SPECIAL: set<char> := {'&', '<', '>', '"', '\''}

  function Entity(c: char): (e: string)
    ensures c in SPECIAL ==> |e| >= 4 && e[0] == '&'
    ensures forall i | 1 <= i < |e| :: e[i] !in SPECIAL
  {
    if c == '&' then "&amp;"
    else if c == '<' then "&lt;"
    else if c == '>' then "&gt;"
    else if c == '"' then "&quot;"
    else if c == '\'' then "&#039;"
    else ""
  }

  /** Every character of `chars` becomes its entity, at once. */
  function EscapeOnly(chars: set<char>, text: string): string {
    if text == "" then ""
    else (if text[0] in chars then Entity(text[0]) else [text[0]]) + EscapeOnly(chars, text[1..])
  }

  lemma {:induction false} ReplaceCharDistributes(a: string, b: string, c: char, replacement: string)
    ensures ReplaceAll(a + b, [c], replacement) == ReplaceAll(a, [c], replacement) + ReplaceAll(b, [c], replacement)
  {
    if a == "" {
      assert a + b == b;
    } else {
      ReplaceCharDistributes(a[1..], b, c, replacement);
      assert (a + b)[1..] == a[1..] + b;
      assert [c] <= a <==> a[0] == c;
      assert [c] <= a + b <==> a[0] == c;
      var first, ra, rb :=
        if a[0] == c then replacement
        else [a[0]], ReplaceAll(a[1..], [c], replacement), ReplaceAll(b, [c], replacement);
      assert first + (ra + rb) == first + ra + rb;
    }
  }

  lemma {:induction false} ReplaceCharAbsent(s: string, c: char, replacement: string)
    requires c !in s
    ensures ReplaceAll(s, [c], replacement) == s
  {
    if s != "" {
      ReplaceCharAbsent(s[1..], c, replacement);
      assert s == [s[0]] + s[1..];
      assert [c] <= s <==> s[0] == c;
    }
  }

  lemma ReplaceOneChar(x: char, c: char, replacement: string)
    ensures ReplaceAll([x], [c], replacement) == if x == c then replacement else [x]
  {
    assert [x][1..] == "" && ReplaceAll("", [c], replacement) == "";
    assert [c][0] == c && [x][0] == x;
    assert replacement + "" == replacement && [x] + "" == [x];
  }

  /** One more pass escapes one more character: the entities already there do not contain it. */
  lemma {:induction false} PassAddsChar(chars: set<char>, text: string, c: char)
    requires chars <= SPECIAL && c in SPECIAL && c !in chars
    requires c == '&' ==> chars == {}
    ensures ReplaceAll(EscapeOnly(chars, text), [c], Entity(c)) == EscapeOnly(chars + {c}, text)
  {
    if text != "" {
      var x := text[0];
      var first := if x in chars then Entity(x) else [x];
      PassAddsChar(chars, text[1..], c);
      ReplaceCharDistributes(first, EscapeOnly(chars, text[1..]), c, Entity(c));
      if x in chars {
        ReplaceCharAbsent(first, c, Entity(c));
      } else {
        ReplaceOneChar(x, c, Entity(c));
      }
    }
  }

  lemma {:induction false} EscapeNothing(text: string)
    ensures EscapeOnly({}, text) == text
  {
    if text != "" {
      EscapeNothing(text[1..]);
    }
  }

  /** The five sequential passes of escapeHtml equal one simultaneous per-character map. */
  lemma EscapeIsSimultaneous(text: string)
    ensures EscapeHtml(text) == EscapeOnly(SPECIAL, text)
  {
    hide ReplaceAll, EscapeOnly;
    EscapeNothing(text);
    PassAddsChar({}, text, '&');
    PassAddsChar({'&'}, text, '<');
    PassAddsChar({'&', '<'}, text, '>');
    PassAddsChar({'&', '<', '>'}, text, '"');
    PassAddsChar({'&', '<', '>', '"'}, text, '\'');
    assert {} + {'&'} == {'&'};
    assert {'&'} + {'<'} == {'&', '<'};
    assert {'&', '<'} + {'>'} == {'&', '<', '>'};
    assert {'&', '<', '>'} + {'"'} == {'&', '<', '>', '"'};
    assert {'&', '<', '>', '"'} + {'\''} == SPECIAL;
  }

  /** Nothing special is left in the output except the ampersands that start entities. */
  lemma {:induction false} EscapedIsSafe(text: string)
    ensures forall c | c in EscapeHtml(text) :: c in SPECIAL ==> c == '&'
  {
    EscapeIsSimultaneous(text);
    EscapedOnlyHasAmpersands(text);
  }

  lemma {:induction false} EscapedOnlyHasAmpersands(text: string)
    ensures forall c | c in EscapeOnly(SPECIAL, text) :: c in SPECIAL ==> c == '&'
  {
    if text != "" {
      EscapedOnlyHasAmpersands(text[1..]);
      var first := if text[0] in SPECIAL then Entity(text[0]) else [text[0]];
      assert forall c | c in first :: c in SPECIAL ==> c == '&';
    }
  }

  lemma DistinctEntities(c: char, d: char)
    requires c in SPECIAL && d in SPECIAL
    ensures c == d <==> Entity(c)[1] == Entity(d)[1]
  {
  }

  /** Two texts with the same escaped form are the same text. */
  lemma {:induction false} EscapeIsInjective(a: string, b: string)
    requires EscapeHtml(a) == EscapeHtml(b)
    ensures a == b
  {
    EscapeIsSimultaneous(a);
    EscapeIsSimultaneous(b);
    EscapeOnlyIsInjective(a, b);
  }

  lemma {:induction false} EscapeOnlyIsInjective(a: string, b: string)
    requires EscapeOnly(SPECIAL, a) == EscapeOnly(SPECIAL, b)
    ensures a == b
  {
    if a != "" && b != "" {
      var ea, eb := EscapeOnly(SPECIAL, a[1..]), EscapeOnly(SPECIAL, b[1..]);
      FirstCharIsDetermined(a[0], b[0], ea, eb);
      EscapeOnlyIsInjective(a[1..], b[1..]);
      assert a == [a[0]] + a[1..] && b == [b[0]] + b[1..];
    }
  }

  function EscapeChar(c: char): (e: string)
    ensures e != ""
  {
    if c in SPECIAL then Entity(c) else [c]
  }

  lemma FirstCharIsDetermined(x: char, y: char, a: string, b: string)
    requires EscapeChar(x) + a == EscapeChar(y) + b
    ensures x == y && a == b
  {
    var fx, fy := EscapeChar(x), EscapeChar(y);
    assert fx[0] == (fx + a)[0] == (fy + b)[0] == fy[0];
    if x in SPECIAL && y in SPECIAL {
      assert fx[1] == (fx + a)[1] == (fy + b)[1] == fy[1];
      DistinctEntities(x, y);
    }
    assert (fx + a)[|fx|..] == a && (fy + b)[|fy|..] == b;
  }

  // ------------------------------------------------------------------ unescaping

  /** Text in which no match starts is passed over. */
  lemma {:induction false} PassOver(prefix: string, rest: string, pattern: string, replacement: string)
    requires pattern != ""
    requires forall i | 0 <= i < |prefix| :: !(pattern <= prefix[i..] + rest)
    ensures ReplaceAll(prefix + rest, pattern, replacement) == prefix + ReplaceAll(rest, pattern, replacement)
  {
    if prefix == "" {
      assert prefix + rest == rest;
    } else {
      assert prefix[0..] + rest == prefix + rest;
      forall i | 0 <= i < |prefix[1..]|
        ensures !(pattern <= prefix[1..][i..] + rest)
      {
        assert prefix[1..][i..] == prefix[i + 1..];
      }
      PassOver(prefix[1..], rest, pattern, replacement);
      assert (prefix + rest)[1..] == prefix[1..] + rest;
    }
  }

  /** A pass for one entity passes over the entity of another character. */
  lemma PassOverEntity(c: char, d: char, rest: string, replacement: string)
    requires c in SPECIAL && d in SPECIAL && c != d
    ensures ReplaceAll(Entity(d) + rest, Entity(c), replacement) == Entity(d) + ReplaceAll(rest, Entity(c), replacement)
  {
    var e := Entity(d);
    DistinctEntities(c, d);
    forall i | 0 <= i < |e|
      ensures !(Entity(c) <= e[i..] + rest)
    {
      assert (e[i..] + rest)[0] == e[i];
      if i == 0 {
        assert (e[i..] + rest)[1] == e[1];
      }
    }
    PassOver(e, rest, Entity(c), replacement);
  }

  lemma ReplaceMatch(c: char, rest: string, replacement: string)
    requires c in SPECIAL
    ensures ReplaceAll(Entity(c) + rest, Entity(c), replacement)
      == replacement + ReplaceAll(rest, Entity(c), replacement)
  {
    assert (Entity(c) + rest)[|Entity(c)|..] == rest;
  }

  lemma ReplaceMiss(x: char, rest: string, pattern: string, replacement: string)
    requires pattern != "" && !(pattern <= [x] + rest)
    ensures ReplaceAll([x] + rest, pattern, replacement) == [x] + ReplaceAll(rest, pattern, replacement)
  {
    assert ([x] + rest)[1..] == rest;
  }

  /** The first pass of unescapeHtml undoes the first pass of escapeHtml: every '&' now starts an entity. */
  lemma {:induction false} FirstPassUndone(text: string)
    ensures ReplaceAll(EscapeOnly(SPECIAL, text), "&amp;", "&") == EscapeOnly(SPECIAL - {'&'}, text)
  {
    if text != "" {
      var x, rest := text[0], EscapeOnly(SPECIAL, text[1..]);
      FirstPassUndone(text[1..]);
      if x == '&' {
        ReplaceMatch('&', rest, "&");
      } else if x in SPECIAL {
        PassOverEntity('&', x, rest, "&");
      } else {
        assert ([x] + rest)[0] == x;
        ReplaceMiss(x, rest, "&amp;", "&");
      }
    }
  }

  /** Plain characters at the front of an escaped text were at the front of the text. */
  lemma {:induction false} PlainPrefixSurvives(p: string, chars: set<char>, text: string)
    requires chars <= SPECIAL && forall i | 0 <= i < |p| :: p[i] !in SPECIAL
    requires p <= EscapeOnly(chars, text)
    ensures p <= text
  {
    if p != "" {
      var first := if text[0] in chars then Entity(text[0]) else [text[0]];
      var rest := EscapeOnly(chars, text[1..]);
      assert p[0] == (first + rest)[0] == first[0];
      assert first == [text[0]];
      assert p[1..] <= rest by {
        assert (first + rest)[1..] == rest;
      }
      PlainPrefixSurvives(p[1..], chars, text[1..]);
      assert p == [p[0]] + p[1..] && text == [text[0]] + text[1..];
    }
  }

  lemma {:induction false} PlainTextUnchanged(p: string, chars: set<char>, rest: string)
    requires forall i | 0 <= i < |p| :: p[i] !in chars
    ensures EscapeOnly(chars, p + rest) == p + EscapeOnly(chars, rest)
  {
    if p == "" {
      assert p + rest == rest;
    } else {
      PlainTextUnchanged(p[1..], chars, rest);
      assert (p + rest)[1..] == p[1..] + rest;
    }
  }

  /** Each later pass of unescapeHtml slides past the characters still escaped. */
  lemma {:induction false} PassCommutes(c: char, chars: set<char>, text: string)
    requires chars <= SPECIAL - {'&'} && c in chars
    ensures ReplaceAll(EscapeOnly(chars, text), Entity(c), [c])
      == EscapeOnly(chars - {c}, ReplaceAll(text, Entity(c), [c]))
    decreases |text|
  {
    var e := Entity(c);
    if text == "" {
    } else if e <= text {
      var rest := text[|e|..];
      assert text == e + rest;
      PassCommutes(c, chars, rest);
      PlainTextUnchanged(e, chars, rest);
      ReplaceMatch(c, EscapeOnly(chars, rest), [c]);
      UnfoldEscape(c, chars - {c}, ReplaceAll(rest, e, [c]));
    } else {
      var x, rest := text[0], text[1..];
      PassCommutes(c, chars, rest);
      UnfoldEscape(x, chars - {c}, ReplaceAll(rest, e, [c]));
      if x == c {
        ReplaceMatch(c, EscapeOnly(chars, rest), [c]);
      } else if x in chars {
        PassOverEntity(c, x, EscapeOnly(chars, rest), [c]);
      } else {
        EntityWasThere(c, chars, text);
        ReplaceMiss(x, EscapeOnly(chars, rest), e, [c]);
      }
    }
  }

  lemma UnfoldEscape(x: char, chars: set<char>, rest: string)
    ensures EscapeOnly(chars, [x] + rest) == (if x in chars then Entity(x) else [x]) + EscapeOnly(chars, rest)
  {
    assert ([x] + rest)[1..] == rest;
  }

  lemma EntityWasThere(c: char, chars: set<char>, text: string)
    requires chars <= SPECIAL - {'&'} && c in chars && text != "" && text[0] !in chars
    ensures Entity(c) <= [text[0]] + EscapeOnly(chars, text[1..]) ==> Entity(c) <= text
  {
    var e, escaped := Entity(c), EscapeOnly(chars, text[1..]);
    if e <= [text[0]] + escaped {
      assert e[0] == ([text[0]] + escaped)[0];
      assert e[1..] <= escaped by {
        assert ([text[0]] + escaped)[1..] == escaped;
      }
      PlainPrefixSurvives(e[1..], chars, text[1..]);
      assert e == [e[0]] + e[1..] && text == [text[0]] + text[1..];
    }
  }

  /** Unescaping an escaped text amounts to decoding the four entities that the text itself spelled out. */
  lemma UnescapeAfterEscape(text: string)
    ensures UnescapeHtml(EscapeHtml(text))
         == ReplaceAll(ReplaceAll(ReplaceAll(ReplaceAll(text, "&lt;", "<"), "&gt;", ">"), "&quot;", "\""),
           "&#039;", "'")
  {
    hide ReplaceAll, EscapeHtml, EscapeOnly;
    EscapeIsSimultaneous(text);
    FirstPassUndone(text);
    var s1, s2, s3, s4 := {'<', '>', '"', '\''}, {'>', '"', '\''}, {'"', '\''}, {'\''};
    assert SPECIAL - {'&'} == s1 && s1 - {'<'} == s2 && s2 - {'>'} == s3 && s3 - {'"'} == s4 && s4 - {'\''} == {};
    var d1 := ReplaceAll(text, "&lt;", "<");
    var d2 := ReplaceAll(d1, "&gt;", ">");
    var d3 := ReplaceAll(d2, "&quot;", "\"");
    PassCommutes('<', s1, text);
    PassCommutes('>', s2, d1);
    PassCommutes('"', s3, d2);
    PassCommutes('\'', s4, d3);
    EscapeNothing(ReplaceAll(d3, "&#039;", "'"));
  }

  /** A replacement shorter than its pattern shortens exactly the texts that contain the pattern. */
  lemma {:induction false} ShorteningReplace(text: string, pattern: string, replacement: string)
    requires |replacement| < |pattern|
    ensures Contains(text, pattern) ==> |ReplaceAll(text, pattern, replacement)| < |text|
    ensures !Contains(text, pattern) ==> ReplaceAll(text, pattern, replacement) == text
    decreases |text|
  {
    if text == "" {
      assert forall i: nat :: !OccursAt(text, pattern, i);
    } else if pattern <= text {
      assert OccursAt(text, pattern, 0);
      ShorteningReplace(text[|pattern|..], pattern, replacement);
    } else {
      ShorteningReplace(text[1..], pattern, replacement);
      ContainsInTail(text, pattern);
    }
  }

  lemma ContainsInTail(text: string, pattern: string)
    requires pattern != "" && text != "" && !(pattern <= text)
    ensures Contains(text, pattern) <==> Contains(text[1..], pattern)
  {
    forall i: nat
      ensures OccursAt(text[1..], pattern, i) <==> OccursAt(text, pattern, i + 1)
    {
      if i + 1 + |pattern| <= |text| {
        assert text[1..][i..i + |pattern|] == text[i + 1..i + 1 + |pattern|];
      }
    }
    if Contains(text, pattern) {
      var j: nat :| OccursAt(text, pattern, j);
      assert j > 0;
      assert OccursAt(text[1..], pattern, j - 1);
    }
  }

  /**
   * unescapeHtml(escapeHtml(t)) == t exactly when t spells out none of the four entities decoded after "&amp;":
   * the first pass turns "&amp;lt;" into "&lt;", which the second pass then decodes once more.
   */
  lemma RoundTripIff(text: string)
    ensures UnescapeHtml(EscapeHtml(text)) == text
      <==> !Contains(text, "&lt;") && !Contains(text, "&gt;") && !Contains(text, "&quot;") && !Contains(text, "&#039;")
  {
    hide ReplaceAll, EscapeHtml, UnescapeHtml, Contains;
    UnescapeAfterEscape(text);
    var d1 := ReplaceAll(text, "&lt;", "<");
    var d2 := ReplaceAll(d1, "&gt;", ">");
    var d3 := ReplaceAll(d2, "&quot;", "\"");
    ShorteningReplace(text, "&lt;", "<");
    ShorteningReplace(d1, "&gt;", ">");
    ShorteningReplace(d2, "&quot;", "\"");
    ShorteningReplace(d3, "&#039;", "'");
  }
}
