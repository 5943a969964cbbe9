/**
 * The String.prototype operations the gateway leans on, as functions on sequences of characters. JavaScript counts and
 * cuts in UTF-16 code units, and a character stands for one of those: Dafny's char has no surrogates, but nothing here
 * depends on which characters there are.
 */
module JsStrings {

  datatype Option<+T> = None | Some(value: T)

  predicate OccursAt(s: string, p: string, i: nat) {
    i + |p| <= |s| && s[i..i + |p|] == p
  }

  ghost predicate Contains(s: string, p: string) {
    exists i: nat :: OccursAt(s, p, i)
  }

  /** indexOf: the first position where `p` occurs at or after `from`. */
  function IndexOf(s: string, p: string, from: nat): (r: Option<nat>)
    requires from <= |s|
    ensures r.Some? ==> from <= r.value && OccursAt(s, p, r.value)
    ensures r.Some? ==> forall j: nat | from <= j < r.value :: !OccursAt(s, p, j)
    ensures r.None? ==> forall j: nat | from <= j :: !OccursAt(s, p, j)
    decreases |s| - from
  {
    if OccursAt(s, p, from) then Some(from)
    else if from == |s| then None
    else IndexOf(s, p, from + 1)
  }

  /** s.split(sep) for a non-empty separator: cut at every leftmost non-overlapping occurrence. */
  function Split(s: string, sep: string): (parts: seq<string>)
    requires sep != ""
    ensures |parts| >= 1
    decreases |s|
  {
    var at := IndexOf(s, sep, 0);
    if at.None? then [s] else [s[..at.value]] + Split(s[at.value + |sep|..], sep)
  }

  /** The separator in front of part k. */
  function Before(sep: string, k: nat): string {
    if k == 0 then "" else sep
  }

  /** What is left of a split text once its first k parts (and the separators between them) are consumed. */
  function Rest(parts: seq<string>, sep: string, k: nat): string
    requires k <= |parts|
    decreases |parts| - k
  {
    if k == |parts| then ""
    else Before(sep, k) + parts[k] + Rest(parts, sep, k + 1)
  }

  lemma RestAtEnd(parts: seq<string>, sep: string)
    ensures Rest(parts, sep, |parts|) == ""
  {
  }

  lemma {:induction false} RestOfTail(head: string, parts: seq<string>, sep: string, k: nat)
    requires 1 <= k <= |parts|
    ensures Rest([head] + parts, sep, k + 1) == Rest(parts, sep, k)
    decreases |parts| - k
  {
    if k < |parts| {
      RestOfTail(head, parts, sep, k + 1);
      assert ([head] + parts)[k + 1] == parts[k];
    }
  }

  lemma SliceOfSlice(s: string, lo: nat, hi: nat, i: nat, j: nat)
    requires lo <= hi <= |s| && i <= j <= hi - lo
    ensures s[lo..hi][i..j] == s[lo + i..lo + j]
  {
    var a, b := s[lo..hi][i..j], s[lo + i..lo + j];
    assert forall k | 0 <= k < |a| :: a[k] == s[lo..hi][i + k] == s[lo + i + k] == b[k];
  }

  /** The text goes on with `s` at position `at`. */
  ghost predicate Follows(text: string, at: nat, s: string) {
    at + |s| <= |text| && text[at..at + |s|] == s
  }

  /** Reading one more part off a split text. */
  lemma NextPart(text: string, from: nat, to: nat, parts: seq<string>, sep: string, k: nat)
    requires from <= to <= |text| && k < |parts|
    requires text[from..to] == Rest(parts, sep, k)
    ensures from + |Before(sep, k)| + |parts[k]| <= to
    ensures Follows(text, from, Before(sep, k)) && Follows(text, from + |Before(sep, k)|, parts[k])
    ensures text[from + |Before(sep, k)| + |parts[k]|..to] == Rest(parts, sep, k + 1)
  {
    var a, b, c := Before(sep, k), parts[k], Rest(parts, sep, k + 1);
    assert text[from..to] == a + b + c;
    SliceOfSlice(text, from, to, 0, |a|);
    SliceOfSlice(text, from, to, |a|, |a| + |b|);
    SliceOfSlice(text, from, to, |a| + |b|, |a| + |b| + |c|);
    assert (a + b + c)[..|a|] == a && (a + b + c)[|a|..|a| + |b|] == b && (a + b + c)[|a| + |b|..|a| + |b| + |c|] == c;
  }

  lemma RestPrepended(head: string, parts: seq<string>, sep: string)
    requires |parts| >= 1
    ensures Rest([head] + parts, sep, 0) == head + sep + Rest(parts, sep, 0)
  {
    var all := [head] + parts;
    RestOfTail(head, parts, sep, 1);
    assert Rest(all, sep, 0) == "" + all[0] + Rest(all, sep, 1);
    assert Rest(all, sep, 1) == sep + all[1] + Rest(all, sep, 2);
    assert Rest(parts, sep, 0) == "" + parts[0] + Rest(parts, sep, 1);
    Regroup(head, sep, parts[0], Rest(parts, sep, 1));
  }

  lemma Regroup(a: string, b: string, c: string, d: string)
    ensures "" + a + (b + c + d) == a + b + ("" + c + d)
  {
    var l, r := "" + a + (b + c + d), a + b + ("" + c + d);
    assert |l| == |r|;
    assert forall i | 0 <= i < |l| :: l[i] == r[i];
  }

  lemma PartBeforeOccurrence(s: string, p: string, at: nat)
    requires p != "" && OccursAt(s, p, at)
    requires forall j: nat | j < at :: !OccursAt(s, p, j)
    ensures !Contains(s[..at], p)
  {
    forall i: nat
      ensures !OccursAt(s[..at], p, i)
    {
      if OccursAt(s[..at], p, i) {
        assert s[..at][i..i + |p|] == s[i..i + |p|];
        assert OccursAt(s, p, i);
      }
    }
  }

  lemma WholeText(s: string, sep: string)
    requires forall j: nat :: !OccursAt(s, sep, j)
    ensures !Contains(s, sep) && Rest([s], sep, 0) == s
  {
  }

  lemma OccurrenceCuts(s: string, p: string, at: nat)
    requires OccursAt(s, p, at)
    ensures at + |p| <= |s| && s == s[..at] + p + s[at + |p|..]
  {
  }

  /** Splitting and joining again gives the text back, and no part holds the separator. */
  lemma {:induction false} SplitIsExact(s: string, sep: string)
    requires sep != ""
    ensures Rest(Split(s, sep), sep, 0) == s
    ensures forall part | part in Split(s, sep) :: !Contains(part, sep)
    decreases |s|
  {
    hide Contains, OccursAt, Rest;
    var at := IndexOf(s, sep, 0);
    if at.None? {
      WholeText(s, sep);
    } else {
      OccurrenceCuts(s, sep, at.value);
      var head, tail := s[..at.value], s[at.value + |sep|..];
      SplitIsExact(tail, sep);
      PartBeforeOccurrence(s, sep, at.value);
      RestPrepended(head, Split(tail, sep), sep);
    }
  }

  /** What a string of digits says, read by position value. */
  function ValueOf(digits: string): int {
    if digits == "" then 0
    else 10 * ValueOf(digits[..|digits| - 1]) + (digits[|digits| - 1] as int - '0' as int)
  }

  predicate IsNumeral(digits: string, n: nat) {
    && digits != "" && (|digits| > 1 ==> digits[0] != '0')
    && (forall i | 0 <= i < |digits| :: '0' <= digits[i] <= '9')
    && ValueOf(digits) == n
  }

  /** Decimal rendering of a number, as a template literal does it: the numeral without leading zeros. */
  function Decimal(n: nat): (d: string)
    ensures |d| >= 1
    ensures n < 10 <==> |d| == 1
  {
    if n < 10 then [Digit(n)] else Decimal(n / 10) + [Digit(n % 10)]
  }

  lemma DigitIsItsValue(d: nat)
    requires d < 10
    ensures '0' <= Digit(d) <= '9' && Digit(d) as int - '0' as int == d
    ensures Digit(d) == '0' <==> d == 0
  {
  }

  lemma ValueOfSnoc(digits: string, c: char)
    ensures ValueOf(digits + [c]) == 10 * ValueOf(digits) + (c as int - '0' as int)
  {
    assert (digits + [c])[..|digits|] == digits;
  }

  lemma {:induction false} DecimalIsNumeral(n: nat)
    ensures IsNumeral(Decimal(n), n) && (n > 0 ==> Decimal(n)[0] != '0')
    decreases n
  {
    DigitIsItsValue(n % 10);
    hide Digit;
    if n < 10 {
      ValueOfSnoc("", Digit(n));
      assert "" + [Digit(n)] == [Digit(n)];
    } else {
      DecimalIsNumeral(n / 10);
      ValueOfSnoc(Decimal(n / 10), Digit(n % 10));
      hide ValueOf;
    }
  }

  function Digit(d: nat): char
    requires d < 10
  {
    "0123456789"[d]
  }
}
