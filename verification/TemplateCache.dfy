/**
 * The two template caches (mjml-compiler.service.ts, template.service.ts): compiled templates are kept under a 32-bit
 * hash of their source, in one case bounded to the last 100.
 */
module TemplateCache {
  import opened JsStrings

  /** A UTF-16 code unit, as charCodeAt gives it. */
  type Code = c: nat | c < 0x1_0000

  type Source = seq<Code>

  const TWO_32: int := 0x1_0000_0000
  const TWO_31: int := 0x8000_0000

  /** The signed 32-bit integer a JavaScript bit operation makes of an integer. */
  function ToInt32(x: int): (r: int)
    ensures -TWO_31 <= r < TWO_31
  {
    (x + TWO_31) % TWO_32 - TWO_31
  }

  function Pow31(n: nat): nat {
    if n == 0 then 1 else 31 * Pow31(n - 1)
  }

  /** The sum of code[i] * 31^(n - 1 - i). */
  function Polynomial(s: Source): nat {
    if s == [] then 0 else s[0] * Pow31(|s| - 1) + Polynomial(s[1..])
  }

  /** The hash both services are meant to compute. */
  function Hash(s: Source): int {
    ToInt32(Polynomial(s))
  }

  function Abs(x: int): nat {
    if x < 0 then -x else x
  }

  // ------------------------------------------------------------------ the arithmetic

  lemma {:induction false} AppendToPolynomial(s: Source, c: Code)
    ensures Polynomial(s + [c]) == 31 * Polynomial(s) + c
  {
    if s == [] {
      assert s + [c] == [c];
      assert Polynomial([c]) == c * Pow31(0) + Polynomial([]);
    } else {
      assert (s + [c])[1..] == s[1..] + [c];
      AppendToPolynomial(s[1..], c);
      Distribute(s[0], Pow31(|s| - 1), Polynomial(s[1..]));
    }
  }

  lemma Distribute(a: int, p: int, q: int)
    ensures a * (31 * p) + 31 * q == 31 * (a * p + q)
  {
  }

  lemma Mod32(x: int, k: int)
    ensures (x + k * TWO_32) % TWO_32 == x % TWO_32
  {
    var q, r := x / TWO_32, x % TWO_32;
    assert x + k * TWO_32 == (q + k) * TWO_32 + r;
  }

  /** ToInt32 changes an integer by a multiple of 2^32, and does not see such a change. */
  lemma ToInt32IsCongruent(x: int, k: int)
    ensures ToInt32(x + k * TWO_32) == ToInt32(x)
  {
    Mod32(x + TWO_31, k);
    assert x + k * TWO_32 + TWO_31 == x + TWO_31 + k * TWO_32;
  }

  lemma Wraps(x: int) returns (k: int)
    ensures ToInt32(x) == x + k * TWO_32
  {
    k := -((x + TWO_31) / TWO_32);
  }

  /** The step of mjml-compiler.service.ts: (h << 5) - h + c, truncated. */
  lemma ShiftStep(h: int, p: int, c: int)
    requires h == ToInt32(p)
    ensures ToInt32(ToInt32(h * 32) - h + c) == ToInt32(31 * p + c)
  {
    var k := Wraps(p);
    var l := Wraps(h * 32);
    assert ToInt32(h * 32) - h + c == 31 * p + c + (31 * k + l) * TWO_32;
    ToInt32IsCongruent(31 * p + c, 31 * k + l);
  }

  /** The step of template.service.ts: Math.imul(31, h) + c, truncated. */
  lemma MultiplyStep(h: int, p: int, c: int)
    requires h == ToInt32(p)
    ensures ToInt32(ToInt32(31 * h) + c) == ToInt32(31 * p + c)
  {
    var k := Wraps(p);
    var l := Wraps(31 * h);
    assert ToInt32(31 * h) + c == 31 * p + c + (31 * k + l) * TWO_32;
    ToInt32IsCongruent(31 * p + c, 31 * k + l);
  }

  /** hashSource, before the number is written in base 36. */
  method HashSource(source: Source) returns (key: nat)
    ensures key == Abs(Hash(source))
    ensures key == Hash(source) || key == -Hash(source)
  {
    hide Polynomial, ToInt32;
    var hash := 0;
    assert ToInt32(Polynomial([])) == 0 by { EmptyHash(); }
    for i := 0 to |source|
      invariant hash == ToInt32(Polynomial(source[..i]))
    {
      var code := source[i];
      AppendToPolynomial(source[..i], code);
      assert source[..i] + [code] == source[..i + 1];
      ShiftStep(hash, Polynomial(source[..i]), code);
      hash := ToInt32(hash * 32) - hash + code;
      hash := ToInt32(hash);
    }
    assert source[..|source|] == source;
    key := Abs(hash);
  }

  lemma EmptyHash()
    ensures ToInt32(Polynomial([])) == 0
  {
  }

  /** sha, before the number is written in base 36. */
  method Sha(str: Source) returns (h: int)
    ensures h == Hash(str)
  {
    hide Polynomial, ToInt32;
    h := 0;
    assert ToInt32(Polynomial([])) == 0 by { EmptyHash(); }
    for i := 0 to |str|
      invariant h == ToInt32(Polynomial(str[..i]))
    {
      AppendToPolynomial(str[..i], str[i]);
      assert str[..i] + [str[i]] == str[..i + 1];
      MultiplyStep(h, Polynomial(str[..i]), str[i]);
      h := ToInt32(ToInt32(31 * h) + str[i]);
    }
    assert str[..|str|] == str;
  }

  /** Any change of two neighbouring code units by +1 and -31 is invisible to both keys. */
  lemma {:induction false} NeighboursCollide(before: Source, a: Code, b: Code, after: Source)
    requires a + 1 < 0x1_0000 && b >= 31
    ensures Hash(before + [a, b] + after) == Hash(before + [a + 1, b - 31] + after)
  {
    SamePolynomial(before, a, b, after);
  }

  lemma {:induction false} SamePolynomial(before: Source, a: Code, b: Code, after: Source)
    requires a + 1 < 0x1_0000 && b >= 31
    ensures Polynomial(before + [a, b] + after) == Polynomial(before + [a + 1, b - 31] + after)
    decreases |after|
  {
    var s, t := before + [a, b], before + [a + 1, b - 31];
    if after == [] {
      assert s == (before + [a]) + [b] && t == (before + [a + 1]) + [b - 31];
      AppendToPolynomial(before, a);
      AppendToPolynomial(before + [a], b);
      AppendToPolynomial(before, a + 1);
      AppendToPolynomial(before + [a + 1], b - 31);
      assert s + after == s && t + after == t;
    } else {
      var init, c := after[..|after| - 1], after[|after| - 1];
      SamePolynomial(before, a, b, init);
      AppendToPolynomial(s + init, c);
      AppendToPolynomial(t + init, c);
      assert s + init + [c] == s + after && t + init + [c] == t + after;
    }
  }

  // ------------------------------------------------------------------ the bounded cache

  const MAX_CACHE_SIZE: nat := 100

  /** What Handlebars makes of a source. */
  datatype Delegate = Compiled(source: Source)

  datatype Template = Template(source: Source, compiled: Delegate, isMjml: bool)

  /** A compilation from scratch; what counts as MJML is a parameter. */
  function Fresh(source: Source, isMjml: Source -> bool): Template {
    Template(source, Compiled(source), isMjml(source))
  }

  function KeyOf(source: Source): nat {
    Abs(Hash(source))
  }

  /** The MJML key tells the sources apart. */
  ghost predicate KeysDiffer(sources: set<Source>) {
    forall s, t | s in sources && t in sources && KeyOf(s) == KeyOf(t) :: s == t
  }

  ghost predicate HashesDiffer(sources: set<Source>) {
    forall s, t | s in sources && t in sources && Hash(s) == Hash(t) :: s == t
  }

  datatype Entry = Entry(key: nat, template: Template)

  function IndexOfKey(entries: seq<Entry>, key: nat): (r: Option<nat>)
    ensures r.Some? ==> r.value < |entries| && entries[r.value].key == key
    ensures r.None? ==> forall i | 0 <= i < |entries| :: entries[i].key != key
  {
    if entries == [] then None
    else if entries[|entries| - 1].key == key then Some(|entries| - 1)
    else IndexOfKey(entries[..|entries| - 1], key)
  }

  function LastOf(entries: seq<Entry>, n: nat): (r: seq<Entry>)
    ensures |r| <= n
  {
    if |entries| <= n then entries else entries[|entries| - n..]
  }

  /** Every entry was compiled from a source that was asked for and has its key; no key occurs twice. */
  ghost predicate Sound(cache: seq<Entry>, seen: set<Source>, isMjml: Source -> bool) {
    && (forall i, j | 0 <= i < j < |cache| :: cache[i].key != cache[j].key)
    && forall i | 0 <= i < |cache| ::
         && cache[i].template.source in seen
         && cache[i].key == KeyOf(cache[i].template.source)
         && cache[i].template == Fresh(cache[i].template.source, isMjml)
  }

  lemma InsertKeepsSound(cache: seq<Entry>, seen: set<Source>, isMjml: Source -> bool, source: Source)
    requires Sound(cache, seen, isMjml) && source in seen
    requires forall i | 0 <= i < |cache| :: cache[i].key != KeyOf(source)
    ensures var e := Entry(KeyOf(source), Fresh(source, isMjml));
      && Sound(cache + [e], seen, isMjml)
      && (cache != [] ==> Sound(cache[1..] + [e], seen, isMjml))
  {
    hide KeyOf;
  }

  /** A Map lists its entries in the order of insertion. */
  class MjmlCompiler {
    const isMjml: Source -> bool
    const compiles: Source -> bool
    var cache: seq<Entry>
    ghost var inserted: seq<Entry>
    ghost var seen: set<Source>

    ghost predicate Valid()
      reads this
    {
      cache == LastOf(inserted, 100) && Sound(cache, seen, isMjml)
    }

    constructor (isMjml: Source -> bool, compiles: Source -> bool)
      ensures Valid() && cache == [] && seen == {} && this.isMjml == isMjml && this.compiles == compiles
    {
      this.isMjml, this.compiles := isMjml, compiles;
      cache, inserted, seen := [], [], {};
    }

    /**
     * The cached template of the key, or a fresh one that is then the newest of at most 100; the oldest insertion goes
     * first, however often it was asked for. The answer is the template of this very source if the key tells the
     * sources seen so far apart, and in any case unless a different source is cached under the key.
     */
    method GetCompiledTemplate(source: Source) returns (r: Option<Template>)
      requires Valid()
      modifies this
      ensures Valid() && |cache| <= 100 && seen == old(seen) + {source}
      ensures r.None? <==> IndexOfKey(old(cache), KeyOf(source)).None? && !compiles(source)
      ensures r.Some? ==> KeyOf(r.value.source) == KeyOf(source) && r.value == Fresh(r.value.source, isMjml)
      ensures r.Some? && KeysDiffer(seen) ==> r.value == Fresh(source, isMjml)
      ensures r.Some? ==> (r.value.source != source <==>
                exists i | 0 <= i < |old(cache)| ::
                  old(cache)[i].key == KeyOf(source) && old(cache)[i].template.source != source)
      ensures inserted
        == old(inserted)
        + if IndexOfKey(old(cache), KeyOf(source)).None? && r.Some? then [Entry(KeyOf(source), r.value)] else []
    {
      hide Hash, LastOf;
      var cacheKey := HashSource(source);
      seen := seen + {source};
      var hit := IndexOfKey(cache, cacheKey);
      if hit.Some? {
        return Some(cache[hit.value].template);
      }
      if !compiles(source) {
        return None;
      }
      var template := Template(source, Compiled(source), isMjml(source));
      InsertKeepsSound(cache, seen, isMjml, source);
      NextWindow(inserted, Entry(cacheKey, template), MAX_CACHE_SIZE);
      if |cache| >= MAX_CACHE_SIZE {
        cache := cache[1..];
      }
      cache := cache + [Entry(cacheKey, template)];
      inserted := inserted + [Entry(cacheKey, template)];
      r := Some(template);
    }
  }

  lemma NextWindow(entries: seq<Entry>, e: Entry, n: nat)
    requires n > 0
    ensures var window := LastOf(entries, n);
      LastOf(entries + [e], n) == (if |window| >= n then window[1..] else window) + [e]
  {
  }

  // ------------------------------------------------------------------ the unbounded cache

  class TemplateService {
    var templateCache: map<int, Delegate>
    ghost var seen: set<Source>
    ghost var allOwn: bool

    /** A key is cached exactly if a source with it was asked for; every answer was the source's own so far, or not. */
    ghost predicate Valid()
      reads this
    {
      && (forall k | k in templateCache :: templateCache[k].source in seen && Hash(templateCache[k].source) == k)
      && (forall s | s in seen :: Hash(s) in templateCache)
      && (allOwn <==> HashesDiffer(seen))
    }

    constructor ()
      ensures Valid() && seen == {} && templateCache == map[] && allOwn
    {
      templateCache, seen, allOwn := map[], {}, true;
    }

    /**
     * The delegate first compiled under the source's key: a wrong one if and only if a different source is cached
     * under the key. Over the whole history, every answer was the source's own if and only if the key tells the
     * sources apart.
     */
    method GetCompiledTemplate(source: Source) returns (compiled: Delegate)
      requires Valid()
      modifies this
      ensures Valid() && seen == old(seen) + {source}
      ensures compiled != Compiled(source) <==>
        Hash(source) in old(templateCache) && old(templateCache)[Hash(source)] != Compiled(source)
      ensures templateCache == old(templateCache)[Hash(source) := compiled]
      ensures Hash(source) in old(templateCache) ==> compiled == old(templateCache)[Hash(source)]
      ensures Hash(compiled.source) == Hash(source)
      ensures allOwn <==> old(allOwn) && compiled == Compiled(source)
      ensures allOwn <==> HashesDiffer(seen)
    {
      hide Hash;
      var key := Sha(source);
      seen := seen + {source};
      if key !in templateCache {
        templateCache := templateCache[key := Compiled(source)];
      }
      compiled := templateCache[key];
      allOwn := allOwn && compiled == Compiled(source);
    }
  }

  /** The keys do not tell all sources apart: one of two neighbouring variants is served for the other. */
  lemma KeysAreNotInjective(before: Source, after: Source)
    ensures var s, t: Source := before + [0x41, 0x61] + after, before + [0x42, 0x42] + after;
      s != t && KeyOf(s) == KeyOf(t) && Hash(s) == Hash(t)
  {
    NeighboursCollide(before, 0x41, 0x61, after);
    var s, t: Source := before + [0x41, 0x61] + after, before + [0x42, 0x42] + after;
    assert s[|before|] != t[|before|];
    hide Hash;
  }
}
