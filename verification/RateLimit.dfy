/**
 * The per-second rate limit (rate-limit.service.ts): a counter in Redis per protocol and second, created by the first
 * request of the second and left to expire. Times are milliseconds.
 */
module RateLimit {
  type Protocol = string

  const WINDOW_MS: nat := 1000

  datatype Key = Key(protocol: Protocol, second: nat)
  datatype Counter = Counter(count: nat, expiresAt: nat)

  /** A key whose time is over is as good as absent; Redis may keep it in memory. */
  type Counters = map<Key, Counter>

  predicate Live(c: Counters, k: Key, now: nat) {
    k in c && now <= c[k].expiresAt
  }

  /** How the call to Redis goes: answered, never executed, or executed without the answer arriving. */
  datatype Link = Answered | NotExecuted | AnswerLost

  datatype Request = Request(protocol: Protocol, at: nat, burstLimit: nat, link: Link)

  datatype Decision = Allow(remaining: nat) | TooMany | Unavailable

  function KeyOf(r: Request): Key {
    Key(r.protocol, r.at / WINDOW_MS)
  }

  /** The script: INCR, and PEXPIRE when the counter was just created. */
  function Incremented(c: Counters, k: Key, now: nat): Counter {
    if Live(c, k, now) then c[k].(count := c[k].count + 1) else Counter(1, now + WINDOW_MS)
  }

  function Serve(c: Counters, r: Request): Counters {
    if r.link == NotExecuted then c else c[KeyOf(r) := Incremented(c, KeyOf(r), r.at)]
  }

  function Decide(c: Counters, r: Request): Decision {
    if r.link != Answered then Unavailable
    else
      var current := Incremented(c, KeyOf(r), r.at).count;
      if current > r.burstLimit then TooMany else Allow(r.burstLimit - current)
  }

  class RateLimitService {
    var redis: Counters

    /** A counter is created by the INCR that makes it one. */
    ghost predicate Valid()
      reads this
    {
      forall k | k in redis :: redis[k].count > 0
    }

    constructor ()
      ensures Valid() && redis == map[]
    {
      redis := map[];
    }

    method RateLimitLua(key: Key, windowMs: nat, now: nat) returns (current: nat, ttl: int)
      requires Valid() && windowMs == WINDOW_MS
      modifies this
      ensures Valid()
      ensures redis == old(redis)[key := Incremented(old(redis), key, now)]
      ensures current == redis[key].count && ttl == redis[key].expiresAt - now
    {
      if Live(redis, key, now) {
        redis := redis[key := redis[key].(count := redis[key].count + 1)];
      } else {
        redis := redis[key := Counter(1, 0)];
      }
      current := redis[key].count;
      if current == 1 {
        redis := redis[key := redis[key].(expiresAt := now + windowMs)];
      }
      ttl := redis[key].expiresAt - now;
    }

    method CheckPerSecondLimit(r: Request) returns (d: Decision)
      requires Valid()
      modifies this
      ensures Valid()
      ensures redis == Serve(old(redis), r)
      ensures d == Decide(old(redis), r)
    {
      var key := Key(r.protocol, r.at / WINDOW_MS);
      if r.link == NotExecuted {
        return Unavailable;
      }
      var current, ttlMs := RateLimitLua(key, WINDOW_MS, r.at);
      if r.link == AnswerLost {
        return Unavailable;
      }
      if current > r.burstLimit {
        return TooMany;
      }
      return Allow(if r.burstLimit - current > 0 then r.burstLimit - current else 0);
    }
  }

  // ------------------------------------------------------------------ histories

  ghost predicate InOrder(h: seq<Request>) {
    forall i, j | 0 <= i <= j < |h| :: h[i].at <= h[j].at
  }

  function After(h: seq<Request>): Counters {
    if h == [] then map[] else Serve(After(h[..|h| - 1]), h[|h| - 1])
  }

  /** The requests that reached Redis in the protocol's second, answered or not. */
  function Reached(h: seq<Request>, k: Key): nat {
    if h == [] then 0
    else Reached(h[..|h| - 1], k) + if KeyOf(h[|h| - 1]) == k && h[|h| - 1].link != NotExecuted then 1 else 0
  }

  predicate LastAllowed(h: seq<Request>)
    requires h != []
  {
    Decide(After(h[..|h| - 1]), h[|h| - 1]).Allow?
  }

  /** The counter of a second is the number of requests that reached Redis in it, and outlives the second. */
  ghost predicate CountsWindow(c: Counters, h: seq<Request>, k: Key) {
    && (k in c <==> Reached(h, k) > 0)
    && (k in c ==>
          && c[k].count == Reached(h, k)
          && (k.second + 1) * WINDOW_MS <= c[k].expiresAt < (k.second + 2) * WINDOW_MS)
  }

  lemma SecondBounds(at: nat)
    ensures (at / WINDOW_MS) * WINDOW_MS <= at < (at / WINDOW_MS + 1) * WINDOW_MS
  {
  }

  /** No window's counter expires inside its own window. */
  lemma {:induction false} CountersAreExact(h: seq<Request>, k: Key)
    ensures CountsWindow(After(h), h, k)
  {
    if h != [] {
      CountersAreExact(h[..|h| - 1], k);
      SecondBounds(h[|h| - 1].at);
    }
  }

  // ------------------------------------------------------------------ main results

  /**
   * The request is allowed if and only if Redis answers it and it is at most the limit-th request of its second to
   * reach Redis; the remaining allowance is exact. Whether the clock goes forward does not even matter here.
   */
  lemma AllowedIffWithinLimit(h: seq<Request>, r: Request)
    ensures var n := Reached(h, KeyOf(r)) + 1;
      Decide(After(h), r) == if r.link != Answered then Unavailable
                             else if n <= r.burstLimit then Allow(r.burstLimit - n)
                             else TooMany
  {
    CountersAreExact(h, KeyOf(r));
    SecondBounds(r.at);
  }

  /** The allowed requests of the protocol at times in [from, until). */
  function AllowedIn(h: seq<Request>, p: Protocol, from: nat, until: nat): nat {
    if h == [] then 0
    else
      var r := h[|h| - 1];
      AllowedIn(h[..|h| - 1], p, from, until)
      + if r.protocol == p && from <= r.at < until && LastAllowed(h) then 1 else 0
  }

  ghost predicate LimitedTo(h: seq<Request>, p: Protocol, limit: nat) {
    forall i | 0 <= i < |h| && h[i].protocol == p :: h[i].burstLimit <= limit
  }

  lemma {:induction false} AllowedInOneSecond(h: seq<Request>, p: Protocol, second: nat, limit: nat)
    requires LimitedTo(h, p, limit)
    ensures var n := AllowedIn(h, p, second * WINDOW_MS, (second + 1) * WINDOW_MS);
      n <= limit && n <= Reached(h, Key(p, second))
  {
    if h != [] {
      var init, r := h[..|h| - 1], h[|h| - 1];
      AllowedInOneSecond(init, p, second, limit);
      AllowedIffWithinLimit(init, r);
      SecondBounds(r.at);
      assert second * WINDOW_MS <= r.at < (second + 1) * WINDOW_MS <==> r.at / WINDOW_MS == second;
      hide After, Decide, InOrder;
    }
  }

  lemma {:induction false} AllowedIsMonotone(h: seq<Request>, p: Protocol, from: nat, middle: nat, until: nat,
      lo: nat, hi: nat)
    requires lo <= from <= middle <= until <= hi || lo <= from <= until <= hi
    requires lo <= middle <= hi
    ensures AllowedIn(h, p, from, until) <= AllowedIn(h, p, lo, middle) + AllowedIn(h, p, middle, hi)
  {
    if h != [] {
      AllowedIsMonotone(h[..|h| - 1], p, from, middle, until, lo, hi);
    }
  }

  /** With limits of at most L, at most 2L requests are allowed in any 1000 milliseconds. */
  lemma AtMostTwiceTheLimit(h: seq<Request>, p: Protocol, from: nat, limit: nat)
    requires LimitedTo(h, p, limit)
    ensures AllowedIn(h, p, from, from + 1000) <= 2 * limit
  {
    var s := from / WINDOW_MS;
    SecondBounds(from);
    AllowedInOneSecond(h, p, s, limit);
    AllowedInOneSecond(h, p, s + 1, limit);
    AllowedIsMonotone(h, p, from, (s + 1) * WINDOW_MS, from + WINDOW_MS, s * WINDOW_MS, (s + 2) * WINDOW_MS);
  }

  /** At any time no earlier than the last request, at most the counters of this second and the one before are live. */
  lemma AtMostTwoLiveKeys(h: seq<Request>, p: Protocol, second: nat, now: nat)
    requires InOrder(h) && (h != [] ==> h[|h| - 1].at <= now)
    requires Live(After(h), Key(p, second), now)
    ensures second == now / 1000 || second + 1 == now / 1000
  {
    CountersAreExact(h, Key(p, second));
    CountedInThePast(h, Key(p, second), now);
    SecondBounds(now);
  }

  lemma {:induction false} CountedInThePast(h: seq<Request>, k: Key, now: nat)
    requires InOrder(h) && (h != [] ==> h[|h| - 1].at <= now) && Reached(h, k) > 0
    ensures k.second <= now / WINDOW_MS
  {
    var init, r := h[..|h| - 1], h[|h| - 1];
    if KeyOf(r) == k {
      assert r.at / WINDOW_MS <= now / WINDOW_MS;
    } else {
      CountedInThePast(init, k, now);
    }
  }

  // ------------------------------------------------------------------ the bound is reached

  function Burst(h: seq<Request>, r: Request, n: nat): seq<Request> {
    if n == 0 then h else Burst(h, r, n - 1) + [r]
  }

  lemma {:induction false} BurstReaches(h: seq<Request>, r: Request, n: nat)
    requires r.link == Answered
    ensures Reached(Burst(h, r, n), KeyOf(r)) == Reached(h, KeyOf(r)) + n
  {
    if n > 0 {
      var all := Burst(h, r, n);
      assert all[..|all| - 1] == Burst(h, r, n - 1);
      BurstReaches(h, r, n - 1);
    }
  }

  lemma OneMoreAllowed(h: seq<Request>, r: Request, from: nat, until: nat)
    requires Decide(After(h), r).Allow? && from <= r.at < until
    ensures AllowedIn(h + [r], r.protocol, from, until) == AllowedIn(h, r.protocol, from, until) + 1
  {
    assert (h + [r])[..|h + [r]| - 1] == h;
  }

  lemma {:induction false} BurstIsAllowed(h: seq<Request>, r: Request, n: nat, from: nat, until: nat)
    requires r.link == Answered && from <= r.at < until
    requires Reached(h, KeyOf(r)) == 0 && n <= r.burstLimit
    ensures AllowedIn(Burst(h, r, n), r.protocol, from, until) == AllowedIn(h, r.protocol, from, until) + n
  {
    hide AllowedIn, After, Reached, KeyOf;
    if n > 0 {
      var init := Burst(h, r, n - 1);
      BurstIsAllowed(h, r, n - 1, from, until);
      BurstReaches(h, r, n - 1);
      AllowedIffWithinLimit(init, r);
      OneMoreAllowed(init, r, from, until);
    }
  }

  lemma {:induction false} BurstElsewhere(h: seq<Request>, r: Request, n: nat, k: Key)
    requires k != KeyOf(r)
    ensures Reached(Burst(h, r, n), k) == Reached(h, k)
  {
    if n > 0 {
      var all := Burst(h, r, n);
      assert all[..|all| - 1] == Burst(h, r, n - 1);
      BurstElsewhere(h, r, n - 1, k);
    }
  }

  lemma {:induction false} BurstElements(h: seq<Request>, r: Request, n: nat)
    ensures forall q: Request :: q in Burst(h, r, n) ==> q in h || q == r
  {
    if n > 0 {
      BurstElements(h, r, n - 1);
    }
  }

  /** Twice the limit does get through within two milliseconds, at the border of two seconds. */
  lemma TwiceTheLimitHappens(p: Protocol, limit: nat) returns (h: seq<Request>)
    ensures LimitedTo(h, p, limit)
    ensures AllowedIn(h, p, 999, 1001) == 2 * limit
  {
    var first, second := Request(p, 999, limit, Answered), Request(p, 1000, limit, Answered);
    hide AllowedIn, Reached, Burst, KeyOf;
    EmptyHistory(p);
    BurstIsAllowed([], first, limit, 999, 1001);
    BurstElements([], first, limit);
    var half := Burst([], first, limit);
    BurstElsewhere([], first, limit, Key(p, 1));
    BurstIsAllowed(half, second, limit, 999, 1001);
    BurstElements(half, second, limit);
    h := Burst(half, second, limit);
    ElementsAreLimited(h, p, limit, first, second);
  }

  lemma EmptyHistory(p: Protocol)
    ensures forall limit ::
      KeyOf(Request(p, 999, limit, Answered)) == Key(p, 0) && KeyOf(Request(p, 1000, limit, Answered)) == Key(p, 1)
    ensures AllowedIn([], p, 999, 1001) == 0 && Reached([], Key(p, 0)) == 0 && Reached([], Key(p, 1)) == 0
  {
  }

  lemma ElementsAreLimited(h: seq<Request>, p: Protocol, limit: nat, first: Request, second: Request)
    requires forall q: Request :: q in h ==> q == first || q == second
    requires first.burstLimit == second.burstLimit == limit
    ensures LimitedTo(h, p, limit)
  {
    assert forall i | 0 <= i < |h| :: h[i] in h;
  }
}
