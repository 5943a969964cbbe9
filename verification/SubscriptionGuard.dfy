/**
 * The subscription guard (subscription.guard.ts) and the writes it reads through a cache (subscription.repository.ts,
 * subscription.service.ts, overage-metering.service.ts): how old the subscription is that a request is judged by.
 * One protocol; times in milliseconds.
 */
module SubscriptionGuard {
  import opened JsStrings

  const CACHE_TTL_MS: nat := 30_000

  datatype Subscription = Subscription(active: bool, currentPeriodEnd: Option<nat>, sendsThisPeriod: nat)

  datatype Verdict = Allowed | SubscriptionInactive | SubscriptionExpired | QuotaExceeded

  function SendLimit(tier: nat): nat {
    match tier
    case 1 => 10_000
    case 2 => 100_000
    case 3 => 1_000_000
    case _ => 1_000
  }

  function Judge(tier: nat, s: Option<Subscription>, now: nat): Verdict {
    match s
    case None => SubscriptionInactive
    case Some(sub) =>
      if !sub.active then SubscriptionInactive
      else if sub.currentPeriodEnd.Some? && sub.currentPeriodEnd.value < now then SubscriptionExpired
      else if sub.sendsThisPeriod >= SendLimit(tier) then QuotaExceeded
      else Allowed
  }

  /**
   * A paid tier is let through exactly for an active subscription whose period is not over and whose quota is not
   * used up.
   */
  lemma AllowedIff(tier: nat, s: Option<Subscription>, now: nat)
    ensures Judge(tier, s, now) == Allowed <==>
      s.Some? && s.value.active && (s.value.currentPeriodEnd.Some? ==> now <= s.value.currentPeriodEnd.value)
      && s.value.sendsThisPeriod < SendLimit(tier)
    ensures Judge(tier, s, now) == QuotaExceeded
      ==> s.Some? && s.value.active && s.value.sendsThisPeriod >= SendLimit(tier)
    ensures Judge(tier, s, now) == SubscriptionExpired <==>
      s.Some? && s.value.active && s.value.currentPeriodEnd.Some? && s.value.currentPeriodEnd.value < now
    ensures Judge(tier, s, now) == SubscriptionInactive <==> s.None? || !s.value.active
  {
  }

  /** A thousand sends without a tier that is known, and ten times as many with each of the three paid tiers. */
  lemma TiersGrowTenfold(tier: nat)
    ensures SendLimit(0) == 1_000 && (tier < 3 ==> SendLimit(tier + 1) == 10 * SendLimit(tier))
    ensures tier > 3 ==> SendLimit(tier) == SendLimit(0)
  {
  }

  datatype Entry = Entry(value: Subscription, expiresAt: nat)

  predicate Live(cache: Option<Entry>, now: nat) {
    cache.Some? && now <= cache.value.expiresAt
  }

  // ------------------------------------------------------------------ one request or write at a time

  /** `upsert` creates a missing row, the other repository writes throw; a direct write leaves the key alone. */
  datatype Call =
    | Request(tier: nat, now: nat, getWorks: bool, setWorks: bool)
    | Write(value: Subscription, upsert: bool)
    | Direct(value: Subscription)

  predicate Writes(row: Option<Subscription>, c: Call) {
    match c
    case Request(_, _, _, _) => false
    case Write(_, upsert) => upsert || row.Some?
    case Direct(_) => true
  }

  /** The row after the calls: the last value written, if any. */
  function RowAfter(row: Option<Subscription>, calls: seq<Call>): Option<Subscription> {
    if calls == [] then row
    else
      var before := RowAfter(row, calls[..|calls| - 1]);
      if Writes(before, calls[|calls| - 1]) then Some(calls[|calls| - 1].value) else before
  }

  /** The last write was direct: no repository write has deleted the key since. */
  predicate DirectLast(row: Option<Subscription>, calls: seq<Call>) {
    if calls == [] then false
    else
      var init, last := calls[..|calls| - 1], calls[|calls| - 1];
      if Writes(RowAfter(row, init), last) then last.Direct? else DirectLast(row, init)
  }

  /** The database row and the Redis key of the protocol; `redisWorks` says whether a call to Redis succeeds. */
  class Billing {
    var database: Option<Subscription>
    var cache: Option<Entry>

    constructor (row: Option<Subscription>)
      ensures database == row && cache == None
    {
      database, cache := row, None;
    }

    /** Whatever a live cache entry says is what the database says. */
    ghost predicate Coherent()
      reads this
    {
      cache.Some? ==> database == Some(cache.value.value)
    }

    method CanActivate(tier: nat, now: nat, getWorks: bool, setWorks: bool) returns (verdict: Verdict)
      modifies this`cache
      ensures verdict == if tier == 0 then Allowed
                         else if getWorks && Live(old(cache), now) then Judge(tier, Some(old(cache).value.value), now)
                         else Judge(tier, database, now)
      ensures cache ==
        if tier == 0 || (getWorks && Live(old(cache), now)) || database.None? || !setWorks then old(cache)
        else Some(Entry(database.value, now + 30_000))
      ensures old(Coherent()) ==> Coherent() && (tier != 0 ==> verdict == Judge(tier, database, now))
    {
      if tier == 0 {
        return Allowed;
      }
      var subscription: Option<Subscription> := None;
      if getWorks && Live(cache, now) {
        subscription := Some(cache.value.value);
      }
      if subscription == None {
        subscription := database;
        if subscription.Some? && setWorks {
          cache := Some(Entry(subscription.value, now + CACHE_TTL_MS));
        }
      }
      if subscription == None || !subscription.value.active {
        return SubscriptionInactive;
      }
      if subscription.value.currentPeriodEnd.Some? && subscription.value.currentPeriodEnd.value < now {
        return SubscriptionExpired;
      }
      if subscription.value.sendsThisPeriod >= SendLimit(tier) {
        return QuotaExceeded;
      }
      return Allowed;
    }

    /** update and resetSends, which throw without a row, and upsert: the row, then the key. */
    method RepositoryWrite(value: Subscription, upsert: bool, delWorks: bool) returns (threw: bool)
      modifies this
      ensures threw <==> !upsert && old(database).None?
      ensures database == if threw then None else Some(value)
      ensures cache == if threw || !delWorks then old(cache) else None
    {
      threw := !upsert && database.None?;
      if threw {
        return;
      }
      database := Some(value);
      if delWorks {
        cache := None;
      }
    }

    /** The activation transaction and the metering increment write the row and leave the key alone. */
    method DirectWrite(value: Subscription)
      modifies this`database
      ensures database == Some(value)
    {
      database := Some(value);
    }

    /**
     * Any number of calls one after the other, with Redis up for the deletions: unless the last write was a direct
     * one, a request is judged by the row as it is then, exactly as if there were no cache.
     */
    method ServeAll(calls: seq<Call>) returns (verdicts: seq<Verdict>)
      requires Coherent()
      modifies this
      ensures database == RowAfter(old(database), calls) && (!DirectLast(old(database), calls) ==> Coherent())
      ensures |verdicts| == |calls|
      ensures forall i | 0 <= i < |calls| && calls[i].Request? && !DirectLast(old(database), calls[..i]) ::
                verdicts[i] ==
                  if calls[i].tier == 0 then Allowed
                  else Judge(calls[i].tier, RowAfter(old(database), calls[..i]), calls[i].now)
    {
      hide Judge;
      verdicts := [];
      for i := 0 to |calls|
        invariant |verdicts| == i && database == RowAfter(old(database), calls[..i])
        invariant !DirectLast(old(database), calls[..i]) ==> Coherent()
        invariant forall j | 0 <= j < i && calls[j].Request? && !DirectLast(old(database), calls[..j]) ::
                    verdicts[j] ==
                      if calls[j].tier == 0 then Allowed
                      else Judge(calls[j].tier, RowAfter(old(database), calls[..j]), calls[j].now)
      {
        assert calls[..i + 1][..i] == calls[..i];
        var verdict := Allowed;
        match calls[i] {
          case Request(tier, now, getWorks, setWorks) =>
            verdict := CanActivate(tier, now, getWorks, setWorks);
          case Write(value, upsert) =>
            var threw := RepositoryWrite(value, upsert, true);
          case Direct(value) =>
            DirectWrite(value);
        }
        verdicts := verdicts + [verdict];
      }
      assert calls[..|calls|] == calls;
    }
  }

  // ------------------------------------------------------------------ every call in flight at once

  /** A row that a request has read and is about to put into the cache. */
  datatype Read = Read(value: Subscription, at: nat)

  type RequestId = nat

  /**
   * Each request reads the cache, on a miss reads the row, and fills the cache later without waiting; each repository
   * write changes the row and deletes the key later without waiting. All of these interleave.
   */
  datatype Event =
    | RowRead(request: RequestId)
    | Filled(request: RequestId)
    | KeyDeleted
    | RowWritten(value: Option<Subscription>)

  datatype Timed = Timed(event: Event, at: nat)

  datatype World = World(row: Option<Subscription>, cache: Option<Entry>, inFlight: map<RequestId, Read>)

  /** Each request reads the row once before its fill, which comes at most `latency` after the read. */
  predicate Enabled(w: World, e: Timed, latency: nat) {
    match e.event
    case RowRead(request) => request !in w.inFlight
    case Filled(request) => request in w.inFlight && e.at <= w.inFlight[request].at + latency
    case _ => true
  }

  function Next(w: World, e: Timed): World {
    match e.event
    case RowRead(request) => if w.row.Some? then w.(inFlight := w.inFlight[request := Read(w.row.value, e.at)]) else w
    case Filled(request) =>
      if request !in w.inFlight then w
      else w.(cache := Some(Entry(w.inFlight[request].value, e.at + CACHE_TTL_MS)), inFlight := w.inFlight - {request})
    case KeyDeleted => w.(cache := None)
    case RowWritten(value) => w.(row := value)
  }

  /** worlds[i] is the state before events[i]; nothing is cached or in flight at the start. */
  ghost predicate IsRun(worlds: seq<World>, events: seq<Timed>, latency: nat) {
    && |worlds| == |events| + 1
    && worlds[0].cache == None && worlds[0].inFlight == map[]
    && (forall i, j | 0 <= i <= j < |events| :: events[i].at <= events[j].at)
    && (forall i | 0 <= i < |events| ::
      Enabled(worlds[i], events[i], latency) && worlds[i + 1] == Next(worlds[i], events[i]))
  }

  /** The row was `value` at the time of an event before the n-th, no earlier than `from`. */
  ghost predicate WasRow(worlds: seq<World>, events: seq<Timed>, n: nat, value: Subscription, from: int)
    requires n <= |events| < |worlds|
  {
    exists i | 0 <= i < n :: worlds[i].row == Some(value) && events[i].at >= from
  }

  ghost predicate Remembers(worlds: seq<World>, events: seq<Timed>, n: nat, latency: nat)
    requires n <= |events| < |worlds|
  {
    && (forall q | q in worlds[n].inFlight ::
      WasRow(worlds, events, n, worlds[n].inFlight[q].value, worlds[n].inFlight[q].at))
    && (worlds[n].cache.Some? ==>
          var c := worlds[n].cache.value;
          WasRow(worlds, events, n, c.value, c.expiresAt - 30_000 - latency))
  }

  /** Whatever is in the cache or on its way there was read from the row, at most `latency` before it was put there. */
  lemma {:induction false} EntriesWereRows(worlds: seq<World>, events: seq<Timed>, n: nat, latency: nat)
    requires IsRun(worlds, events, latency) && n <= |events|
    ensures Remembers(worlds, events, n, latency)
  {
    if n > 0 {
      EntriesWereRows(worlds, events, n - 1, latency);
      assert worlds[n] == Next(worlds[n - 1], events[n - 1]) && Enabled(worlds[n - 1], events[n - 1], latency);
      forall q | q in worlds[n].inFlight
        ensures WasRow(worlds, events, n, worlds[n].inFlight[q].value, worlds[n].inFlight[q].at) {
        assert events[n - 1].event == RowRead(q) || worlds[n].inFlight[q] == worlds[n - 1].inFlight[q];
      }
    }
  }

  /** The value a request at time `now` decides on: the cache entry if it is live, the row otherwise. */
  function Seen(w: World, now: nat): Option<Subscription> {
    if Live(w.cache, now) then Some(w.cache.value.value) else w.row
  }

  /**
   * Every value a request decides on at time T is what the row is, or was at some moment since T - 30 s - latency,
   * where latency bounds the time from reading the row to filling the cache.
   */
  lemma DecisionsAreRecent(worlds: seq<World>, events: seq<Timed>, n: nat, latency: nat, now: nat)
    requires IsRun(worlds, events, latency) && n <= |events|
    ensures var seen := Seen(worlds[n], now);
      seen == worlds[n].row || (seen.Some? && WasRow(worlds, events, n, seen.value, now - 30_000 - latency))
  {
    EntriesWereRows(worlds, events, n, latency);
    if Live(worlds[n].cache, now) {
      var c := worlds[n].cache.value;
      EarlierIsEnough(worlds, events, n, c.value, c.expiresAt - 30_000 - latency, now - 30_000 - latency);
    }
  }

  lemma EarlierIsEnough(worlds: seq<World>, events: seq<Timed>, n: nat, value: Subscription, from: int, from': int)
    requires n <= |events| < |worlds| && from' <= from
    requires WasRow(worlds, events, n, value, from)
    ensures WasRow(worlds, events, n, value, from')
  {
  }

  /**
   * What has been true of the row since T - 30 s - latency is true of the value every request at T is judged by: a
   * cancelled subscription is refused by then, and a paid one, whose activation deletes no key, is let in.
   */
  lemma OldNewsIsKnown(worlds: seq<World>, events: seq<Timed>, n: nat, latency: nat, now: nat,
      p: Option<Subscription> -> bool)
    requires IsRun(worlds, events, latency) && n <= |events|
    requires p(worlds[n].row)
    requires forall i | 0 <= i < n && events[i].at >= now - 30_000 - latency :: p(worlds[i].row)
    ensures p(Seen(worlds[n], now))
  {
    DecisionsAreRecent(worlds, events, n, latency, now);
  }

  /**
   * The latency is real: even with repository writes only, a fill that overtakes the deletion of the key serves the
   * replaced value until 30 s after the fill.
   */
  lemma LateFillOutlivesTheDelete(stale: Subscription, current: Subscription)
      returns (worlds: seq<World>, events: seq<Timed>)
    requires stale != current
    ensures IsRun(worlds, events, 1) && |events| == 4 && events[1].event == RowWritten(Some(current))
      && events[2].event == KeyDeleted
    ensures worlds[4].row == Some(current)
      && forall now: nat | now <= 1 + 30_000 :: Seen(worlds[4], now) == Some(stale)
  {
    var read := Read(stale, 0);
    events := [Timed(RowRead(7), 0), Timed(RowWritten(Some(current)), 0), Timed(KeyDeleted, 0), Timed(Filled(7), 1)];
    worlds := [
      World(Some(stale), None, map[]),
      World(Some(stale), None, map[7 := read]),
      World(Some(current), None, map[7 := read]),
      World(Some(current), None, map[7 := read]),
      World(Some(current), Some(Entry(stale, 1 + 30_000)), map[])];
    assert map[7 := read] - {7} == map[] && map[][7 := read] == map[7 := read];
  }

  // ------------------------------------------------------------------ after a write and its deletion

  /** The event writes or deletes the key. */
  predicate Touches(e: Timed) {
    e.event.Filled? || e.event.KeyDeleted?
  }

  /** The f-th event is the last before the n-th that touched the key, and it was a fill. */
  ghost predicate LastFill(events: seq<Timed>, d: nat, f: nat, n: nat) {
    d < f < n <= |events| && events[f].event.Filled? && forall j | f < j < n :: !Touches(events[j])
  }

  /** The read that the f-th event puts into the cache was taken before the a-th event. */
  ghost predicate TakenBefore(worlds: seq<World>, events: seq<Timed>, a: nat, f: nat)
    requires f < |events| < |worlds| && events[f].event.Filled? && events[f].event.request in worlds[f].inFlight
  {
    var request := events[f].event.request;
    var read := worlds[f].inFlight[request];
    exists j | 0 <= j < a && j < f :: events[j] == Timed(RowRead(request), read.at) && worlds[j].row == Some(read.value)
  }

  /** A fill after the deletion, still the last word on the key and live, with another value from before the write. */
  ghost predicate StaleFill(worlds: seq<World>, events: seq<Timed>, a: nat, d: nat, f: nat, n: nat, now: nat)
    requires n <= |events| < |worlds|
  {
    && LastFill(events, d, f, n) && now <= events[f].at + 30_000
    && events[f].event.request in worlds[f].inFlight
    && TakenBefore(worlds, events, a, f)
    && Some(worlds[f].inFlight[events[f].event.request].value) != worlds[n].row
  }

  /** What is in the cache some time after a deletion: nothing, or what the last fill since then put there. */
  lemma {:induction false} CacheSince(worlds: seq<World>, events: seq<Timed>, latency: nat, d: nat, n: nat)
      returns (f: nat)
    requires IsRun(worlds, events, latency) && d < n <= |events| && events[d].event.KeyDeleted?
    ensures worlds[n].cache.Some? ==> LastFill(events, d, f, n) && events[f].event.request in worlds[f].inFlight
    ensures worlds[n].cache.Some? ==>
      worlds[n].cache.value == Entry(worlds[f].inFlight[events[f].event.request].value, events[f].at + 30_000)
    ensures worlds[n].cache.None? ==> forall g: nat :: !LastFill(events, d, g, n)
    decreases n
  {
    var e := events[n - 1];
    assert worlds[n] == Next(worlds[n - 1], e) && Enabled(worlds[n - 1], e, latency);
    if d == n - 1 || Touches(e) {
      f := n - 1;
      assert e.event.KeyDeleted?
        ==> forall g: nat :: LastFill(events, d, g, n) ==> g < n - 1 && !Touches(events[n - 1]);
    } else {
      f := CacheSince(worlds, events, latency, d, n - 1);
      assert forall g: nat :: LastFill(events, d, g, n) ==> LastFill(events, d, g, n - 1);
    }
  }

  lemma {:induction false} RowStays(worlds: seq<World>, events: seq<Timed>, latency: nat, i: nat, n: nat)
    requires IsRun(worlds, events, latency) && i <= n <= |events|
    requires forall j | i <= j < n :: !events[j].event.RowWritten?
    ensures worlds[i].row == worlds[n].row
    decreases n
  {
    if i < n {
      RowStays(worlds, events, latency, i, n - 1);
      assert worlds[n] == Next(worlds[n - 1], events[n - 1]);
    }
  }

  /** Every read in flight was taken by an event of its request, which saw the row of then. */
  lemma {:induction false} ReadsWereTaken(worlds: seq<World>, events: seq<Timed>, latency: nat, n: nat,
      request: RequestId) returns (j: nat)
    requires IsRun(worlds, events, latency) && n <= |events| && request in worlds[n].inFlight
    ensures j < n && events[j] == Timed(RowRead(request), worlds[n].inFlight[request].at)
    ensures worlds[j].row == Some(worlds[n].inFlight[request].value)
    decreases n
  {
    var e := events[n - 1];
    assert worlds[n] == Next(worlds[n - 1], e) && Enabled(worlds[n - 1], e, latency);
    if e.event == RowRead(request) && worlds[n - 1].row.Some? {
      j := n - 1;
    } else {
      j := ReadsWereTaken(worlds, events, latency, n - 1, request);
    }
  }

  /** A fill of another value than the row's is a fill of a read from before the write. */
  lemma OtherValuesAreOlder(worlds: seq<World>, events: seq<Timed>, latency: nat, a: nat, f: nat, n: nat)
    requires IsRun(worlds, events, latency) && a < f < n <= |events|
    requires events[a].event.RowWritten? && forall j | a < j < n :: !events[j].event.RowWritten?
    requires events[f].event.Filled? && events[f].event.request in worlds[f].inFlight
    requires Some(worlds[f].inFlight[events[f].event.request].value) != worlds[n].row
    ensures TakenBefore(worlds, events, a, f)
  {
    var j := ReadsWereTaken(worlds, events, latency, f, events[f].event.request);
    if j > a {
      RowStays(worlds, events, latency, j, n);
    }
  }

  /**
   * After a write and a deletion of the key that follows it, with no write since: a request sees the row, at every
   * later moment, if and only if the last fill since the deletion is dead by then, or is not of a read taken before
   * the write with another value.
   */
  lemma CurrentAfterDeleteIff(worlds: seq<World>, events: seq<Timed>, latency: nat, a: nat, d: nat, n: nat, now: nat)
    requires IsRun(worlds, events, latency) && a < d < n <= |events|
    requires events[a].event.RowWritten? && events[d].event.KeyDeleted?
      && forall j | a < j < n :: !events[j].event.RowWritten?
    ensures Seen(worlds[n], now) == worlds[n].row <==> forall f: nat :: !StaleFill(worlds, events, a, d, f, n, now)
  {
    var last := CacheSince(worlds, events, latency, d, n);
    if Seen(worlds[n], now) != worlds[n].row {
      OtherValuesAreOlder(worlds, events, latency, a, last, n);
      assert StaleFill(worlds, events, a, d, last, n, now);
    } else {
      forall f: nat ensures !StaleFill(worlds, events, a, d, f, n, now) {
        OnlyOneLastFill(events, d, f, last, n);
      }
    }
  }

  lemma OnlyOneLastFill(events: seq<Timed>, d: nat, f: nat, g: nat, n: nat)
    ensures LastFill(events, d, f, n) && LastFill(events, d, g, n) ==> f == g
  {
  }

  /**
   * So a deletion that lands later than any fill of an older read can is enough: every later decision is on the row.
   */
  lemma LateDeletionIsEnough(worlds: seq<World>, events: seq<Timed>, latency: nat, a: nat, d: nat, n: nat, now: nat)
    requires IsRun(worlds, events, latency) && a < d < n <= |events|
    requires events[a].event.RowWritten? && events[d].event.KeyDeleted?
      && forall j | a < j < n :: !events[j].event.RowWritten?
    requires events[d].at > events[a].at + latency
    ensures Seen(worlds[n], now) == worlds[n].row
  {
    CurrentAfterDeleteIff(worlds, events, latency, a, d, n, now);
    forall f: nat ensures !StaleFill(worlds, events, a, d, f, n, now) {
      if d < f < n {
        assert Enabled(worlds[f], events[f], latency) && events[d].at <= events[f].at;
        assert forall j | 0 <= j < a :: events[j].at <= events[a].at;
      }
    }
  }
}
