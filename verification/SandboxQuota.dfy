/**
 * The sandbox quota (sandbox.service.ts, notify.service.ts): a request reads the key's daily count, adds its job, and
 * only then computes the time to midnight, increments the count and sets its expiry, one awaited step after the other.
 * How many jobs overlapping requests can add in a day. Times are milliseconds since some midnight; one API key.
 */
module SandboxQuota {
  import opened JsStrings
  import opened Sets

  type Request = nat

  const DAY_MS: nat := 86_400_000

  function Day(t: nat): nat {
    t / DAY_MS
  }

  lemma DayIs24Hours(t: nat)
    ensures Day(t + 24 * 60 * 60 * 1000) == Day(t) + 1
  {
  }

  /** A key without an expiry, as INCR creates it, lives for ever. */
  datatype Counter = Counter(count: nat, expiresAt: Option<nat>)

  predicate LivesAt(c: Counter, t: nat) {
    c.expiresAt == None || t <= c.expiresAt.value
  }

  predicate Live(c: Option<Counter>, now: nat) {
    c.Some? && LivesAt(c.value, now)
  }

  /** getTodayCount */
  function Today(c: Option<Counter>, now: nat): nat {
    if Live(c, now) then c.value.count else 0
  }

  /** The seconds to the next midnight, rounded up. */
  function SecondsLeft(now: nat): nat {
    ((Day(now) + 1) * DAY_MS - now + 999) / 1000
  }

  function Incr(c: Option<Counter>, now: nat): Option<Counter> {
    if Live(c, now) then Some(c.value.(count := c.value.count + 1)) else Some(Counter(1, None))
  }

  function Expire(c: Option<Counter>, now: nat, seconds: nat): Option<Counter> {
    if Live(c, now) then Some(c.value.(expiresAt := Some(now + seconds * 1000))) else c
  }

  /** incrementUsage when all of it happens in one millisecond. */
  function Increment(c: Option<Counter>, now: nat): Option<Counter> {
    Expire(Incr(c, now), now, SecondsLeft(now))
  }

  class SandboxService {
    const testDailyLimit: nat
    const isTestKey: bool
    var counter: Option<Counter>

    constructor (limit: nat, isTestKey: bool)
      ensures testDailyLimit == limit && this.isTestKey == isTestKey && counter == None
    {
      testDailyLimit, this.isTestKey, counter := limit, isTestKey, None;
    }

    /** The quota part of validateSandboxKey, for a key that exists and is neither revoked nor expired. */
    method ValidateSandboxKey(now: nat) returns (allowed: bool, remainingToday: nat)
      ensures allowed <==> Today(counter, now) < testDailyLimit
      ensures remainingToday + Today(counter, now) == testDailyLimit
        || (remainingToday == 0 && Today(counter, now) > testDailyLimit)
    {
      var today := Today(counter, now);
      remainingToday := if testDailyLimit - today > 0 then testDailyLimit - today else 0;
      allowed := remainingToday > 0;
    }

    /** incrementUsage of one request that nothing disturbs: the time is read, then INCR runs, then EXPIRE. */
    method IncrementUsage(now: nat, incrAt: nat, expireAt: nat)
      requires now <= incrAt <= expireAt
      modifies this
      ensures counter
        == if isTestKey then Expire(Incr(old(counter), incrAt), expireAt, SecondsLeft(now)) else old(counter)
    {
      if !isTestKey {
        return;
      }
      var ttl := SecondsLeft(now);
      counter := Incr(counter, incrAt);
      counter := Expire(counter, expireAt, ttl);
    }
  }

  // ------------------------------------------------------------------ overlapping requests

  datatype Event =
    | Checked(id: Request)
    | Added(id: Request)
    | AddFailed(id: Request)
    | Timed(id: Request)
    | Incremented(id: Request)
    | Expired(id: Request)
    | CountLost(id: Request)
    | ExpiryLost(id: Request)

  datatype At = At(event: Event, time: nat)

  /**
   * The counter and the requests in flight: past the check, with their job added, with the time to midnight computed
   * (and when), and with the count incremented.
   */
  datatype World = World(
    counter: Option<Counter>,
    passed: set<Request>,
    added: set<Request>,
    timed: map<Request, nat>,
    incremented: map<Request, nat>)

  const START := World(None, {}, {}, map[], map[])

  function InFlight(w: World): nat {
    |w.passed| + |w.added| + |w.timed| + |w.incremented|
  }

  /** Request ids are fresh, so none is in two places. */
  predicate Enabled(w: World, e: Event, inFlight: nat) {
    match e
    case Checked(id) => id !in w.passed && InFlight(w) < inFlight
    case Added(id) => id in w.passed && id !in w.added
    case AddFailed(id) => id in w.passed
    case Timed(id) => id in w.added && id !in w.timed
    case Incremented(id) => id in w.timed && id !in w.incremented
    case Expired(id) => id in w.incremented
    case CountLost(id) => id in w.added || id in w.timed
    case ExpiryLost(id) => id in w.incremented
  }

  /** An event that is not enabled changes nothing here. */
  function Next(w: World, e: At, limit: nat): World {
    match e.event
    case Checked(id) => if Today(w.counter, e.time) < limit then w.(passed := w.passed + {id}) else w
    case Added(id) => w.(passed := w.passed - {id}, added := w.added + {id})
    case AddFailed(id) => w.(passed := w.passed - {id})
    case Timed(id) => w.(added := w.added - {id}, timed := w.timed[id := e.time])
    case Incremented(id) =>
      if id !in w.timed then w
      else w.(counter := Incr(w.counter, e.time), timed := w.timed - {id},
          incremented := w.incremented[id := w.timed[id]])
    case Expired(id) =>
      if id !in w.incremented then w
      else w.(counter := Expire(w.counter, e.time, SecondsLeft(w.incremented[id])),
          incremented := w.incremented - {id})
    case CountLost(id) => if id in w.added then w.(added := w.added - {id}) else w.(timed := w.timed - {id})
    case ExpiryLost(id) => w.(incremented := w.incremented - {id})
  }

  datatype Trace = Trace(worlds: seq<World>, events: seq<At>)

  ghost predicate IsRun(r: Trace, limit: nat, inFlight: nat) {
    && |r.worlds| == |r.events| + 1 && r.worlds[0] == START
    && (forall i, j | 0 <= i <= j < |r.events| :: r.events[i].time <= r.events[j].time)
    && forall i | 0 <= i < |r.events| ::
         Enabled(r.worlds[i], r.events[i].event, inFlight) && r.worlds[i + 1] == Next(r.worlds[i], r.events[i], limit)
  }

  function One(b: bool): nat {
    if b then 1 else 0
  }

  /** Among the first n events, those of a kind on a day: jobs added, counts incremented, counts lost. */
  function AddedOn(events: seq<At>, n: nat, day: nat): nat
    requires n <= |events|
  {
    if n == 0 then 0
    else AddedOn(events, n - 1, day) + One(events[n - 1].event.Added? && Day(events[n - 1].time) == day)
  }

  function IncrementedOn(events: seq<At>, n: nat, day: nat): nat
    requires n <= |events|
  {
    if n == 0 then 0
    else IncrementedOn(events, n - 1, day) + One(events[n - 1].event.Incremented? && Day(events[n - 1].time) == day)
  }

  function LostOn(events: seq<At>, n: nat, day: nat): nat
    requires n <= |events|
  {
    if n == 0 then 0
    else LostOn(events, n - 1, day) + One(events[n - 1].event.CountLost? && Day(events[n - 1].time) == day)
  }

  /** After n events: the day's increments since the key was last found dead. */
  function Held(r: Trace, n: nat, day: nat): nat
    requires n <= |r.events| < |r.worlds|
  {
    if n == 0 then 0
    else
      var e := r.events[n - 1];
      (if Live(r.worlds[n - 1].counter, e.time) then Held(r, n - 1, day) else 0)
        + One(e.event.Incremented? && Day(e.time) == day)
  }

  /** The day's increments that died with the key and were found missing on the same day. */
  function ForgottenOn(r: Trace, n: nat, day: nat): nat
    requires n <= |r.events| < |r.worlds|
  {
    if n == 0 then 0
    else
      var e := r.events[n - 1];
      ForgottenOn(r, n - 1, day)
        + if Day(e.time) == day && !Live(r.worlds[n - 1].counter, e.time) then Held(r, n - 1, day) else 0
  }

  // ------------------------------------------------------------------ main results

  /**
   * With at most k requests of a key in flight, the jobs added on any day are at most limit + k - 1, plus the
   * increments lost that day, plus the day's increments that the key forgot before the day was over.
   */
  lemma JobsPerDay(r: Trace, limit: nat, inFlight: nat, day: nat)
    requires IsRun(r, limit, inFlight) && inFlight > 0
    ensures AddedOn(r.events, |r.events|, day)
         <= limit + inFlight - 1 + LostOn(r.events, |r.events|, day) + ForgottenOn(r, |r.events|, day)
  {
    var n := EndOfDay(r, limit, inFlight, day, |r.events|);
    RunKnows(r, limit, inFlight, n, day);
    LaterDaysDoNotMatter(r, n, |r.events|, day);
  }

  /**
   * On a day on which no EXPIRE uses a time to midnight of an earlier day, and no INCR hits a key of an earlier day
   * that is about to die, no increment is forgotten: at most limit + k - 1 jobs, plus the lost increments.
   */
  lemma JobsOnAnOrdinaryDay(r: Trace, limit: nat, inFlight: nat, day: nat)
    requires IsRun(r, limit, inFlight) && inFlight > 0
    requires NoStaleExpire(r, |r.events|, day) && NoCarriedIncrement(r, |r.events|, day)
    ensures ForgottenOn(r, |r.events|, day) == 0
    ensures AddedOn(r.events, |r.events|, day) <= limit + inFlight - 1 + LostOn(r.events, |r.events|, day)
  {
    JobsPerDay(r, limit, inFlight, day);
    var n := EndOfDay(r, limit, inFlight, day, |r.events|);
    hide Day;
    RunIsSafe(r, limit, inFlight, n, day);
    LaterDaysDoNotMatter(r, n, |r.events|, day);
  }

  /** On an ordinary day limit + k - 1 jobs do happen, for every limit and every k. */
  lemma OvershootHappens(limit: nat, inFlight: nat) returns (r: Trace)
    requires limit > 0 && inFlight > 0
    ensures IsRun(r, limit, inFlight) && NoStaleExpire(r, |r.events|, 0) && NoCarriedIncrement(r, |r.events|, 0)
    ensures AddedOn(r.events, |r.events|, 0) == limit + inFlight - 1 && LostOn(r.events, |r.events|, 0) == 0
  {
    var p := Setting(limit, inFlight, 0, false, false);
    r := NothingReached(p);
    r := FillTheDay(r, p, None, 0, 0, 0);
  }

  /**
   * A stale EXPIRE alone breaks limit + k - 1, for every limit of at least two and every k of at least two: it cuts
   * short the key of the new day, and the limit - 1 increments it held can be made again.
   */
  lemma StaleExpireBreaksTheBound(limit: nat, inFlight: nat) returns (r: Trace)
    requires limit >= 2 && inFlight >= 2
    ensures IsRun(r, limit, inFlight) && NoCarriedIncrement(r, |r.events|, 1) && LostOn(r.events, |r.events|, 1) == 0
    ensures AddedOn(r.events, |r.events|, 1) == limit + inFlight - 1 + (limit - 1)
  {
    var p := Setting(limit, inFlight, 1, true, false);
    hide Reaches;
    var c;
    r := LeftWaiting(p);
    r, c := CountedBehind(r, p);
    r := CutShort(r, p, c);
    var dead := Expire(c, DAY_MS + 200, SecondsLeft(DAY_MS - 100));
    DeadByThen(c);
    hide Expire, SecondsLeft;
    r := FillTheDay(r, p, dead, DAY_MS + 200, limit - 1, DAY_MS + 1_300);
  }

  /**
   * So does an INCR of yesterday's key alone, for every limit of at least two and every k: the key dies before the
   * request's own EXPIRE, and its increment with it. Not even one request at a time is safe from this.
   */
  lemma CarriedIncrementBreaksTheBound(limit: nat, inFlight: nat) returns (r: Trace)
    requires limit >= 2 && inFlight >= 1
    ensures IsRun(r, limit, inFlight) && NoStaleExpire(r, |r.events|, 1) && LostOn(r.events, |r.events|, 1) == 0
    ensures AddedOn(r.events, |r.events|, 1) == limit + inFlight - 1 + 1
  {
    var p := Setting(limit, inFlight, 1, false, true);
    hide Next, Enabled, Reaches;
    var yesterday, carried := Some(Counter(1, Some(DAY_MS + 500))), Some(Counter(2, Some(DAY_MS + 500)));
    r := CountedYesterday(p, yesterday);
    r := CarriedOver(r, p, yesterday, carried);
    assert !Live(carried, DAY_MS + 800) && Day(DAY_MS + 800) == 1;
    hide Live;
    r := FillTheDay(r, p, carried, DAY_MS + 700, 1, DAY_MS + 800);
  }

  /**
   * The limit is not always granted either. The time to midnight is rounded up to a second, so an increment shortly
   * after midnight can still find the counter of the day before, and carries all of it into the new day.
   */
  lemma YesterdayCarriesOver(c: Option<Counter>, before: nat, after: nat)
    requires Day(after) == Day(before) + 1
    ensures var yesterday := Increment(c, before);
      var carried := Increment(yesterday, after);
      Today(carried, after) == (if LivesAt(yesterday.value, after) then Today(c, before) + 1 else 0) + 1
  {
    IncrementEffect(c, before);
    IncrementEffect(Increment(c, before), after);
    DayBounds(after);
  }

  /**
   * A stale EXPIRE in the commands alone: a request that counts just before midnight and sets its expiry just after
   * shortens the counter of the new day, and one second later an increment of that day is forgotten.
   */
  lemma LateExpireForgetsToday(today: nat)
    requires today > 0
    ensures var midnight := today * DAY_MS;
      var ttlBefore := SecondsLeft(midnight - 500);
      var c1 := Incr(None, midnight - 500);
      var c2 := Increment(c1, midnight + 100);
      var c3 := Expire(c2, midnight + 200, ttlBefore);
      Today(c2, midnight + 100) > 0 && Today(c3, midnight + 1_201) == 0
  {
    var midnight := today * DAY_MS;
    assert Day(midnight - 500) == today - 1;
    assert SecondsLeft(midnight - 500) == 1;
    IncrementEffect(Incr(None, midnight - 500), midnight + 100);
  }

  /** An increment leaves a counter one higher that lives to the end of the day and less than a second more. */
  lemma IncrementEffect(c: Option<Counter>, now: nat)
    ensures var c' := Increment(c, now);
      && c'.Some? && c'.value.count == Today(c, now) + 1
      && c'.value.expiresAt.Some?
      && (Day(now) + 1) * DAY_MS <= c'.value.expiresAt.value < (Day(now) + 1) * DAY_MS + 1000
      && Live(c', now) && LivesAt(c'.value, LastOf(Day(now)))
  {
    MidnightIsReached(now);
    DayBounds(now);
  }

  // ------------------------------------------------------------------ the bound, with everything that can go wrong

  lemma DayBounds(t: nat)
    ensures Day(t) * DAY_MS <= t < (Day(t) + 1) * DAY_MS
  {
  }

  lemma DayGrows(a: nat, b: nat)
    requires a <= b
    ensures Day(a) <= Day(b)
  {
  }

  lemma MidnightIsReached(now: nat)
    ensures now + SecondsLeft(now) * 1000 >= (Day(now) + 1) * DAY_MS
    ensures now + SecondsLeft(now) * 1000 < (Day(now) + 1) * DAY_MS + 1000
    ensures SecondsLeft(now) > 0
  {
    DayBounds(now);
    var left := (Day(now) + 1) * DAY_MS - now;
    assert SecondsLeft(now) == (left + 999) / 1000;
  }

  /** What is known after n events, on a day no earlier than theirs. */
  ghost predicate Knows(r: Trace, limit: nat, inFlight: nat, n: nat, day: nat)
    requires n <= |r.events| < |r.worlds|
  {
    var w := r.worlds[n];
    && InFlight(w) <= inFlight
    && (limit == 0 ==> w.passed == {})
    && (Held(r, n, day) > 0 ==> w.counter.Some? && w.counter.value.count >= Held(r, n, day))
    && IncrementedOn(r.events, n, day) == Held(r, n, day) + ForgottenOn(r, n, day)
    && AddedOn(r.events, n, day) <= IncrementedOn(r.events, n, day) + |w.added| + |w.timed| + LostOn(r.events, n, day)
    && AddedOn(r.events, n, day) + |w.passed|
      <= limit + inFlight - 1 + LostOn(r.events, n, day) + ForgottenOn(r, n, day)
  }

  /** The n-th event of a run. */
  ghost predicate Happens(r: Trace, limit: nat, inFlight: nat, n: nat) {
    && n < |r.events| < |r.worlds|
    && Enabled(r.worlds[n], r.events[n].event, inFlight) && r.worlds[n + 1] == Next(r.worlds[n], r.events[n], limit)
  }

  /** What every event does to the counters of a day that is its own. */
  lemma BooksMove(r: Trace, limit: nat, inFlight: nat, n: nat)
    requires Happens(r, limit, inFlight, n)
    requires Knows(r, limit, inFlight, n, Day(r.events[n].time))
    ensures var e, day, w := r.events[n], Day(r.events[n].time), r.worlds[n + 1];
      && (Held(r, n + 1, day) > 0 ==> w.counter.Some? && w.counter.value.count >= Held(r, n + 1, day))
      && IncrementedOn(r.events, n + 1, day) == Held(r, n + 1, day) + ForgottenOn(r, n + 1, day)
      && IncrementedOn(r.events, n + 1, day) == IncrementedOn(r.events, n, day) + One(e.event.Incremented?)
      && AddedOn(r.events, n + 1, day) == AddedOn(r.events, n, day) + One(e.event.Added?)
      && LostOn(r.events, n + 1, day) == LostOn(r.events, n, day) + One(e.event.CountLost?)
      && ForgottenOn(r, n + 1, day) >= ForgottenOn(r, n, day)
      && (e.event.Checked? ==> Today(r.worlds[n].counter, e.time) >= Held(r, n + 1, day))
  {
    hide InFlight;
  }

  ghost predicate StagesMoveBy(w: World, v: World, entered: nat, left: nat, owed: int) {
    && InFlight(v) <= InFlight(w) + entered
    && |v.passed| == |w.passed| + entered - left
    && |v.added| + |v.timed| == |w.added| + |w.timed| + owed
  }

  lemma CheckMoves(w: World, e: At, limit: nat)
    requires e.event.Checked? && e.event.id !in w.passed
    ensures StagesMoveBy(w, Next(w, e, limit), One(Today(w.counter, e.time) < limit), 0, 0)
  {
    assert |w.passed + {e.event.id}| == |w.passed| + 1;
    hide Today;
  }

  lemma AddMoves(w: World, e: At, limit: nat)
    requires e.event.Added? && e.event.id in w.passed && e.event.id !in w.added
    ensures StagesMoveBy(w, Next(w, e, limit), 0, 1, 1)
  {
    assert |w.passed - {e.event.id}| == |w.passed| - 1 && |w.added + {e.event.id}| == |w.added| + 1;
  }

  lemma FailMoves(w: World, e: At, limit: nat)
    requires e.event.AddFailed? && e.event.id in w.passed
    ensures StagesMoveBy(w, Next(w, e, limit), 0, 1, 0)
  {
    assert |w.passed - {e.event.id}| == |w.passed| - 1;
  }

  lemma TimeMoves(w: World, e: At, limit: nat)
    requires e.event.Timed? && e.event.id in w.added && e.event.id !in w.timed
    ensures StagesMoveBy(w, Next(w, e, limit), 0, 0, 0)
  {
    assert |w.added - {e.event.id}| == |w.added| - 1;
    Put(w.timed, e.event.id, e.time);
  }

  lemma IncrementMoves(w: World, e: At, limit: nat)
    requires e.event.Incremented? && e.event.id in w.timed && e.event.id !in w.incremented
    ensures StagesMoveBy(w, Next(w, e, limit), 0, 0, -1)
  {
    hide Incr;
    Taken(w.timed, e.event.id);
    Put(w.incremented, e.event.id, w.timed[e.event.id]);
  }

  lemma LeaveMoves(w: World, e: At, limit: nat)
    requires (e.event.Expired? || e.event.ExpiryLost?) && e.event.id in w.incremented
    ensures StagesMoveBy(w, Next(w, e, limit), 0, 0, 0)
  {
    hide Expire, SecondsLeft;
    Taken(w.incremented, e.event.id);
  }

  lemma LossMoves(w: World, e: At, limit: nat)
    requires e.event.CountLost? && (e.event.id in w.added || e.event.id in w.timed)
    ensures StagesMoveBy(w, Next(w, e, limit), 0, 0, -1)
  {
    if e.event.id in w.added {
      assert |w.added - {e.event.id}| == |w.added| - 1;
    } else {
      Taken(w.timed, e.event.id);
    }
  }

  /** The requests in flight: one enters by a check that passes, every other event moves or releases one. */
  lemma StagesMove(w: World, e: At, limit: nat, inFlight: nat)
    requires Enabled(w, e.event, inFlight)
    ensures StagesMoveBy(w, Next(w, e, limit),
      One(e.event.Checked? && Today(w.counter, e.time) < limit),
      One(e.event.Added? || e.event.AddFailed?),
      One(e.event.Added?) - One(e.event.Incremented? || e.event.CountLost?))
  {
    hide StagesMoveBy, Next, InFlight, Today;
    match e.event
    case Checked(_) => CheckMoves(w, e, limit);
    case Added(_) => AddMoves(w, e, limit);
    case AddFailed(_) => FailMoves(w, e, limit);
    case Timed(_) => TimeMoves(w, e, limit);
    case Incremented(_) => IncrementMoves(w, e, limit);
    case Expired(_) => LeaveMoves(w, e, limit);
    case CountLost(_) => LossMoves(w, e, limit);
    case ExpiryLost(_) => LeaveMoves(w, e, limit);
  }

  lemma Put(m: map<Request, nat>, id: Request, t: nat)
    requires id !in m
    ensures |m[id := t]| == |m| + 1
  {
    assert m[id := t].Keys == m.Keys + {id};
  }

  lemma Taken(m: map<Request, nat>, id: Request)
    requires id in m
    ensures |m - {id}| == |m| - 1
  {
    assert (m - {id}).Keys == m.Keys - {id};
  }

  lemma StepKeeps(r: Trace, limit: nat, inFlight: nat, n: nat)
    requires Happens(r, limit, inFlight, n)
    requires Knows(r, limit, inFlight, n, Day(r.events[n].time))
    ensures Knows(r, limit, inFlight, n + 1, Day(r.events[n].time))
  {
    BooksMove(r, limit, inFlight, n);
    StagesMove(r.worlds[n], r.events[n], limit, inFlight);
    PassedStaysEmpty(r.worlds[n], r.events[n], limit, inFlight);
    hide Held, ForgottenOn, IncrementedOn, AddedOn, LostOn, Next, Enabled, Today, Day;
  }

  lemma PassedStaysEmpty(w: World, e: At, limit: nat, inFlight: nat)
    requires Enabled(w, e.event, inFlight) && (limit == 0 ==> w.passed == {})
    ensures limit == 0 ==> Next(w, e, limit).passed == {}
    ensures e.event.Checked? && Today(w.counter, e.time) >= limit ==> Next(w, e, limit) == w
    ensures e.event.Checked? ==> InFlight(w) < inFlight
  {
  }

  /** The n-th event of a run happens, and no earlier event is of a later day. */
  lemma RunStep(r: Trace, limit: nat, inFlight: nat, n: nat)
    requires IsRun(r, limit, inFlight) && n < |r.events|
    ensures Happens(r, limit, inFlight, n)
    ensures forall i | 0 <= i <= n :: Day(r.events[i].time) <= Day(r.events[n].time)
  {
    hide Enabled, Next, Day;
    forall i | 0 <= i <= n ensures Day(r.events[i].time) <= Day(r.events[n].time) {
      DayGrows(r.events[i].time, r.events[n].time);
    }
  }

  lemma {:induction false} NothingYet(r: Trace, n: nat, day: nat)
    requires n <= |r.events| < |r.worlds|
    requires forall i | 0 <= i < n :: Day(r.events[i].time) < day
    ensures AddedOn(r.events, n, day) == IncrementedOn(r.events, n, day) == LostOn(r.events, n, day) == 0
    ensures Held(r, n, day) == ForgottenOn(r, n, day) == 0
    decreases n
  {
    if n > 0 {
      NothingYet(r, n - 1, day);
    }
  }

  lemma NewDay(r: Trace, limit: nat, inFlight: nat, n: nat, today: nat, day: nat)
    requires n <= |r.events| < |r.worlds| && Knows(r, limit, inFlight, n, today) && inFlight > 0
    requires forall i | 0 <= i < n :: Day(r.events[i].time) < day
    ensures Knows(r, limit, inFlight, n, day)
  {
    NothingYet(r, n, day);
  }

  lemma NothingHappened(r: Trace, limit: nat, inFlight: nat, day: nat)
    requires IsRun(r, limit, inFlight) && inFlight > 0
    ensures Knows(r, limit, inFlight, 0, day)
  {
  }

  lemma OneMoreKnown(r: Trace, limit: nat, inFlight: nat, n: nat, day: nat)
    requires IsRun(r, limit, inFlight) && inFlight > 0 && n < |r.events| && Day(r.events[n].time) <= day
    requires Knows(r, limit, inFlight, n, Day(r.events[n].time))
    ensures Knows(r, limit, inFlight, n + 1, day)
  {
    RunStep(r, limit, inFlight, n);
    hide Knows, Happens, Day, IsRun;
    StepKeeps(r, limit, inFlight, n);
    if Day(r.events[n].time) < day {
      NewDay(r, limit, inFlight, n + 1, Day(r.events[n].time), day);
    }
  }

  lemma DaysPass(r: Trace, limit: nat, inFlight: nat, n: nat)
    requires IsRun(r, limit, inFlight) && n + 1 < |r.events|
    ensures Day(r.events[n].time) <= Day(r.events[n + 1].time)
  {
    DayGrows(r.events[n].time, r.events[n + 1].time);
  }

  lemma {:induction false} RunKnows(r: Trace, limit: nat, inFlight: nat, n: nat, day: nat)
    requires IsRun(r, limit, inFlight) && inFlight > 0
    requires n <= |r.events| && (n > 0 ==> Day(r.events[n - 1].time) <= day)
    ensures Knows(r, limit, inFlight, n, day)
    decreases n
  {
    hide Knows, IsRun, Day;
    if n == 0 {
      NothingHappened(r, limit, inFlight, day);
    } else {
      if n > 1 {
        DaysPass(r, limit, inFlight, n - 2);
      }
      RunKnows(r, limit, inFlight, n - 1, Day(r.events[n - 1].time));
      OneMoreKnown(r, limit, inFlight, n - 1, day);
    }
  }

  /** The events up to the end of a day. */
  lemma {:induction false} EndOfDay(r: Trace, limit: nat, inFlight: nat, day: nat, upto: nat) returns (n: nat)
    requires IsRun(r, limit, inFlight) && upto <= |r.events|
    ensures n <= upto
    ensures forall i | 0 <= i < n :: Day(r.events[i].time) <= day
    ensures forall i | n <= i < upto :: Day(r.events[i].time) > day
    decreases upto
  {
    hide Day;
    if upto == 0 {
      n := 0;
    } else {
      RunStep(r, limit, inFlight, upto - 1);
      if Day(r.events[upto - 1].time) <= day {
        n := upto;
      } else {
        n := EndOfDay(r, limit, inFlight, day, upto - 1);
      }
    }
  }

  lemma {:induction false} LaterDaysDoNotMatter(r: Trace, n: nat, upto: nat, day: nat)
    requires n <= upto <= |r.events| < |r.worlds|
    requires forall i | n <= i < upto :: Day(r.events[i].time) > day
    ensures AddedOn(r.events, upto, day) == AddedOn(r.events, n, day)
    ensures LostOn(r.events, upto, day) == LostOn(r.events, n, day)
    ensures ForgottenOn(r, upto, day) == ForgottenOn(r, n, day)
    decreases upto
  {
    if n < upto {
      LaterDaysDoNotMatter(r, n, upto - 1, day);
    }
  }

  // ------------------------------------------------------------------ when nothing is forgotten

  function LastOf(day: nat): nat {
    (day + 1) * DAY_MS - 1
  }

  /** An EXPIRE whose time to midnight was computed on an earlier day. */
  predicate StaleExpire(w: World, e: At) {
    e.event.Expired? && e.event.id in w.incremented && Day(w.incremented[e.event.id]) < Day(e.time)
  }

  /** An INCR of a key that is still alive from an earlier day, but due to die on this one. */
  predicate CarriedIncrement(w: World, e: At) {
    e.event.Incremented? && Live(w.counter, e.time) && !LivesAt(w.counter.value, LastOf(Day(e.time)))
  }

  ghost predicate NoStaleExpire(r: Trace, n: nat, day: nat)
    requires n <= |r.events| < |r.worlds|
  {
    forall i | 0 <= i < n && Day(r.events[i].time) == day :: !StaleExpire(r.worlds[i], r.events[i])
  }

  ghost predicate NoCarriedIncrement(r: Trace, n: nat, day: nat)
    requires n <= |r.events| < |r.worlds|
  {
    forall i | 0 <= i < n && Day(r.events[i].time) == day :: !CarriedIncrement(r.worlds[i], r.events[i])
  }

  ghost predicate TimesArePast(w: World, now: nat) {
    && (forall id | id in w.timed :: w.timed[id] <= now)
    && (forall id | id in w.incremented :: w.incremented[id] <= now)
  }

  lemma StepTimesArePast(w: World, e: At, limit: nat, now: nat)
    requires TimesArePast(w, e.time) && e.time <= now
    ensures TimesArePast(Next(w, e, limit), now)
  {
    hide Day, Today, Incr, Expire, SecondsLeft;
  }

  lemma {:induction false} RunTimesArePast(r: Trace, limit: nat, inFlight: nat, n: nat, now: nat)
    requires IsRun(r, limit, inFlight) && n <= |r.events| && (n > 0 ==> r.events[n - 1].time <= now)
    ensures TimesArePast(r.worlds[n], now)
    decreases n
  {
    if n > 0 {
      hide Day, Next, Enabled, TimesArePast;
      var e := r.events[n - 1];
      assert n > 1 ==> r.events[n - 2].time <= e.time;
      RunTimesArePast(r, limit, inFlight, n - 1, e.time);
      assert r.worlds[n] == Next(r.worlds[n - 1], e, limit);
      StepTimesArePast(r.worlds[n - 1], e, limit, now);
    }
  }

  /** The day's increments are in a key that lasts to the end of the day, and none was forgotten. */
  ghost predicate Safe(r: Trace, n: nat, day: nat)
    requires n <= |r.events| < |r.worlds|
  {
    && (Held(r, n, day) > 0 ==> r.worlds[n].counter.Some? && LivesAt(r.worlds[n].counter.value, LastOf(day)))
    && ForgottenOn(r, n, day) == 0
  }

  lemma FreshExpireLasts(computed: nat, now: nat)
    requires computed <= now && Day(computed) == Day(now)
    ensures now + SecondsLeft(computed) * 1000 > LastOf(Day(now))
  {
    MidnightIsReached(computed);
  }

  lemma SafeStep(r: Trace, limit: nat, inFlight: nat, n: nat)
    requires Happens(r, limit, inFlight, n) && TimesArePast(r.worlds[n], r.events[n].time)
    requires !StaleExpire(r.worlds[n], r.events[n]) && !CarriedIncrement(r.worlds[n], r.events[n])
    requires Safe(r, n, Day(r.events[n].time))
    ensures Safe(r, n + 1, Day(r.events[n].time))
  {
    var w, e := r.worlds[n], r.events[n];
    DayBounds(e.time);
    if e.event.Expired? {
      DayGrows(w.incremented[e.event.id], e.time);
      FreshExpireLasts(w.incremented[e.event.id], e.time);
    }
    hide Day, SecondsLeft, InFlight;
  }

  lemma {:induction false} RunIsSafe(r: Trace, limit: nat, inFlight: nat, n: nat, day: nat)
    requires IsRun(r, limit, inFlight)
    requires n <= |r.events| && (n > 0 ==> Day(r.events[n - 1].time) <= day)
    requires NoStaleExpire(r, n, day) && NoCarriedIncrement(r, n, day)
    ensures Safe(r, n, day)
    decreases n
  {
    hide StaleExpire, CarriedIncrement, Happens, Enabled, Next, Day;
    if n > 0 {
      RunStep(r, limit, inFlight, n - 1);
      var today := Day(r.events[n - 1].time);
      if today < day {
        NothingYet(r, n, day);
      } else {
        RunIsSafe(r, limit, inFlight, n - 1, day);
        RunTimesArePast(r, limit, inFlight, n - 1, r.events[n - 1].time) by {
          assert n > 1 ==> r.events[n - 2].time <= r.events[n - 1].time;
        }
        SafeStep(r, limit, inFlight, n - 1);
      }
    }
  }

  // ------------------------------------------------------------------ the bounds are reached

  /** The environment of a run under construction, and whether the day may see the two kinds of trouble. */
  datatype Setting = Setting(limit: nat, inFlight: nat, day: nat, stale: bool, carried: bool)

  /** A run that ends in w at `now`, having added n jobs on the day and lost no count. */
  ghost predicate Reaches(r: Trace, p: Setting, w: World, now: nat, n: nat) {
    && IsRun(r, p.limit, p.inFlight)
    && r.worlds[|r.events|] == w && (r.events != [] ==> r.events[|r.events| - 1].time <= now)
    && AddedOn(r.events, |r.events|, p.day) == n && LostOn(r.events, |r.events|, p.day) == 0
    && (!p.stale ==> NoStaleExpire(r, |r.events|, p.day))
    && (!p.carried ==> NoCarriedIncrement(r, |r.events|, p.day))
  }

  lemma {:induction false} CountsOfPrefix(events: seq<At>, e: At, n: nat, day: nat)
    requires n <= |events|
    ensures AddedOn(events + [e], n, day) == AddedOn(events, n, day)
      && LostOn(events + [e], n, day) == LostOn(events, n, day)
  {
    if n > 0 {
      CountsOfPrefix(events, e, n - 1, day);
    }
  }

  lemma ExtendIsRun(r: Trace, limit: nat, inFlight: nat, e: At) returns (r': Trace)
    requires IsRun(r, limit, inFlight) && Enabled(r.worlds[|r.events|], e.event, inFlight)
    requires r.events != [] ==> r.events[|r.events| - 1].time <= e.time
    ensures r' == Trace(r.worlds + [Next(r.worlds[|r.events|], e, limit)], r.events + [e]) && IsRun(r', limit, inFlight)
  {
    hide Next, Enabled;
    r' := Trace(r.worlds + [Next(r.worlds[|r.events|], e, limit)], r.events + [e]);
    forall i | 0 <= i < |r'.events|
      ensures Enabled(r'.worlds[i], r'.events[i].event, inFlight)
        && r'.worlds[i + 1] == Next(r'.worlds[i], r'.events[i], limit)
    {
      assert i < |r.events|
        ==> r'.worlds[i] == r.worlds[i] && r'.events[i] == r.events[i] && r'.worlds[i + 1] == r.worlds[i + 1];
    }
    assert forall i | 0 <= i < |r.events| ::
      r'.events[i] == r.events[i] && r.events[i].time <= r.events[|r.events| - 1].time;
  }

  lemma ExtendTroubles(r: Trace, w: World, e: At, day: nat)
    requires |r.worlds| == |r.events| + 1
    ensures var r' := Trace(r.worlds + [w], r.events + [e]);
      var last := r.worlds[|r.events|];
      && (NoStaleExpire(r, |r.events|, day) && (Day(e.time) == day ==> !StaleExpire(last, e))
        ==> NoStaleExpire(r', |r'.events|, day))
      && (NoCarriedIncrement(r, |r.events|, day) && (Day(e.time) == day ==> !CarriedIncrement(last, e))
        ==> NoCarriedIncrement(r', |r'.events|, day))
  {
    hide StaleExpire, CarriedIncrement, Day;
    var r' := Trace(r.worlds + [w], r.events + [e]);
    assert forall i | 0 <= i < |r.events| :: r'.events[i] == r.events[i] && r'.worlds[i] == r.worlds[i];
    assert r'.worlds[|r.events|] == r.worlds[|r.events|];
  }

  lemma Extend(r: Trace, p: Setting, w: World, now: nat, n: nat, e: At) returns (r': Trace)
    requires Reaches(r, p, w, now, n) && Enabled(w, e.event, p.inFlight) && now <= e.time && !e.event.CountLost?
    requires Day(e.time) == p.day ==> (StaleExpire(w, e) ==> p.stale) && (CarriedIncrement(w, e) ==> p.carried)
    ensures Reaches(r', p, Next(w, e, p.limit), e.time, n + One(e.event.Added? && Day(e.time) == p.day))
  {
    hide Next, Enabled, StaleExpire, CarriedIncrement, Day, NoStaleExpire, NoCarriedIncrement;
    r' := ExtendIsRun(r, p.limit, p.inFlight, e);
    ExtendTroubles(r, Next(w, e, p.limit), e, p.day);
    CountsOfPrefix(r.events, e, |r.events|, p.day);
    hide IsRun;
  }

  predicate Idle(w: World) {
    w.passed == {} && w.added == {} && w.timed == map[]
  }

  /** One more request in flight, at each of its stages. */
  function Passing(w: World, id: Request): World {
    w.(passed := {id})
  }

  function Adding(w: World, id: Request): World {
    w.(added := {id})
  }

  function Timing(w: World, id: Request, t: nat): World {
    w.(timed := map[id := t])
  }

  /** The first four steps of a request, one by one. */
  lemma FourSteps(w: World, id: Request, t: nat, limit: nat, inFlight: nat)
    requires Idle(w) && id !in w.incremented && |w.incremented| < inFlight && Today(w.counter, t) < limit
    ensures Enabled(w, Checked(id), inFlight) && Next(w, At(Checked(id), t), limit) == Passing(w, id)
    ensures Enabled(Passing(w, id), Added(id), inFlight)
      && Next(Passing(w, id), At(Added(id), t), limit) == Adding(w, id)
    ensures Enabled(Adding(w, id), Timed(id), inFlight)
      && Next(Adding(w, id), At(Timed(id), t), limit) == Timing(w, id, t)
    ensures Enabled(Timing(w, id, t), Incremented(id), inFlight)
         && Next(Timing(w, id, t), At(Incremented(id), t), limit)
            == w.(counter := Incr(w.counter, t), incremented := w.incremented[id := t])
  {
    hide Incr, Today;
    assert {id} - {id} == {} && {} + {id} == {id} && map[id := t] - {id} == map[] && map[][id := t] == map[id := t];
  }

  /** Only an EXPIRE is stale, and only an INCR is carried. */
  lemma NoTrouble(w: World, e: At)
    ensures !e.event.Expired? ==> !StaleExpire(w, e)
    ensures !e.event.Incremented? ==> !CarriedIncrement(w, e)
  {
  }

  /** A request that runs up to its INCR with nobody else before his own. */
  lemma UpToIncrement(r: Trace, p: Setting, w: World, now: nat, n: nat, id: Request, t: nat) returns (r': Trace)
    requires Reaches(r, p, w, now, n) && now <= t && Idle(w)
    requires id !in w.incremented && |w.incremented| < p.inFlight && Today(w.counter, t) < p.limit
    requires Day(t) == p.day && Live(w.counter, t) && !LivesAt(w.counter.value, LastOf(Day(t))) ==> p.carried
    ensures Reaches(r', p, w.(counter := Incr(w.counter, t), incremented := w.incremented[id := t]), t, n
      + One(Day(t) == p.day))
  {
    FourSteps(w, id, t, p.limit, p.inFlight);
    assert CarriedIncrement(Timing(w, id, t), At(Incremented(id), t)) && Day(t) == p.day ==> p.carried;
    NoTrouble(w, At(Checked(id), t));
    NoTrouble(Passing(w, id), At(Added(id), t));
    NoTrouble(Adding(w, id), At(Timed(id), t));
    NoTrouble(Timing(w, id, t), At(Incremented(id), t));
    hide Reaches, Incr, Day, Today, Next, Enabled, StaleExpire, CarriedIncrement, Passing, Adding, Timing;
    var m := n + One(Day(t) == p.day);
    r' := Extend(r, p, w, now, n, At(Checked(id), t));
    r' := Extend(r', p, Passing(w, id), t, n, At(Added(id), t));
    r' := Extend(r', p, Adding(w, id), t, m, At(Timed(id), t));
    r' := Extend(r', p, Timing(w, id, t), t, m, At(Incremented(id), t));
  }

  /** A whole request in one instant. */
  lemma OneRequest(r: Trace, p: Setting, w: World, now: nat, n: nat, id: Request, t: nat) returns (r': Trace)
    requires Reaches(r, p, w, now, n) && now <= t && Idle(w)
    requires id !in w.incremented && |w.incremented| < p.inFlight && Today(w.counter, t) < p.limit
    requires Live(w.counter, t) ==> LivesAt(w.counter.value, LastOf(Day(t)))
    ensures Reaches(r', p, w.(counter := Increment(w.counter, t)), t, n + One(Day(t) == p.day))
  {
    hide Reaches, Incr, Expire, Day, Live, LivesAt, Today;
    r' := UpToIncrement(r, p, w, now, n, id, t);
    var raised := w.(counter := Incr(w.counter, t), incremented := w.incremented[id := t]);
    assert w.incremented[id := t] - {id} == w.incremented;
    r' := Extend(r', p, raised, t, n + One(Day(t) == p.day), At(Expired(id), t));
  }

  /** m requests one after the other in one instant. */
  lemma {:induction false} ManyRequests(r: Trace, p: Setting, w: World, now: nat, n: nat, m: nat, id: Request, t: nat)
    returns (r': Trace, c: Option<Counter>)
    requires Reaches(r, p, w, now, n) && now <= t && Idle(w)
    requires id !in w.incremented && |w.incremented| < p.inFlight && Today(w.counter, t) + m <= p.limit
    requires Live(w.counter, t) ==> LivesAt(w.counter.value, LastOf(Day(t)))
    ensures Reaches(r', p, w.(counter := c), t, if Day(t) == p.day then n + m else n)
    ensures Today(c, t) == Today(w.counter, t) + m && (Live(c, t) ==> LivesAt(c.value, LastOf(Day(t))))
    ensures m > 0 ==> Live(c, t)
    decreases m
  {
    if m == 0 {
      r', c := r, w.counter;
    } else {
      r', c := ManyRequests(r, p, w, now, n, m - 1, id, t);
      IncrementEffect(c, t);
      hide Reaches, Increment, Day, Live, LivesAt;
      assert Today(Increment(c, t), t) == Today(c, t) + 1 by { IncrementIsSeen(c, t); }
      r' := OneRequest(r', p, w.(counter := c), t, if Day(t) == p.day then n + m - 1 else n, id, t);
      c := Increment(c, t);
    }
  }

  lemma IncrementIsSeen(c: Option<Counter>, now: nat)
    ensures Today(Increment(c, now), now) == Today(c, now) + 1
  {
    IncrementEffect(c, now);
    hide Increment;
  }

  function Crowd(c: Option<Counter>, passed: set<Request>, added: set<Request>): World {
    World(c, passed, added, map[], map[])
  }

  lemma CheckStep(c: Option<Counter>, j: nat, t: nat, limit: nat, inFlight: nat)
    requires 0 < j <= inFlight && Today(c, t) < limit
    ensures var before, e := Crowd(c, Ids(0, j - 1), {}), At(Checked(j - 1), t);
      Enabled(before, e.event, inFlight) && Next(before, e, limit) == Crowd(c, Ids(0, j), {})
  {
    hide Today;
    IdsAre(0, j - 1);
    OneLess(j, inFlight);
  }

  lemma {:induction false} CheckTogether(r: Trace, p: Setting, c: Option<Counter>, now: nat, n: nat, j: nat, t: nat)
      returns (r': Trace)
    requires Reaches(r, p, Crowd(c, {}, {}), now, n) && now <= t && Today(c, t) < p.limit && j <= p.inFlight
    ensures Reaches(r', p, Crowd(c, Ids(0, j), {}), t, n)
    decreases j
  {
    hide Today, Day, Live, Reaches;
    if j == 0 {
      Later(r, p, Crowd(c, {}, {}), now, n, t);
      r' := r;
    } else {
      r' := CheckTogether(r, p, c, now, n, j - 1, t);
      CheckStep(c, j, t, p.limit, p.inFlight);
      NoTrouble(Crowd(c, Ids(0, j - 1), {}), At(Checked(j - 1), t));
      hide Next, Enabled, Ids, StaleExpire, CarriedIncrement, Crowd;
      r' := Extend(r', p, Crowd(c, Ids(0, j - 1), {}), t, n, At(Checked(j - 1), t));
    }
  }

  lemma Later(r: Trace, p: Setting, w: World, now: nat, n: nat, t: nat)
    requires Reaches(r, p, w, now, n) && now <= t
    ensures Reaches(r, p, w, t, n)
  {
    hide IsRun, NoStaleExpire, NoCarriedIncrement;
  }

  lemma AddStep(c: Option<Counter>, j: nat, t: nat, limit: nat, inFlight: nat)
    requires 0 < j <= inFlight
    ensures var before, e := Crowd(c, Ids(j - 1, inFlight), Ids(0, j - 1)), At(Added(j - 1), t);
      Enabled(before, e.event, inFlight) && Next(before, e, limit) == Crowd(c, Ids(j, inFlight), Ids(0, j))
  {
    hide InFlight;
    OneLess(j, inFlight);
  }

  lemma {:induction false} AddTogether(r: Trace, p: Setting, c: Option<Counter>, now: nat, n: nat, j: nat, t: nat)
      returns (r': Trace)
    requires Reaches(r, p, Crowd(c, {}, {}), now, n) && now <= t && Today(c, t) < p.limit && j <= p.inFlight
      && Day(t) == p.day
    ensures Reaches(r', p, Crowd(c, Ids(j, p.inFlight), Ids(0, j)), t, n + j)
    decreases j
  {
    hide Today, Day, Live, Reaches, Next, Enabled, Ids, StaleExpire, CarriedIncrement, Crowd;
    if j == 0 {
      NoIds();
      r' := CheckTogether(r, p, c, now, n, p.inFlight, t);
    } else {
      r' := AddTogether(r, p, c, now, n, j - 1, t);
      r' := AddOneMore(r', p, c, n, j, t);
    }
  }

  lemma NoIds()
    ensures Ids(0, 0) == {}
  {
  }

  lemma AddOneMore(r: Trace, p: Setting, c: Option<Counter>, n: nat, j: nat, t: nat) returns (r': Trace)
    requires 0 < j <= p.inFlight && Day(t) == p.day
    requires Reaches(r, p, Crowd(c, Ids(j - 1, p.inFlight), Ids(0, j - 1)), t, n + j - 1)
    ensures Reaches(r', p, Crowd(c, Ids(j, p.inFlight), Ids(0, j)), t, n + j)
  {
    hide Day, Reaches, Next, Enabled, Ids, StaleExpire, CarriedIncrement, Crowd;
    var before := Crowd(c, Ids(j - 1, p.inFlight), Ids(0, j - 1));
    AddStep(c, j, t, p.limit, p.inFlight);
    NoTrouble(before, At(Added(j - 1), t));
    r' := Extend(r, p, before, t, n + j - 1, At(Added(j - 1), t));
  }

  lemma OneLess(j: nat, k: nat)
    requires 0 < j <= k
    ensures Ids(j - 1, k) - {j - 1} == Ids(j, k) && Ids(0, j - 1) + {j - 1} == Ids(0, j)
    ensures j - 1 in Ids(j - 1, k) && j - 1 !in Ids(0, j - 1)
  {
    IdsFront(j, k);
    IdsAre(0, j - 1);
    assert Ids(0, j) == Ids(0, j - 1) + {j - 1};
    hide Ids;
  }

  lemma NothingReached(p: Setting) returns (r: Trace)
    requires p.inFlight > 0
    ensures Reaches(r, p, START, 0, 0)
  {
    r := Trace([START], []);
  }

  /** limit - 1 requests one by one, then all k at once, at one instant of the day. */
  lemma FillTheDay(r: Trace, p: Setting, c: Option<Counter>, now: nat, n: nat, t: nat) returns (r': Trace)
    requires Reaches(r, p, Crowd(c, {}, {}), now, n) && now <= t && Day(t) == p.day && p.limit > 0
      && p.inFlight > 0 && !Live(c, t)
    ensures IsRun(r', p.limit, p.inFlight)
    ensures AddedOn(r'.events, |r'.events|, p.day) == n + p.limit - 1 + p.inFlight
      && LostOn(r'.events, |r'.events|, p.day) == 0
    ensures !p.stale ==> NoStaleExpire(r', |r'.events|, p.day)
    ensures !p.carried ==> NoCarriedIncrement(r', |r'.events|, p.day)
  {
    var d;
    r', d := ManyRequests(r, p, Crowd(c, {}, {}), now, n, p.limit - 1, 0, t);
    r' := AddTogether(r', p, d, t, n + p.limit - 1, p.inFlight, t);
  }

  /** The first request of the new day's key: counted before midnight, its EXPIRE still to come. */
  const WAITING := World(Some(Counter(1, None)), {}, {}, map[], map[0 := DAY_MS - 100])

  lemma LeftWaiting(p: Setting) returns (r: Trace)
    requires p.limit >= 2 && p.inFlight >= 2 && p.day == 1
    ensures Reaches(r, p, WAITING, DAY_MS - 100, 0)
  {
    hide Reaches;
    assert Day(DAY_MS - 100) == 0;
    assert START.(counter := Incr(None, DAY_MS - 100), incremented := map[][0 := DAY_MS - 100]) == WAITING;
    hide Day, Incr;
    r := NothingReached(p);
    r := UpToIncrement(r, p, START, 0, 0, 0, DAY_MS - 100);
  }

  lemma CountedBehind(r: Trace, p: Setting) returns (r': Trace, c: Option<Counter>)
    requires p.limit >= 2 && p.inFlight >= 2 && p.day == 1 && Reaches(r, p, WAITING, DAY_MS - 100, 0)
    ensures Reaches(r', p, WAITING.(counter := c), DAY_MS + 100, p.limit - 1)
  {
    hide Reaches;
    assert Day(DAY_MS + 100) == 1 && Today(WAITING.counter, DAY_MS + 100) == 1;
    assert |WAITING.incremented| == 1;
    hide Day, Today, Live;
    r', c := ManyRequests(r, p, WAITING, DAY_MS - 100, 0, p.limit - 1, 1, DAY_MS + 100);
  }

  lemma CutShort(r: Trace, p: Setting, c: Option<Counter>) returns (r': Trace)
    requires p.day == 1 && p.stale && p.limit > 0 && Reaches(r, p, WAITING.(counter := c), DAY_MS + 100, p.limit - 1)
    ensures Reaches(r', p, Crowd(Expire(c, DAY_MS + 200, SecondsLeft(DAY_MS - 100)), {}, {}), DAY_MS + 200, p.limit - 1)
  {
    hide Reaches, Next, Enabled, Expire, SecondsLeft;
    LateStep(c, 0, DAY_MS - 100, DAY_MS + 200, p.limit, p.inFlight);
    assert WAITING.(counter := c) == Crowd(c, {}, {}).(incremented := map[0 := DAY_MS - 100]);
    NoTrouble(WAITING.(counter := c), At(Expired(0), DAY_MS + 200));
    hide CarriedIncrement, StaleExpire;
    r' := Extend(r, p, WAITING.(counter := c), DAY_MS + 100, p.limit - 1, At(Expired(0), DAY_MS + 200));
  }

  lemma DeadByThen(c: Option<Counter>)
    ensures !Live(Expire(c, DAY_MS + 200, SecondsLeft(DAY_MS - 100)), DAY_MS + 1_300)
    ensures Day(DAY_MS + 1_300) == 1
  {
    SecondsBeforeMidnight();
    hide SecondsLeft;
  }

  lemma SecondsBeforeMidnight()
    ensures SecondsLeft(DAY_MS - 100) == SecondsLeft(DAY_MS - 500) == 1
  {
  }

  /** The EXPIRE of the only request in flight. */
  lemma LateStep(c: Option<Counter>, id: Request, computed: nat, t: nat, limit: nat, inFlight: nat)
    ensures var before := Crowd(c, {}, {}).(incremented := map[id := computed]);
      Enabled(before, Expired(id), inFlight)
        && Next(before, At(Expired(id), t), limit) == Crowd(Expire(c, t, SecondsLeft(computed)), {}, {})
  {
    hide Expire, SecondsLeft;
    assert map[id := computed] - {id} == map[];
  }

  /** One request before midnight, whose key lives half a second into the next day. */
  lemma CountedYesterday(p: Setting, yesterday: Option<Counter>) returns (r: Trace)
    requires p.limit >= 2 && p.inFlight >= 1 && p.day == 1 && yesterday == Some(Counter(1, Some(DAY_MS + 500)))
    ensures Reaches(r, p, Crowd(yesterday, {}, {}), DAY_MS - 500, 0)
  {
    hide Next, Enabled, Reaches;
    assert Day(DAY_MS - 500) == 0;
    assert START.(counter := Increment(None, DAY_MS - 500)) == Crowd(yesterday, {}, {}) by { SecondsBeforeMidnight(); }
    hide Increment, Crowd, Day;
    r := NothingReached(p);
    r := OneRequest(r, p, START, 0, 0, 0, DAY_MS - 500);
  }

  /** One request after midnight that finds this key, and sets its expiry only when the key is dead. */
  lemma CarriedOver(r: Trace, p: Setting, yesterday: Option<Counter>, carried: Option<Counter>) returns (r': Trace)
    requires p.limit >= 2 && p.inFlight >= 1 && p.day == 1 && p.carried
    requires yesterday == Some(Counter(1, Some(DAY_MS + 500))) && carried == Some(Counter(2, Some(DAY_MS + 500)))
    requires Reaches(r, p, Crowd(yesterday, {}, {}), DAY_MS - 500, 0)
    ensures Reaches(r', p, Crowd(carried, {}, {}), DAY_MS + 700, 1)
  {
    hide Next, Enabled, Reaches, SecondsLeft;
    var t1, t2 := DAY_MS + 100, DAY_MS + 700;
    assert Day(t1) == Day(t2) == 1;
    var before := Crowd(yesterday, {}, {});
    var waiting := Crowd(carried, {}, {}).(incremented := map[1 := t1]);
    assert before.(counter := Incr(yesterday, t1), incremented := before.incremented[1 := t1]) == waiting;
    assert Today(yesterday, t1) == 1;
    r' := UpToIncrement(r, p, before, DAY_MS - 500, 0, 1, t1);
    LateStep(carried, 1, t1, t2, p.limit, p.inFlight);
    assert Expire(carried, t2, SecondsLeft(t1)) == carried;
    assert !StaleExpire(waiting, At(Expired(1), t2));
    NoTrouble(waiting, At(Expired(1), t2));
    hide CarriedIncrement, StaleExpire, Crowd, Day;
    r' := Extend(r', p, waiting, t1, 1, At(Expired(1), t2));
  }
}
