/**
 * A sandbox key that is locked out for ever (sandbox.service.ts): INCR creates the count without an expiry, and if
 * every EXPIRE that should follow is lost, the count never goes away again.
 */
module SandboxLockout {
  import opened JsStrings
  import opened SandboxQuota

  /** No request is in flight. */
  predicate AtRest(w: World) {
    Idle(w) && w.incremented == map[]
  }

  predicate Locked(c: Option<Counter>, limit: nat) {
    c.Some? && c.value.expiresAt == None && c.value.count >= limit
  }

  /** A run that goes on from w, not before `now`. */
  ghost predicate Continues(r: Trace, w: World, now: nat, limit: nat, inFlight: nat) {
    && |r.worlds| == |r.events| + 1 && r.worlds[0] == w
    && (forall i | 0 <= i < |r.events| :: now <= r.events[i].time)
    && (forall i, j | 0 <= i <= j < |r.events| :: r.events[i].time <= r.events[j].time)
    && forall i | 0 <= i < |r.events| ::
         Enabled(r.worlds[i], r.events[i].event, inFlight) && r.worlds[i + 1] == Next(r.worlds[i], r.events[i], limit)
  }

  ghost predicate CanAddAgain(w: World, now: nat, limit: nat, inFlight: nat) {
    exists r: Trace, i: nat :: Continues(r, w, now, limit, inFlight) && i < |r.events| && r.events[i].event.Added?
  }

  /** At rest a key can add a job at some later time if and only if the limit is not zero and the key is not locked. */
  lemma LockedOutIff(w: World, now: nat, limit: nat, inFlight: nat)
    requires AtRest(w) && inFlight > 0
    ensures CanAddAgain(w, now, limit, inFlight) <==> limit > 0 && !Locked(w.counter, limit)
  {
    hide Next, Enabled, Passing, Adding;
    if limit > 0 && !Locked(w.counter, limit) {
      var t := if Today(w.counter, now) < limit then now else w.counter.value.expiresAt.value + 1;
      FourSteps(w, 0, t, limit, inFlight);
      var r := Trace([w, Passing(w, 0), Adding(w, 0)], [At(Checked(0), t), At(Added(0), t)]);
      assert Continues(r, w, now, limit, inFlight) && r.events[1].event.Added?;
    } else {
      forall r: Trace, i: nat | Continues(r, w, now, limit, inFlight) && i < |r.events|
        ensures !r.events[i].event.Added? {
        NothingChanges(r, w, now, limit, inFlight, i);
      }
    }
  }

  lemma {:induction false} NothingChanges(r: Trace, w: World, now: nat, limit: nat, inFlight: nat, n: nat)
    requires Continues(r, w, now, limit, inFlight) && n <= |r.events|
    requires AtRest(w) && (limit == 0 || Locked(w.counter, limit))
    ensures r.worlds[n] == w && (n < |r.events| ==> !r.events[n].event.Added?)
    decreases n
  {
    if n > 0 {
      NothingChanges(r, w, now, limit, inFlight, n - 1);
    }
  }

  /** The EXPIREs lost among the first n events. */
  function ExpiriesLost(events: seq<At>, n: nat): nat
    requires n <= |events|
  {
    if n == 0 then 0 else ExpiriesLost(events, n - 1) + One(events[n - 1].event.ExpiryLost?)
  }

  /** Every increment of a count without an expiry still waits for its EXPIRE or has lost it. */
  ghost predicate Accounted(w: World, lost: nat) {
    w.counter.Some? && w.counter.value.expiresAt == None ==> w.counter.value.count <= |w.incremented| + lost
  }

  lemma StepAccounts(w: World, e: At, limit: nat, inFlight: nat, lost: nat)
    requires Enabled(w, e.event, inFlight) && Accounted(w, lost)
    ensures Accounted(Next(w, e, limit), lost + One(e.event.ExpiryLost?))
  {
    hide SecondsLeft, InFlight, Today;
    if e.event.Incremented? {
      Put(w.incremented, e.event.id, w.timed[e.event.id]);
    }
    if e.event.Expired? || e.event.ExpiryLost? {
      Taken(w.incremented, e.event.id);
    }
  }

  lemma StartAccounts(r: Trace, limit: nat, inFlight: nat)
    requires IsRun(r, limit, inFlight)
    ensures |r.worlds| == |r.events| + 1 && Accounted(r.worlds[0], 0)
  {
  }

  lemma StepOfRun(r: Trace, limit: nat, inFlight: nat, n: nat)
    requires IsRun(r, limit, inFlight) && n < |r.events| < |r.worlds|
    ensures Enabled(r.worlds[n], r.events[n].event, inFlight)
    ensures r.worlds[n + 1] == Next(r.worlds[n], r.events[n], limit)
  {
    hide Enabled, Next;
  }

  lemma {:induction false} RunAccounts(r: Trace, limit: nat, inFlight: nat, n: nat)
    requires IsRun(r, limit, inFlight) && n <= |r.events| < |r.worlds|
    ensures Accounted(r.worlds[n], ExpiriesLost(r.events, n))
    decreases n
  {
    hide IsRun, Next, Enabled, Accounted;
    StartAccounts(r, limit, inFlight);
    if n > 0 {
      StepOfRun(r, limit, inFlight, n - 1);
      RunAccounts(r, limit, inFlight, n - 1);
      StepAccounts(r.worlds[n - 1], r.events[n - 1], limit, inFlight, ExpiriesLost(r.events, n - 1));
    }
  }

  /** It takes as many lost EXPIREs as the limit to lock a key. */
  lemma LockNeedsLostExpiries(r: Trace, limit: nat, inFlight: nat)
    requires IsRun(r, limit, inFlight) && AtRest(r.worlds[|r.events|]) && Locked(r.worlds[|r.events|].counter, limit)
    ensures ExpiriesLost(r.events, |r.events|) >= limit
  {
    RunAccounts(r, limit, inFlight, |r.events|);
  }

  /** And that is enough: after as many requests whose EXPIRE is lost, one at a time, the key is locked. */
  lemma LockHappens(limit: nat, inFlight: nat) returns (r: Trace)
    requires limit > 0 && inFlight > 0
    ensures IsRun(r, limit, inFlight) && AtRest(r.worlds[|r.events|]) && Locked(r.worlds[|r.events|].counter, limit)
    ensures ExpiriesLost(r.events, |r.events|) == limit
  {
    r := LoseExpiries(limit, limit, inFlight);
  }

  /** At rest after m increments of a count that never got an expiry. */
  function Unexpiring(m: nat): World {
    START.(counter := if m == 0 then None else Some(Counter(m, None)))
  }

  /** A run within the first millisecond, with so many EXPIREs lost, up to w. */
  ghost predicate Arrives(r: Trace, limit: nat, inFlight: nat, w: World, lost: nat) {
    && IsRun(r, limit, inFlight) && r.worlds[|r.events|] == w && ExpiriesLost(r.events, |r.events|) == lost
    && forall i | 0 <= i < |r.events| :: r.events[i].time == 0
  }

  lemma Go(r: Trace, limit: nat, inFlight: nat, w: World, lost: nat, e: Event) returns (r': Trace)
    requires Arrives(r, limit, inFlight, w, lost) && Enabled(w, e, inFlight)
    ensures Arrives(r', limit, inFlight, Next(w, At(e, 0), limit), lost + One(e.ExpiryLost?))
  {
    hide Next, Enabled;
    r' := ExtendIsRun(r, limit, inFlight, At(e, 0));
    LossesOfPrefix(r.events, At(e, 0), |r.events|);
    hide IsRun;
  }

  lemma {:induction false} LossesOfPrefix(events: seq<At>, e: At, n: nat)
    requires n <= |events|
    ensures ExpiriesLost(events + [e], n) == ExpiriesLost(events, n)
  {
    if n > 0 {
      LossesOfPrefix(events, e, n - 1);
    }
  }

  lemma NothingLost(limit: nat, inFlight: nat) returns (r: Trace)
    ensures Arrives(r, limit, inFlight, Unexpiring(0), 0)
  {
    hide Enabled, Next;
    r := Trace([START], []);
  }

  lemma {:induction false} LoseExpiries(m: nat, limit: nat, inFlight: nat) returns (r: Trace)
    requires m <= limit && inFlight > 0
    ensures Arrives(r, limit, inFlight, Unexpiring(m), m)
    decreases m
  {
    hide Arrives, Unexpiring;
    if m == 0 {
      r := NothingLost(limit, inFlight);
    } else {
      r := LoseExpiries(m - 1, limit, inFlight);
      r := LoseOneExpiry(r, m, limit, inFlight);
    }
  }

  /** The m-th request has counted, and its EXPIRE is on its way. */
  function Counted(m: nat): World
    requires m > 0
  {
    var w := Unexpiring(m - 1);
    w.(counter := Incr(w.counter, 0), incremented := map[0 := 0])
  }

  lemma LastLoss(m: nat, limit: nat, inFlight: nat)
    requires 0 < m <= limit && inFlight > 0
    ensures Enabled(Counted(m), ExpiryLost(0), inFlight)
    ensures Next(Counted(m), At(ExpiryLost(0), 0), limit) == Unexpiring(m)
  {
    assert map[0 := 0] - {0} == map[];
  }

  lemma BeforeLoss(m: nat, limit: nat, inFlight: nat)
    requires 0 < m <= limit && inFlight > 0
    ensures var w := Unexpiring(m - 1);
      && Enabled(w, Checked(0), inFlight) && Next(w, At(Checked(0), 0), limit) == Passing(w, 0)
      && Enabled(Passing(w, 0), Added(0), inFlight)
      && Next(Passing(w, 0), At(Added(0), 0), limit) == Adding(w, 0)
      && Enabled(Adding(w, 0), Timed(0), inFlight)
      && Next(Adding(w, 0), At(Timed(0), 0), limit) == Timing(w, 0, 0)
      && Enabled(Timing(w, 0, 0), Incremented(0), inFlight)
      && Next(Timing(w, 0, 0), At(Incremented(0), 0), limit) == Counted(m)
  {
    var w := Unexpiring(m - 1);
    assert w.incremented[0 := 0] == map[0 := 0];
    FourSteps(w, 0, 0, limit, inFlight);
    hide Next, Enabled, Passing, Adding, Timing, Incr;
  }

  lemma LoseOneExpiry(r: Trace, m: nat, limit: nat, inFlight: nat) returns (r': Trace)
    requires 0 < m <= limit && inFlight > 0 && Arrives(r, limit, inFlight, Unexpiring(m - 1), m - 1)
    ensures Arrives(r', limit, inFlight, Unexpiring(m), m)
  {
    hide Arrives, Next, Enabled, Passing, Adding, Timing, Unexpiring, Counted;
    var w := Unexpiring(m - 1);
    BeforeLoss(m, limit, inFlight);
    LastLoss(m, limit, inFlight);
    r' := Go(r, limit, inFlight, w, m - 1, Checked(0));
    r' := Go(r', limit, inFlight, Passing(w, 0), m - 1, Added(0));
    r' := Go(r', limit, inFlight, Adding(w, 0), m - 1, Timed(0));
    r' := Go(r', limit, inFlight, Timing(w, 0, 0), m - 1, Incremented(0));
    r' := Go(r', limit, inFlight, Counted(m), m - 1, ExpiryLost(0));
  }
}
