/**
 * The circuit breaker of the Solana RPC connection (src/solana/rpc-manager.service.ts).
 *
 * The class follows the original field by field. What its counter means over a whole run is stated about the
 * sequence of calls alone, without mentioning the counter: see EpochOf, MaxSuffixExcess and the lemmas after them.
 */
module RpcBreaker {
  import opened JsStrings

  const RECOVERY_MS := 30_000
  const TOLERATED := 5

  datatype Endpoint = Primary | Fallback

  /** A call on the service; `at` is Date.now(). */
  datatype Call = RecordFailure(at: int) | RecordSuccess | GetConnection(at: int)

  datatype Breaker = Breaker(open: bool, failureCount: nat, lastFailureAt: Option<int>, active: Endpoint)

  const CLOSED := Breaker(false, 0, None, Primary)

  function Step(b: Breaker, call: Call, hasFallback: bool): Breaker {
    match call
    case RecordFailure(at) =>
      if b.failureCount + 1 > TOLERATED && hasFallback then Breaker(true, 0, Some(at), Fallback)
      else b.(failureCount := b.failureCount + 1, lastFailureAt := Some(at))
    case RecordSuccess =>
      if b.failureCount > 0 then b.(failureCount := b.failureCount - 1) else b
    case GetConnection(at) =>
      if b.open && b.lastFailureAt.Some? && at - b.lastFailureAt.value > RECOVERY_MS then
        b.(open := false, failureCount := 0, active := Primary)
      else b
  }

  class RpcManager {
    const hasFallback: bool
    var activeConnection: Endpoint
    var circuitBreakerOpen: bool
    var failureCount: nat
    var lastFailureAt: Option<int>

    function State(): Breaker
      reads this
    {
      Breaker(circuitBreakerOpen, failureCount, lastFailureAt, activeConnection)
    }

    constructor (fallbackConfigured: bool)
      ensures hasFallback == fallbackConfigured && State() == CLOSED
    {
      hasFallback := fallbackConfigured;
      activeConnection, circuitBreakerOpen, failureCount, lastFailureAt := Primary, false, 0, None;
    }

    method GetConnection(now: int) returns (connection: Endpoint)
      modifies this
      ensures State() == Step(old(State()), Call.GetConnection(now), hasFallback)
      ensures connection == State().active
    {
      if !circuitBreakerOpen {
        return activeConnection;
      }
      if lastFailureAt.Some? && now - lastFailureAt.value > RECOVERY_MS {
        circuitBreakerOpen := false;
        failureCount := 0;
        activeConnection := Primary;
      }
      connection := activeConnection;
    }

    method RecordFailure(now: int)
      modifies this
      ensures State() == Step(old(State()), Call.RecordFailure(now), hasFallback)
    {
      failureCount := failureCount + 1;
      lastFailureAt := Some(now);
      if failureCount > TOLERATED && hasFallback {
        circuitBreakerOpen := true;
        activeConnection := Fallback;
        failureCount := 0;
      }
    }

    method RecordSuccess()
      modifies this
      ensures State() == Step(old(State()), Call.RecordSuccess, hasFallback)
    {
      if failureCount > 0 {
        failureCount := failureCount - 1;
      }
    }
  }

  // ------------------------------------------------------------------ whole runs

  function Run(calls: seq<Call>, hasFallback: bool): Breaker {
    if calls == [] then CLOSED
    else Step(Run(calls[..|calls| - 1], hasFallback), calls[|calls| - 1], hasFallback)
  }

  /** The last call trips the breaker (opens it, or opens it again). */
  predicate TripsLast(calls: seq<Call>, hasFallback: bool)
    requires calls != []
  {
    var b, last := Run(calls[..|calls| - 1], hasFallback), calls[|calls| - 1];
    last.RecordFailure? && hasFallback && b.failureCount + 1 > TOLERATED
  }

  /** The last call closes an open breaker. */
  predicate RecoversLast(calls: seq<Call>, hasFallback: bool)
    requires calls != []
  {
    var b, last := Run(calls[..|calls| - 1], hasFallback), calls[|calls| - 1];
    last.GetConnection? && b.open && !Step(b, last, hasFallback).open
  }

  /** How many calls had been made when the counter was last set to zero. */
  function LastReset(calls: seq<Call>, hasFallback: bool): (n: nat)
    ensures n <= |calls|
  {
    if calls == [] then 0
    else if TripsLast(calls, hasFallback) || RecoversLast(calls, hasFallback) then |calls|
    else LastReset(calls[..|calls| - 1], hasFallback)
  }

  /** Failures minus successes in a stretch of calls. */
  function Excess(calls: seq<Call>): int {
    if calls == [] then 0
    else
      var last := calls[|calls| - 1];
      Excess(calls[..|calls| - 1]) + Worth(last)
  }

  function Worth(call: Call): int {
    if call.RecordFailure? then 1 else if call.RecordSuccess? then -1 else 0
  }

  /** n is the largest excess of any stretch that starts at or after `from` and runs up to now. */
  ghost predicate MaxSuffixExcess(calls: seq<Call>, from: nat, n: int)
    requires from <= |calls|
  {
    && (exists i | from <= i <= |calls| :: Excess(calls[i..]) == n)
    && (forall i | from <= i <= |calls| :: Excess(calls[i..]) <= n)
  }

  lemma ExcessOfSuffix(calls: seq<Call>, i: nat)
    requires i < |calls|
    ensures Excess(calls[i..]) == Excess(calls[..|calls| - 1][i..]) + Worth(calls[|calls| - 1])
  {
    var n := |calls|;
    assert calls[i..][..n - i - 1] == calls[..n - 1][i..];
    assert calls[i..][n - i - 1] == calls[n - 1];
  }

  lemma EmptySuffix(calls: seq<Call>)
    ensures Excess(calls[|calls|..]) == 0
  {
    assert calls[|calls|..] == [];
  }

  /** The maximum moves with the last call, but never below the empty suffix. */
  lemma MaxSuffixSnoc(calls: seq<Call>, from: nat, m: int)
    requires from < |calls| && MaxSuffixExcess(calls[..|calls| - 1], from, m)
    ensures var w := Worth(calls[|calls| - 1]); MaxSuffixExcess(calls, from, if m + w >= 0 then m + w else 0)
  {
    var n, init, w := |calls|, calls[..|calls| - 1], Worth(calls[|calls| - 1]);
    EmptySuffix(calls);
    forall i | from <= i < n
      ensures Excess(calls[i..]) == Excess(init[i..]) + w
    {
      ExcessOfSuffix(calls, i);
    }
    var best :| from <= best <= n - 1 && Excess(init[best..]) == m;
    assert Excess(calls[best..]) == m + w;
  }

  lemma CounterMoves(calls: seq<Call>, hasFallback: bool)
    requires LastReset(calls, hasFallback) < |calls|
    ensures var init := calls[..|calls| - 1];
      var m := Run(init, hasFallback).failureCount + Worth(calls[|calls| - 1]);
      LastReset(init, hasFallback) == LastReset(calls, hasFallback)
        && Run(calls, hasFallback).failureCount == if m >= 0 then m else 0
  {
  }

  lemma ResetClearsCounter(calls: seq<Call>, hasFallback: bool)
    requires LastReset(calls, hasFallback) == |calls|
    ensures Run(calls, hasFallback).failureCount == 0
  {
  }

  /** failureCount is the maximum over suffixes, since the last reset, of failures minus successes. */
  lemma {:induction false} CounterIsMaxSuffix(calls: seq<Call>, hasFallback: bool)
    ensures MaxSuffixExcess(calls, LastReset(calls, hasFallback), Run(calls, hasFallback).failureCount)
  {
    hide MaxSuffixExcess, Run, Excess, TripsLast, RecoversLast;
    var reset := LastReset(calls, hasFallback);
    if reset < |calls| {
      CounterIsMaxSuffix(calls[..|calls| - 1], hasFallback);
      CounterMoves(calls, hasFallback);
      MaxSuffixSnoc(calls, reset, Run(calls[..|calls| - 1], hasFallback).failureCount);
    } else {
      ResetClearsCounter(calls, hasFallback);
      OnlyEmptySuffix(calls);
    }
  }

  lemma OnlyEmptySuffix(calls: seq<Call>)
    ensures MaxSuffixExcess(calls, |calls|, 0)
  {
    EmptySuffix(calls);
  }

  /** Some stretch of calls since the last reset, ending with the last call, has six more failures than successes. */
  ghost predicate HasOverload(calls: seq<Call>, from: nat)
    requires from <= |calls|
  {
    exists i | from <= i <= |calls| :: Excess(calls[i..]) >= 6
  }

  /** With a fallback configured, the breaker trips exactly at the calls that complete an overloaded stretch. */
  lemma TripsIffOverloaded(calls: seq<Call>)
    requires calls != []
    ensures TripsLast(calls, true) <==> HasOverload(calls, LastReset(calls[..|calls| - 1], true))
  {
    var init, n := calls[..|calls| - 1], |calls|;
    var from, m, w := LastReset(init, true), Run(init, true).failureCount, Worth(calls[|calls| - 1]);
    CounterIsMaxSuffix(init, true);
    CounterStaysTolerated(init);
    MaxSuffixSnoc(calls, from, m);
    if HasOverload(calls, from) {
      var i :| from <= i <= n && Excess(calls[i..]) >= 6;
      assert Excess(calls[i..]) <= m + w;
    }
    if TripsLast(calls, true) {
      var i :| from <= i <= n && Excess(calls[i..]) == m + w;
      assert HasOverload(calls, from);
    }
  }

  /** With a fallback the counter never rests above the tolerated number. */
  lemma {:induction false} CounterStaysTolerated(calls: seq<Call>)
    ensures Run(calls, true).failureCount <= 5
  {
    if calls != [] {
      CounterStaysTolerated(calls[..|calls| - 1]);
    }
  }

  /** Without a fallback nothing ever opens, and the counter is not reset either. */
  lemma {:induction false} NoFallbackNeverOpens(calls: seq<Call>)
    ensures !Run(calls, false).open && Run(calls, false).active == Primary && LastReset(calls, false) == 0
  {
    if calls != [] {
      NoFallbackNeverOpens(calls[..|calls| - 1]);
    }
  }

  /** The fallback is in use exactly while the breaker is open, and only if there is one. */
  lemma {:induction false} FallbackIffOpen(calls: seq<Call>, hasFallback: bool)
    ensures var b := Run(calls, hasFallback);
      (b.active == Fallback <==> b.open) && (b.open ==> hasFallback && b.lastFailureAt.Some?)
  {
    if calls != [] {
      FallbackIffOpen(calls[..|calls| - 1], hasFallback);
    }
  }

  /** The breaker is open exactly if it has tripped and has not recovered since: the last reset was a trip. */
  lemma {:induction false} OpenIffLastResetTripped(calls: seq<Call>, hasFallback: bool)
    ensures var r := LastReset(calls, hasFallback);
      Run(calls, hasFallback).open <==> r > 0 && TripsLast(calls[..r], hasFallback)
  {
    if calls != [] {
      var init := calls[..|calls| - 1];
      OpenIffLastResetTripped(init, hasFallback);
      var r := LastReset(calls, hasFallback);
      if r == |calls| {
        assert calls[..r] == calls;
      } else {
        assert calls[..r] == init[..r];
      }
    }
  }

  /** lastFailureAt is the time of the latest recorded failure. */
  lemma {:induction false} LastFailureIsLatest(calls: seq<Call>, hasFallback: bool)
    ensures match Run(calls, hasFallback).lastFailureAt
      case None => forall j | 0 <= j < |calls| :: !calls[j].RecordFailure?
      case Some(at) => exists j | 0 <= j < |calls| ::
        calls[j] == RecordFailure(at) && forall i | j < i < |calls| :: !calls[i].RecordFailure?
  {
    if calls != [] {
      var init, n := calls[..|calls| - 1], |calls|;
      LastFailureIsLatest(init, hasFallback);
      if calls[n - 1].RecordFailure? {
        assert calls[n - 1] == RecordFailure(calls[n - 1].at);
      } else if Run(init, hasFallback).lastFailureAt.Some? {
        var at := Run(init, hasFallback).lastFailureAt.value;
        var j :| 0 <= j < n - 1 && init[j] == RecordFailure(at) && forall i | j < i < n - 1 :: !init[i].RecordFailure?;
        assert calls[j] == RecordFailure(at);
      }
    }
  }

  /** getConnection hands out the fallback only if a failure was recorded within the last thirty seconds. */
  lemma FallbackOnlyAfterRecentFailure(calls: seq<Call>, hasFallback: bool, now: int)
    requires Run(calls + [Call.GetConnection(now)], hasFallback).active == Fallback
    ensures exists j | 0 <= j < |calls| :: calls[j].RecordFailure? && now - calls[j].at <= 30_000
  {
    var b := Run(calls, hasFallback);
    assert (calls + [Call.GetConnection(now)])[..|calls|] == calls;
    FallbackIffOpen(calls, hasFallback);
    LastFailureIsLatest(calls, hasFallback);
    var j :| 0 <= j < |calls| && calls[j] == RecordFailure(b.lastFailureAt.value);
    assert calls[j].RecordFailure? && now - calls[j].at <= 30_000;
  }

  /** And an open breaker with no failure in the last thirty seconds goes back to the primary when next asked. */
  lemma QuietBreakerRecovers(calls: seq<Call>, hasFallback: bool, now: int)
    requires forall j | 0 <= j < |calls| && calls[j].RecordFailure? :: now - calls[j].at > 30_000
    ensures var b := Run(calls + [Call.GetConnection(now)], hasFallback); b.active == Primary && !b.open
  {
    FallbackIffOpen(calls + [Call.GetConnection(now)], hasFallback);
    if Run(calls + [Call.GetConnection(now)], hasFallback).active == Fallback {
      FallbackOnlyAfterRecentFailure(calls, hasFallback, now);
    }
  }

  // ------------------------------------------------------------------ the same, read off the calls alone

  function LatestFailure(calls: seq<Call>): Option<int> {
    if calls == [] then None
    else if calls[|calls| - 1].RecordFailure? then Some(calls[|calls| - 1].at)
    else LatestFailure(calls[..|calls| - 1])
  }

  /** When the present count began, and whether the breaker is open since then. */
  datatype Epoch = Epoch(start: nat, open: bool)

  /**
   * An epoch ends with the failure that completes an overloaded stretch, if there is a fallback to open on, and with
   * the first connection asked for when the breaker is open and the latest failure is more than 30 s old.
   */
  ghost function EpochOf(calls: seq<Call>, hasFallback: bool): (e: Epoch)
    ensures e.start <= |calls|
  {
    if calls == [] then Epoch(0, false)
    else
      var init, last := calls[..|calls| - 1], calls[|calls| - 1];
      var e := EpochOf(init, hasFallback);
      if last.RecordFailure? && hasFallback && HasOverload(calls, e.start) then Epoch(|calls|, true)
      else if last.GetConnection? && e.open && LatestFailure(init).Some?
        && last.at - LatestFailure(init).value > 30_000 then
        Epoch(|calls|, false)
      else e
  }

  lemma {:induction false} LastFailureIsRead(calls: seq<Call>, hasFallback: bool)
    ensures Run(calls, hasFallback).lastFailureAt == LatestFailure(calls)
  {
    if calls != [] {
      LastFailureIsRead(calls[..|calls| - 1], hasFallback);
    }
  }

  /** The epochs are those of the code: they begin where the counter was reset, and are open when the breaker is. */
  lemma {:induction false} EpochsAreResets(calls: seq<Call>, hasFallback: bool)
    ensures EpochOf(calls, hasFallback) == Epoch(LastReset(calls, hasFallback), Run(calls, hasFallback).open)
  {
    if calls != [] {
      var init := calls[..|calls| - 1];
      EpochsAreResets(init, hasFallback);
      LastFailureIsRead(init, hasFallback);
      hide HasOverload;
      if hasFallback {
        TripsIffOverloaded(calls);
      } else {
        NoFallbackNeverOpens(calls);
        NoFallbackNeverOpens(init);
      }
    }
  }

  /**
   * The counter is the largest excess of failures over successes of any stretch of the epoch that reaches up to now.
   */
  lemma CounterIsReadOffTheCalls(calls: seq<Call>, hasFallback: bool)
    ensures MaxSuffixExcess(calls, EpochOf(calls, hasFallback).start, Run(calls, hasFallback).failureCount)
  {
    EpochsAreResets(calls, hasFallback);
    CounterIsMaxSuffix(calls, hasFallback);
  }

  /** The calls up to now hold no overloaded stretch anywhere. */
  ghost predicate NeverOverloaded(calls: seq<Call>) {
    forall m | 0 <= m <= |calls| :: !HasOverload(calls[..m], 0)
  }

  lemma {:induction false} ClosedUntilOverloaded(calls: seq<Call>)
    requires NeverOverloaded(calls)
    ensures !Run(calls, true).open && LastReset(calls, true) == 0
  {
    if calls != [] {
      var init := calls[..|calls| - 1];
      assert calls[..|calls|] == calls;
      forall m | 0 <= m <= |init| ensures !HasOverload(init[..m], 0) {
        assert init[..m] == calls[..m];
      }
      ClosedUntilOverloaded(init);
      TripsIffOverloaded(calls);
      hide HasOverload;
    }
  }

  /**
   * The breaker first opens exactly with the first call that completes a stretch of six more failures than successes.
   */
  lemma FirstTrip(calls: seq<Call>)
    requires calls != [] && NeverOverloaded(calls[..|calls| - 1])
    ensures !Run(calls[..|calls| - 1], true).open
    ensures Run(calls, true).open <==> HasOverload(calls, 0)
  {
    ClosedUntilOverloaded(calls[..|calls| - 1]);
    TripsIffOverloaded(calls);
    hide HasOverload;
  }
}
