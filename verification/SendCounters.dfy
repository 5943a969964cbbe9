/**
 * The two send counters of a protocol (overage-metering.service.ts, subscription.repository.ts,
 * subscription.service.ts): one on the protocol row, one on the subscription row, written together and reset apart;
 * and the hourly expiry pass.
 */
module SendCounters {
  import opened JsStrings
  import SubscriptionGuard

  // ------------------------------------------------------------------ the counters

  /** subscription: sendsThisPeriod of the subscription row, if there is one. */
  datatype World = World(protocol: nat, subscription: Option<nat>)

  const START := World(0, None)

  /** The count billing.service.ts reports: the subscription's, or the protocol's without a subscription. */
  function Shown(w: World): nat {
    if w.subscription.Some? then w.subscription.value else w.protocol
  }

  datatype Event =
    | Metered(count: nat, works: bool)
    | JointReset(works: bool)
    | PeriodReset
    | Activated

  function Next(w: World, e: Event): World {
    match e
    case Metered(count, works) =>
      if !works then w
      else World(w.protocol + count, if w.subscription.Some? then Some(w.subscription.value + count) else None)
    case JointReset(works) =>
      if works then World(0, if w.subscription.Some? then Some(0) else None) else w
    case PeriodReset => if w.subscription.Some? then w.(subscription := Some(0)) else w
    case Activated => w.(subscription := Some(0))
  }

  class Billing {
    var protocolSends: nat
    var subscriptionSends: Option<nat>

    function Contents(): World
      reads this
    {
      World(protocolSends, subscriptionSends)
    }

    constructor ()
      ensures Contents() == START
    {
      protocolSends, subscriptionSends := 0, None;
    }

    /** One transaction over both rows; a failed one is logged and changes nothing. */
    method IncrementSendsThisPeriod(count: nat, works: bool)
      modifies this
      ensures Contents() == Next(old(Contents()), Metered(count, works))
    {
      if works {
        protocolSends := protocolSends + count;
        if subscriptionSends.Some? {
          subscriptionSends := Some(subscriptionSends.value + count);
        }
      }
    }

    method ResetSendsThisPeriod(works: bool)
      modifies this
      ensures Contents() == Next(old(Contents()), JointReset(works))
    {
      if works {
        protocolSends := 0;
        if subscriptionSends.Some? {
          subscriptionSends := Some(0);
        }
      }
    }

    /** resetSends of the repository; updating a missing subscription throws. */
    method ResetSends() returns (threw: bool)
      modifies this`subscriptionSends
      ensures Contents() == Next(old(Contents()), PeriodReset)
      ensures threw <==> old(subscriptionSends).None?
    {
      threw := subscriptionSends.None?;
      if !threw {
        subscriptionSends := Some(0);
      }
    }

    /** The counter part of activateFromHelioPayment: create or update the subscription with no sends. */
    method ActivateFromHelioPayment()
      modifies this`subscriptionSends
      ensures Contents() == Next(old(Contents()), Activated)
    {
      subscriptionSends := Some(0);
    }
  }

  // ------------------------------------------------------------------ what the counters mean

  function After(events: seq<Event>): World {
    if events == [] then START else Next(After(events[..|events| - 1]), events[|events| - 1])
  }

  predicate HasSubscription(events: seq<Event>) {
    events != [] && (events[|events| - 1].Activated? || HasSubscription(events[..|events| - 1]))
  }

  /** The metered sends since the last joint reset. */
  function SinceJointReset(events: seq<Event>): nat {
    if events == [] then 0
    else
      match events[|events| - 1]
      case Metered(count, works) => SinceJointReset(events[..|events| - 1]) + if works then count else 0
      case JointReset(works) => if works then 0 else SinceJointReset(events[..|events| - 1])
      case _ => SinceJointReset(events[..|events| - 1])
  }

  /** The metered sends since the last reset of any kind: joint, of a period, or by a paid activation. */
  function SinceAnyReset(events: seq<Event>): nat {
    if events == [] then 0
    else
      var init := events[..|events| - 1];
      match events[|events| - 1]
      case Metered(count, works) => SinceAnyReset(init) + if works then count else 0
      case JointReset(works) => if works then 0 else SinceAnyReset(init)
      case PeriodReset => if HasSubscription(init) then 0 else SinceAnyReset(init)
      case Activated => 0
  }

  /** The sends that subscription-only resets dropped since the last joint reset. */
  function Dropped(events: seq<Event>): nat {
    if events == [] then 0
    else
      var init := events[..|events| - 1];
      match events[|events| - 1]
      case Metered(_, _) => Dropped(init)
      case JointReset(works) => if works then 0 else Dropped(init)
      case PeriodReset => Dropped(init) + if HasSubscription(init) then SinceAnyReset(init) else 0
      case Activated => Dropped(init) + SinceAnyReset(init)
  }

  /**
   * The protocol counter is the sends since the last joint reset, the shown count those since the last reset of any
   * kind.
   */
  lemma {:induction false} CountersMeanSends(events: seq<Event>)
    ensures After(events).protocol == SinceJointReset(events)
    ensures Shown(After(events)) == SinceAnyReset(events)
    ensures After(events).subscription.Some? <==> HasSubscription(events)
  {
    if events != [] {
      CountersMeanSends(events[..|events| - 1]);
    }
  }

  /** In every reachable state the counters differ by exactly what subscription-only resets dropped. */
  lemma {:induction false} CountersDifferByDropped(events: seq<Event>)
    ensures After(events).protocol == Shown(After(events)) + Dropped(events)
  {
    if events != [] {
      CountersDifferByDropped(events[..|events| - 1]);
      CountersMeanSends(events[..|events| - 1]);
    }
  }

  function AllSends(events: seq<Event>): nat {
    if events == [] then 0
    else
      AllSends(events[..|events| - 1])
      + if events[|events| - 1].Metered? && events[|events| - 1].works then events[|events| - 1].count else 0
  }

  /**
   * Nothing calls the joint reset. Without it the protocol counter, which the monthly quota of rate-limit.service.ts
   * reads, is the number of all sends there ever were, whatever periods passed.
   */
  lemma {:induction false} ProtocolCounterNeverRenews(events: seq<Event>)
    requires forall i | 0 <= i < |events| :: !events[i].JointReset?
    ensures After(events).protocol == AllSends(events)
  {
    if events != [] {
      ProtocolCounterNeverRenews(events[..|events| - 1]);
    }
  }

  // ------------------------------------------------------------------ the expiry pass

  type Protocol = nat

  /** A subscription with its protocol's isActive flag. */
  datatype Account = Account(subscribed: bool, protocolActive: bool, periodEnd: nat)

  predicate Stale(a: Account, now: nat) {
    a.subscribed && a.periodEnd < now
  }

  /** The pass takes exactly the subscriptions that the guard already refuses as expired. */
  lemma StaleIsExpiredForGuard(a: Account, now: nat, tier: nat, sends: nat)
    ensures var s := SubscriptionGuard.Subscription(a.subscribed, Some(a.periodEnd), sends);
      Stale(a, now) <==> SubscriptionGuard.Judge(tier, Some(s), now) == SubscriptionGuard.SubscriptionExpired
  {
  }

  function Expired(a: Account): Account {
    a.(subscribed := false, protocolActive := false)
  }

  function StaleOnes(accounts: map<Protocol, Account>, now: nat): set<Protocol> {
    set p | p in accounts && Stale(accounts[p], now)
  }

  /** How the two updates of one found subscription go: the first may throw, or only the second. */
  datatype Fault = NoFault | FirstThrows | SecondThrows

  /** A subscription that expires without its protocol being switched off, since the second update threw. */
  function HalfExpired(a: Account): Account {
    a.(subscribed := false)
  }

  function AfterUpdates(a: Account, fault: Fault): Account {
    match fault
    case NoFault => Expired(a)
    case FirstThrows => a
    case SecondThrows => HalfExpired(a)
  }

  /** The accounts after the listed ones were worked on, each with its own fault. */
  function WithExpired(accounts: map<Protocol, Account>, found: seq<Protocol>,
      faults: map<Protocol, Fault>): map<Protocol, Account>
    requires forall p :: p in found ==> p in faults
  {
    map p | p in accounts :: if p in found then AfterUpdates(accounts[p], faults[p]) else accounts[p]
  }

  /** The listed ones whose both updates went through. */
  function Succeeding(found: seq<Protocol>, faults: map<Protocol, Fault>): nat
    requires forall p :: p in found ==> p in faults
  {
    if found == [] then 0
    else Succeeding(found[..|found| - 1], faults) + if faults[found[|found| - 1]] == NoFault then 1 else 0
  }

  ghost predicate Distinct(s: seq<Protocol>) {
    forall i, j | 0 <= i < j < |s| :: s[i] != s[j]
  }

  lemma NextFound(accounts: map<Protocol, Account>, found: seq<Protocol>, i: nat, faults: map<Protocol, Fault>)
    requires Distinct(found) && i < |found| && forall p :: p in found ==> p in faults && p in accounts
    ensures var before, p := WithExpired(accounts, found[..i], faults), found[i];
      && p in before && before[p] == accounts[p]
      && WithExpired(accounts, found[..i + 1], faults) == before[p := AfterUpdates(accounts[p], faults[p])]
    ensures Succeeding(found[..i + 1], faults)
      == Succeeding(found[..i], faults) + if faults[found[i]] == NoFault then 1 else 0
  {
    assert found[..i + 1][..i] == found[..i];
    assert found[i] !in found[..i];
    assert forall p :: p in found[..i + 1] <==> p in found[..i] || p == found[i];
    hide AfterUpdates;
  }

  lemma NothingExpired(accounts: map<Protocol, Account>, faults: map<Protocol, Fault>)
    ensures WithExpired(accounts, [], faults) == accounts && Succeeding([], faults) == 0
  {
  }

  class SubscriptionService {
    var accounts: map<Protocol, Account>

    constructor (accounts: map<Protocol, Account>)
      ensures this.accounts == accounts
    {
      this.accounts := accounts;
    }

    /** The two updates for one found subscription, each of which may throw. */
    method ExpireOne(p: Protocol, fault: Fault) returns (threw: bool)
      requires p in accounts
      modifies this
      ensures threw <==> fault != NoFault
      ensures accounts == old(accounts)[p := AfterUpdates(old(accounts)[p], fault)]
    {
      if fault == FirstThrows {
        return true;
      }
      accounts := accounts[p := accounts[p].(subscribed := false)];
      if fault == SecondThrows {
        return true;
      }
      accounts := accounts[p := accounts[p].(protocolActive := false)];
      return false;
    }

    /**
     * The loop over the rows that findExpired listed: each ends as its own updates go, and the count is of the whole
     * ones.
     */
    method ExpireStaleSubscriptions(found: seq<Protocol>, faults: map<Protocol, Fault>) returns (count: nat)
      requires Distinct(found) && forall p :: p in found ==> p in accounts && p in faults
      modifies this
      ensures accounts == WithExpired(old(accounts), found, faults)
      ensures count == Succeeding(found, faults)
    {
      count := 0;
      NothingExpired(accounts, faults);
      hide WithExpired, Distinct, AfterUpdates, Succeeding;
      for i := 0 to |found|
        invariant accounts == WithExpired(old(accounts), found[..i], faults)
        invariant count == Succeeding(found[..i], faults)
      {
        NextFound(old(accounts), found, i, faults);
        var threw := ExpireOne(found[i], faults[found[i]]);
        if !threw {
          count := count + 1;
        }
      }
      assert found[..|found|] == found;
    }
  }

  /**
   * When the list is what findExpired selects: no live subscription changes, every stale one expires unless its first
   * update throws, and the ones left with their protocol still switched on are those whose second update threw.
   */
  lemma ExactlyStaleOnesExpire(accounts: map<Protocol, Account>, found: seq<Protocol>, now: nat,
      faults: map<Protocol, Fault>, p: Protocol)
    requires forall q :: q in found <==> q in StaleOnes(accounts, now)
    requires forall q :: q in found ==> q in faults
    requires p in accounts
    ensures p in WithExpired(accounts, found, faults)
    ensures var a := WithExpired(accounts, found, faults)[p];
      && (!Stale(accounts[p], now) ==> a == accounts[p])
      && (Stale(accounts[p], now) ==> (!a.subscribed <==> faults[p] != FirstThrows))
      && (Stale(accounts[p], now) && accounts[p].protocolActive
        ==> (!a.subscribed && a.protocolActive <==> faults[p] == SecondThrows))
  {
  }

  /** A payment that activates the account until periodEnd, or one of the pass's two writes. */
  datatype Write = Paid(periodEnd: nat) | SubscriptionWrite | ProtocolWrite

  function Apply(a: Account, w: Write): Account {
    match w
    case Paid(periodEnd) => Account(true, true, periodEnd)
    case SubscriptionWrite => a.(subscribed := false)
    case ProtocolWrite => a.(protocolActive := false)
  }

  function ApplyAll(a: Account, writes: seq<Write>): Account
    decreases |writes|
  {
    if writes == [] then a else ApplyAll(Apply(a, writes[0]), writes[1..])
  }

  function Payments(ends: seq<nat>): seq<Write> {
    seq(|ends|, i requires 0 <= i < |ends| => Paid(ends[i]))
  }

  lemma {:induction false} ApplyConcat(a: Account, first: seq<Write>, second: seq<Write>)
    ensures ApplyAll(a, first + second) == ApplyAll(ApplyAll(a, first), second)
    decreases |first|
  {
    if first == [] {
      assert first + second == second;
    } else {
      assert (first + second)[1..] == first[1..] + second;
      ApplyConcat(Apply(a, first[0]), first[1..], second);
    }
  }

  lemma {:induction false} PaymentsActivate(a: Account, ends: seq<nat>)
    ensures ApplyAll(a, Payments(ends)) == if ends == [] then a else Account(true, true, ends[|ends| - 1])
    decreases |ends|
  {
    if ends != [] {
      assert Payments(ends)[1..] == Payments(ends[1..]);
      PaymentsActivate(Apply(a, Paid(ends[0])), ends[1..]);
    }
  }

  /**
   * The pass writes without looking again. For every account it found and all payments that arrive between its steps:
   * the account ends subscribed exactly when one arrived after the subscription write, and switched on exactly when
   * one arrived after the protocol write. A payment between the scan and the first write is paid for and lost.
   */
  lemma PaymentsDuringThePass(a: Account, beforeFirst: seq<nat>, between: seq<nat>, later: seq<nat>)
    requires a.subscribed
    ensures var end :=
      ApplyAll(a, Payments(beforeFirst) + [SubscriptionWrite] + Payments(between) + [ProtocolWrite] + Payments(later));
      && (end.subscribed <==> between != [] || later != [])
      && (end.protocolActive <==> later != [])
      && (between + later == [] && beforeFirst != [] ==> end.periodEnd == beforeFirst[|beforeFirst| - 1])
  {
    var w1 := Payments(beforeFirst) + [SubscriptionWrite];
    var w2 := w1 + Payments(between);
    var w3 := w2 + [ProtocolWrite];
    ApplyConcat(a, w3, Payments(later));
    ApplyConcat(a, w2, [ProtocolWrite]);
    ApplyConcat(a, w1, Payments(between));
    ApplyConcat(a, Payments(beforeFirst), [SubscriptionWrite]);
    PaymentsActivate(a, beforeFirst);
    PaymentsActivate(ApplyAll(a, w1), between);
    PaymentsActivate(ApplyAll(a, w3), later);
  }
}
