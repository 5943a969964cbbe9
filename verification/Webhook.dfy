/**
 * Webhook delivery (webhook.worker.ts): every attempt first reads the webhook row, then posts, then writes the failure
 * counter, and attempts overlap. How far past the threshold the counter can get, and what an auto-disabled webhook
 * needs to come back.
 */
module Webhook {
  import opened Sets

  type Attempt = nat

  /** The webhook row, and what overlapping attempts that have read it are about to do. */
  datatype World = World(
    isActive: bool,
    failureCount: nat,
    passed: set<Attempt>,
    posted: set<Attempt>,
    disabling: set<Attempt>)

  const START := World(true, 0, {}, {}, {})

  datatype Event =
    | Preflight(id: Attempt)
    | Blocked(id: Attempt)
    | Post(id: Attempt)
    | Finished(id: Attempt, success: bool)
    | Disabled(id: Attempt)
    | OwnerSets(isActive: bool)

  function Running(w: World): set<Attempt> {
    w.passed + w.posted + w.disabling
  }

  /** Attempts between their read of the row and their write of the counter. */
  function InFlight(w: World): set<Attempt> {
    w.passed + w.posted
  }

  predicate Enabled(w: World, e: Event, concurrency: nat) {
    match e
    case Preflight(id) => id !in Running(w) && |Running(w)| < concurrency
    case Blocked(id) => id in w.passed
    case Post(id) => id in w.passed
    case Finished(id, success) => id in w.posted
    case Disabled(id) => id in w.disabling
    case OwnerSets(_) => true
  }

  function Next(w: World, e: Event, threshold: nat): World {
    match e
    case Preflight(id) =>
      if !w.isActive then w
      else if w.failureCount >= threshold then w.(disabling := w.disabling + {id})
      else w.(passed := w.passed + {id})
    case Blocked(id) => w.(passed := w.passed - {id})
    case Post(id) => w.(passed := w.passed - {id}, posted := w.posted + {id})
    case Finished(id, success) =>
      w.(posted := w.posted - {id}, failureCount := if success then 0 else w.failureCount + 1)
    case Disabled(id) => w.(disabling := w.disabling - {id}, isActive := false)
    case OwnerSets(isActive) => w.(isActive := isActive)
  }

  // ------------------------------------------------------------------ one attempt, undisturbed

  datatype Check = InvalidUrl | Refused | Fine
  datatype Response = HttpStatus(code: nat) | NoResponse

  predicate Ok(r: Response) {
    r.HttpStatus? && 200 <= r.code < 300
  }

  /** The response codes that count as delivered are the two hundreds. */
  lemma DeliveredByTwoHundreds(r: Response)
    ensures Ok(r) <==> r != NoResponse && r.code / 100 == 2
  {
  }

  datatype Delivery = Delivery(attempt: nat, success: bool)

  /** The events of one attempt from start to end. */
  function AttemptEvents(w: World, id: Attempt, threshold: nat, check: Check, response: Response): seq<Event> {
    if !w.isActive then [Preflight(id)]
    else if w.failureCount >= threshold then [Preflight(id), Disabled(id)]
    else if check != Fine then [Preflight(id), Blocked(id)]
    else [Preflight(id), Post(id), Finished(id, Ok(response))]
  }

  function After(w: World, events: seq<Event>, threshold: nat): World
    decreases |events|
  {
    if events == [] then w else After(Next(w, events[0], threshold), events[1..], threshold)
  }

  /** What one undisturbed attempt leaves, on a webhook with nothing else in flight. */
  lemma AttemptEffect(isActive: bool, failureCount: nat, threshold: nat, check: Check, response: Response)
    ensures var w := World(isActive, failureCount, {}, {}, {});
      var over := isActive && failureCount >= threshold;
      var posts := isActive && !over && check == Fine;
      var count := if !posts then failureCount else if Ok(response) then 0 else failureCount + 1;
      After(w, AttemptEvents(w, 0, threshold, check, response), threshold)
      == World(isActive && !over, count, {}, {}, {})
  {
    var w := World(isActive, failureCount, {}, {}, {});
    assert {0} - {0} == {} && {} + {0} == {0};
    var events := AttemptEvents(w, 0, threshold, check, response);
    if |events| == 1 {
      assert After(w, events, threshold) == After(Next(w, events[0], threshold), [], threshold);
    } else if |events| == 2 {
      var w1 := Next(w, events[0], threshold);
      assert After(w, events, threshold) == After(w1, [events[1]], threshold)
        == After(Next(w1, events[1], threshold), [], threshold);
    } else {
      var w1 := Next(w, events[0], threshold);
      var w2 := Next(w1, events[1], threshold);
      assert events[1..] == [events[1], events[2]] && events[1..][1..] == [events[2]];
      assert After(w, events, threshold) == After(w2, [events[2]], threshold)
        == After(Next(w2, events[2], threshold), [], threshold);
    }
  }

  class WebhookWorker {
    const autoDisableThreshold: nat
    var isActive: bool
    var failureCount: nat
    var deliveries: seq<Delivery>

    constructor (threshold: nat)
      ensures autoDisableThreshold == threshold && isActive && failureCount == 0 && deliveries == []
    {
      autoDisableThreshold, isActive, failureCount, deliveries := threshold, true, 0, [];
    }

    function Contents(): World
      reads this
    {
      World(isActive, failureCount, {}, {}, {})
    }

    /** A thrown attempt is retried by the queue; every post is recorded, with the number of the attempt. */
    method Process(attemptsMade: nat, check: Check, response: Response) returns (threw: bool)
      modifies this
      ensures var events := AttemptEvents(old(Contents()), 0, autoDisableThreshold, check, response);
        Contents() == After(old(Contents()), events, autoDisableThreshold)
      ensures var posts := old(isActive) && old(failureCount) < autoDisableThreshold && check == Fine;
        && deliveries == old(deliveries) + (if posts then [Delivery(attemptsMade + 1, Ok(response))] else [])
        && (threw <==>
              || (posts && !Ok(response))
              || (old(isActive) && old(failureCount) < autoDisableThreshold && check == Refused))
    {
      AttemptEffect(isActive, failureCount, autoDisableThreshold, check, response);
      hide After, AttemptEvents;
      if !isActive {
        return false;
      }
      if failureCount >= autoDisableThreshold {
        isActive := false;
        return false;
      }
      if check == InvalidUrl {
        return false;
      }
      if check == Refused {
        return true;
      }
      var success := response.HttpStatus? && response.code >= 200 && response.code < 300;
      threw := !success;
      deliveries := deliveries + [Delivery(attemptsMade + 1, success)];
      if success {
        failureCount := 0;
      } else {
        failureCount := failureCount + 1;
      }
    }
  }

  // ------------------------------------------------------------------ runs of overlapping attempts

  ghost predicate IsRun(worlds: seq<World>, events: seq<Event>, threshold: nat, concurrency: nat) {
    && |worlds| == |events| + 1
    && forall i | 0 <= i < |events| ::
      Enabled(worlds[i], events[i], concurrency) && worlds[i + 1] == Next(worlds[i], events[i], threshold)
  }

  /** The failed posts since the last successful one, in the order their results were written. */
  function FailuresSinceSuccess(events: seq<Event>): nat {
    if events == [] then 0
    else
      match events[|events| - 1]
      case Finished(_, success) => if success then 0 else FailuresSinceSuccess(events[..|events| - 1]) + 1
      case _ => FailuresSinceSuccess(events[..|events| - 1])
  }

  /** failureCount is the length of the current row of failures: nothing but a successful post resets it. */
  lemma {:induction false} CountIsFailuresSinceSuccess(worlds: seq<World>, events: seq<Event>, threshold: nat,
      concurrency: nat, n: nat)
    requires IsRun(worlds, events, threshold, concurrency) && worlds[0] == START && n <= |events|
    ensures worlds[n].failureCount == FailuresSinceSuccess(events[..n])
  {
    if n > 0 {
      CountIsFailuresSinceSuccess(worlds, events, threshold, concurrency, n - 1);
      assert events[..n][..n - 1] == events[..n - 1];
      assert worlds[n] == Next(worlds[n - 1], events[n - 1], threshold);
    }
  }

  ghost predicate Bounded(w: World, threshold: nat, concurrency: nat) {
    && w.passed !! w.posted && w.passed !! w.disabling && w.posted !! w.disabling
    && |w.passed| + |w.posted| + |w.disabling| <= concurrency
    && w.failureCount + |w.passed| + |w.posted| <= threshold + concurrency - 1
  }

  lemma RunningIsSum(w: World)
    requires w.passed !! w.posted && w.passed !! w.disabling && w.posted !! w.disabling
    ensures |Running(w)| == |w.passed| + |w.posted| + |w.disabling|
  {
    assert |w.passed + w.posted| == |w.passed| + |w.posted|;
    assert |w.passed + w.posted + w.disabling| == |w.passed + w.posted| + |w.disabling|;
  }

  lemma PreflightKeepsBound(w: World, id: Attempt, threshold: nat, concurrency: nat)
    requires Bounded(w, threshold, concurrency) && Enabled(w, Preflight(id), concurrency)
    ensures Bounded(Next(w, Preflight(id), threshold), threshold, concurrency)
  {
    RunningIsSum(w);
    assert |w.passed + {id}| <= |w.passed| + 1 && |w.disabling + {id}| <= |w.disabling| + 1;
  }

  lemma PostKeepsBound(w: World, id: Attempt, threshold: nat, concurrency: nat)
    requires Bounded(w, threshold, concurrency) && id in w.passed
    ensures Bounded(Next(w, Post(id), threshold), threshold, concurrency)
  {
    assert |w.passed - {id}| == |w.passed| - 1 && |w.posted + {id}| == |w.posted| + 1;
  }

  lemma FinishKeepsBound(w: World, id: Attempt, success: bool, threshold: nat, concurrency: nat)
    requires Bounded(w, threshold, concurrency) && id in w.posted && concurrency > 0
    ensures Bounded(Next(w, Finished(id, success), threshold), threshold, concurrency)
  {
    assert |w.posted - {id}| == |w.posted| - 1;
  }

  lemma LeaveKeepsBound(w: World, id: Attempt, threshold: nat, concurrency: nat)
    requires Bounded(w, threshold, concurrency)
    ensures Bounded(Next(w, Blocked(id), threshold), threshold, concurrency)
    ensures Bounded(Next(w, Disabled(id), threshold), threshold, concurrency)
  {
    assert |w.passed - {id}| <= |w.passed|;
    assert |w.disabling - {id}| <= |w.disabling|;
  }

  lemma StepKeepsBound(w: World, e: Event, threshold: nat, concurrency: nat)
    requires Bounded(w, threshold, concurrency) && Enabled(w, e, concurrency) && concurrency > 0
    ensures Bounded(Next(w, e, threshold), threshold, concurrency)
  {
    match e
    case Preflight(id) =>
      PreflightKeepsBound(w, id, threshold, concurrency);
      hide Next, Bounded;
    case Post(id) =>
      PostKeepsBound(w, id, threshold, concurrency);
      hide Next, Bounded;
    case Finished(id, success) =>
      FinishKeepsBound(w, id, success, threshold, concurrency);
      hide Next, Bounded;
    case Blocked(id) =>
      LeaveKeepsBound(w, id, threshold, concurrency);
      hide Next, Bounded;
    case Disabled(id) =>
      LeaveKeepsBound(w, id, threshold, concurrency);
      hide Next, Bounded;
    case OwnerSets(_) =>
  }

  /** With at most c attempts at once, the counter and the attempts in flight never add up to more than T + c - 1. */
  lemma {:induction false} OvershootIsBounded(worlds: seq<World>, events: seq<Event>, threshold: nat,
      concurrency: nat, n: nat)
    requires IsRun(worlds, events, threshold, concurrency) && worlds[0] == START && n <= |events| && concurrency > 0
    ensures Bounded(worlds[n], threshold, concurrency)
    ensures worlds[n].failureCount <= threshold + concurrency - 1
  {
    if n > 0 {
      OvershootIsBounded(worlds, events, threshold, concurrency, n - 1);
      StepKeepsBound(worlds[n - 1], events[n - 1], threshold, concurrency);
    }
  }

  ghost predicate Reaches(worlds: seq<World>, events: seq<Event>, threshold: nat, concurrency: nat, w: World) {
    IsRun(worlds, events, threshold, concurrency) && worlds[0] == START && worlds[|events|] == w
  }

  lemma Extend(worlds: seq<World>, events: seq<Event>, threshold: nat, concurrency: nat, w: World, e: Event)
    returns (worlds': seq<World>, events': seq<Event>)
    requires Reaches(worlds, events, threshold, concurrency, w) && Enabled(w, e, concurrency)
    ensures Reaches(worlds', events', threshold, concurrency, Next(w, e, threshold))
  {
    worlds', events' := worlds + [Next(w, e, threshold)], events + [e];
    hide Next, Enabled;
  }

  /** n failures one after the other, while the counter is still below the threshold. */
  lemma {:induction false} FailInARow(n: nat, threshold: nat, concurrency: nat)
      returns (worlds: seq<World>, events: seq<Event>)
    requires n <= threshold && concurrency > 0
    ensures Reaches(worlds, events, threshold, concurrency, START.(failureCount := n))
  {
    if n == 0 {
      worlds, events := [START], [];
    } else {
      hide Reaches, Next, Enabled;
      var w := START.(failureCount := n - 1);
      worlds, events := FailInARow(n - 1, threshold, concurrency);
      PostSteps(w, 0, threshold, concurrency);
      worlds, events := Extend(worlds, events, threshold, concurrency, w, Preflight(0));
      worlds, events := Extend(worlds, events, threshold, concurrency, w.(passed := {0}), Post(0));
      FailStep(w.(posted := w.posted + {0}), 0, threshold, concurrency);
      assert w.posted + {0} - {0} == {};
      worlds, events :=
        Extend(worlds, events, threshold, concurrency, w.(posted := w.posted + {0}), Finished(0, false));
    }
  }

  /** A new attempt passes the check and posts. */
  lemma PostSteps(w: World, id: Attempt, threshold: nat, concurrency: nat)
    requires w.isActive && w.failureCount < threshold && w.passed == {} && w.disabling == {}
    requires id !in w.posted && |w.posted| < concurrency
    ensures Enabled(w, Preflight(id), concurrency) && Next(w, Preflight(id), threshold) == w.(passed := {id})
    ensures Enabled(w.(passed := {id}), Post(id), concurrency)
    ensures Next(w.(passed := {id}), Post(id), threshold) == w.(posted := w.posted + {id})
  {
    assert Running(w) == w.posted;
    assert {id} - {id} == {} && {} + {id} == {id};
  }

  lemma FailStep(w: World, id: Attempt, threshold: nat, concurrency: nat)
    requires id in w.posted
    ensures Enabled(w, Finished(id, false), concurrency)
    ensures Next(w, Finished(id, false), threshold) == w.(posted := w.posted - {id}, failureCount := w.failureCount + 1)
  {
  }

  /** n posts are under way, and so many failures are counted. */
  function Posting(failures: nat, posted: set<Attempt>): World {
    START.(failureCount := failures, posted := posted)
  }

  lemma {:induction false} PostTogether(n: nat, threshold: nat, concurrency: nat)
      returns (worlds: seq<World>, events: seq<Event>)
    requires n <= concurrency && concurrency > 0 && threshold > 0
    ensures Reaches(worlds, events, threshold, concurrency, Posting(threshold - 1, Ids(0, n)))
  {
    hide Reaches, Next, Enabled;
    if n == 0 {
      worlds, events := FailInARow(threshold - 1, threshold, concurrency);
      assert Ids(0, 0) == {};
    } else {
      worlds, events := PostTogether(n - 1, threshold, concurrency);
      var w := Posting(threshold - 1, Ids(0, n - 1));
      IdsAre(0, n - 1);
      PostSteps(w, n - 1, threshold, concurrency);
      assert Ids(0, n) == Ids(0, n - 1) + {n - 1};
      hide Ids;
      worlds, events := Extend(worlds, events, threshold, concurrency, w, Preflight(n - 1));
      worlds, events := Extend(worlds, events, threshold, concurrency, w.(passed := {n - 1}), Post(n - 1));
    }
  }

  lemma {:induction false} FailTogether(n: nat, threshold: nat, concurrency: nat)
      returns (worlds: seq<World>, events: seq<Event>)
    requires n <= concurrency && concurrency > 0 && threshold > 0
    ensures Reaches(worlds, events, threshold, concurrency, Posting(threshold - 1 + n, Ids(n, concurrency)))
  {
    hide Reaches, Next, Enabled, Ids;
    if n == 0 {
      worlds, events := PostTogether(concurrency, threshold, concurrency);
    } else {
      worlds, events := FailTogether(n - 1, threshold, concurrency);
      var w := Posting(threshold - 1 + n - 1, Ids(n - 1, concurrency));
      IdsFront(n, concurrency);
      assert Ids(n, concurrency) + {n - 1} - {n - 1} == Ids(n, concurrency);
      FailStep(w, n - 1, threshold, concurrency);
      worlds, events := Extend(worlds, events, threshold, concurrency, w, Finished(n - 1, false));
    }
  }

  /** The bound is reached, for every threshold and every concurrency: c posts start at T - 1 failures, and all fail. */
  lemma OvershootHappens(threshold: nat, concurrency: nat) returns (worlds: seq<World>, events: seq<Event>)
    requires concurrency > 0 && threshold > 0
    ensures IsRun(worlds, events, threshold, concurrency) && worlds[0] == START
    ensures worlds[|events|].failureCount == threshold + concurrency - 1
  {
    worlds, events := FailTogether(concurrency, threshold, concurrency);
  }

  // ------------------------------------------------------------------ a webhook that never comes back

  predicate Dead(w: World, threshold: nat) {
    w.failureCount >= threshold && InFlight(w) == {}
  }

  /** At or above the threshold with nothing in flight, no run ever posts again, whatever the owner does. */
  lemma {:induction false} DeadStaysDead(worlds: seq<World>, events: seq<Event>, threshold: nat, concurrency: nat,
      n: nat)
    requires IsRun(worlds, events, threshold, concurrency) && Dead(worlds[0], threshold) && n <= |events|
    ensures Dead(worlds[n], threshold) && worlds[n].failureCount == worlds[0].failureCount
    ensures n < |events| ==> !events[n].Post?
  {
    if n > 0 {
      DeadStaysDead(worlds, events, threshold, concurrency, n - 1);
      assert worlds[n] == Next(worlds[n - 1], events[n - 1], threshold)
        && Enabled(worlds[n - 1], events[n - 1], concurrency);
    }
    if n < |events| {
      assert Enabled(worlds[n], events[n], concurrency);
    }
  }

  ghost predicate CanPost(w: World, threshold: nat, concurrency: nat) {
    exists worlds: seq<World>, events: seq<Event> ::
      IsRun(worlds, events, threshold, concurrency) && worlds[0] == w && exists e | e in events :: e.Post?
  }

  /** A webhook at rest can post again, with the owner's help, if and only if its counter is below the threshold. */
  lemma PostsAgainIffBelowThreshold(w: World, threshold: nat, concurrency: nat)
    requires Running(w) == {} && concurrency > 0
    ensures CanPost(w, threshold, concurrency) <==> w.failureCount < threshold
  {
    if w.failureCount < threshold {
      var e0, e1, e2 := OwnerSets(true), Preflight(0), Post(0);
      var w1 := Next(w, e0, threshold);
      var w2 := Next(w1, e1, threshold);
      var worlds, events := [w, w1, w2, Next(w2, e2, threshold)], [e0, e1, e2];
      assert Running(w1) == {};
      assert e2 in events;
      assert IsRun(worlds, events, threshold, concurrency);
    } else {
      assert Dead(w, threshold);
      forall worlds: seq<World>, events: seq<Event> | IsRun(worlds, events, threshold, concurrency) && worlds[0] == w
        ensures forall e | e in events :: !e.Post?
      {
        forall i | 0 <= i < |events| ensures !events[i].Post? {
          DeadStaysDead(worlds, events, threshold, concurrency, i);
        }
      }
    }
  }

  // ------------------------------------------------------------------ when a webhook is disabled

  /** From the threshold on, the next attempt switches the webhook off instead of posting. */
  lemma NextAttemptDisables(w: World, id: Attempt, threshold: nat, concurrency: nat)
    requires w.isActive && w.failureCount >= threshold && Enabled(w, Preflight(id), concurrency)
    ensures var read := Next(w, Preflight(id), threshold);
      && read.isActive && Enabled(read, Disabled(id), concurrency) && !Enabled(read, Post(id), concurrency)
      && !Next(read, Disabled(id), threshold).isActive
      && Next(read, Disabled(id), threshold).failureCount == w.failureCount
  {
  }

  /** And only then: a webhook that its owner never switched off is off only if an attempt read such a counter. */
  lemma {:induction false} DisabledOnlyAtThreshold(worlds: seq<World>, events: seq<Event>, threshold: nat,
      concurrency: nat, n: nat)
    requires IsRun(worlds, events, threshold, concurrency) && worlds[0] == START && n <= |events|
    requires forall i | 0 <= i < n :: events[i] != OwnerSets(false)
    requires !worlds[n].isActive || worlds[n].disabling != {}
    ensures exists i | 0 <= i < n :: events[i].Preflight? && worlds[i].failureCount >= threshold
    decreases n
  {
    var w, e := worlds[n - 1], events[n - 1];
    assert Enabled(w, e, concurrency) && worlds[n] == Next(w, e, threshold);
    if !w.isActive || w.disabling != {} {
      DisabledOnlyAtThreshold(worlds, events, threshold, concurrency, n - 1);
    } else {
      assert e.Preflight? && w.failureCount >= threshold;
    }
  }
}
