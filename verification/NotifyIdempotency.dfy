/**
 * What the production idempotency protocol guarantees (notify.service.ts, queueProductionNotification): how many
 * delivery jobs one key can get, who acts under it, and what the answers say. First for Redis alone, then with the
 * unique index of the notification table; and the service method, as the run of one request that nothing disturbs.
 */
module NotifyIdempotency {
  import opened JsStrings
  import opened Sets
  import opened NotifyProtocol

  // ------------------------------------------------------------------ main results

  /**
   * In every run, the jobs enqueued under one key are at most one, plus one for each expiry of the key, each
   * release by a failed sandbox send, and each add that timed out.
   */
  lemma JobsBounded(steps: seq<Step>, k: Key)
    ensures var s := Run(steps);
      |JobsOf(s, k)| <= 1 + s.expiries[k] + s.foreignReleases[k] + |TimedOutOf(s, k)|
  {
    PotentialNeverGrows(steps, k);
  }

  /**
   * Without the index the bound is reached for all its terms at once: for every number of expiries, foreign releases
   * and timed-out adds, some reachable state has one job more than they are.
   */
  lemma BoundIsReached(k: Key, expiries: nat, releases: nat, timeouts: nat) returns (s: State)
    ensures Reachable(s) && s.expiries[k] == expiries && s.foreignReleases[k] == releases
      && |TimedOutOf(s, k)| == timeouts
    ensures |JobsOf(s, k)| == 1 + expiries + releases + timeouts
  {
    hide Reachable;
    var n := expiries + releases + timeouts;
    var last := ReachRound(k, expiries, releases, timeouts);
    s := QueueOne(last, k, n);
    OneMoreCounts(last, s, k, n, false);
  }

  /** One timed-out add whose command lands after all: two jobs. */
  lemma TimeoutAllowsTwoJobs(k: Key)
    ensures exists s :: Reachable(s) && Undisturbed(s, k) && JobsOf(s, k) == {1, 2} && TimedOutOf(s, k) == {1}
  {
    hide Reachable, JobsOf, TimedOutOf;
    InitialIsReachable();
    var a := TimeOutOne(INITIAL, k, 1);
    var b := QueueOne(a, k, 2);
    FirstRound(k);
    OneMoreCounts(INITIAL, a, k, 1, true);
    OneMoreIds(INITIAL, a, k, 1, true);
    OneMoreCounts(a, b, k, 2, false);
    assert |JobsOf(INITIAL, k)| == |TimedOutOf(INITIAL, k)| == 0;
  }

  /** The key deleted behind its holder's back, by expiry or by a failed sandbox send: two jobs. */
  lemma DisturbanceAllowsTwoJobs(k: Key, expiry: bool)
    ensures exists s ::
      && Reachable(s) && JobsOf(s, k) == {1, 2} && TimedOutOf(s, k) == {}
      && s.expiries[k] == One(expiry) && s.foreignReleases[k] == One(!expiry)
  {
    hide Reachable;
    var c := ReachDisturbed(k, expiry);
    var d := ReachEnqueueing(c, 2, k);
    var e := ReachQueued(d, 2, k);
    assert HasKey(e, 1, k) && HasKey(e, 2, k) && e.jobs == [1, 2] && e.timedOut == {};
    assert JobsOf(e, k) == {1, 2} && TimedOutOf(e, k) == {};
  }

  /** Each request's job is in the queue once, so the set counts the queue's entries. */
  lemma JobsAreDistinct(steps: seq<Step>)
    ensures forall i, j | 0 <= i < j < |Run(steps).jobs| :: Run(steps).jobs[i] != Run(steps).jobs[j]
  {
    RunKeepsInv(steps);
  }

  /** With the unique index: at most one delivery job for a key, whatever expires, times out or is released. */
  lemma AtMostOneJobEver(steps: seq<Step>, k: Key, a: Id, b: Id)
    requires UniqueRows(steps) && a in JobsOf(Run(steps), k) && b in JobsOf(Run(steps), k)
    ensures a == b
  {
    RunKeepsInv(steps);
    RunRowsDiffer(steps);
    assert RequestInv(Run(steps), a) && RequestInv(Run(steps), b);
  }

  /**
   * The price of the unique index: the key is released after a failed enqueue so that the client can try again, but the
   * failed row stays, so no later request with the key is ever queued.
   */
  lemma FailedKeyIsSpent(steps: seq<Step>, later: seq<Step>, k: Key, id: Id)
    requires UniqueRows(steps + later) && Spent(Run(steps), k, id)
    ensures JobsOf(Run(steps + later), k) == {}
  {
    var s := Run(steps + later);
    StaysSpent(steps, later, k, id);
    RunKeepsInv(steps + later);
    RunRowsDiffer(steps + later);
    assert RequestInv(s, id);
    assert id !in s.jobs;
    forall job | job in JobsOf(s, k) ensures job == id {
      JobIsRowOwner(s, k, id, job);
    }
  }

  /**
   * A `duplicate` answer names the holder of the key at the moment of the GET, or the asker if the key was just
   * released.
   */
  lemma {:induction false} DuplicateNamesTheHolder(steps: seq<Step>, id: Id) returns (i: nat)
    requires var s := Run(steps); id in s.requests && s.requests[id].pc.Done? && s.requests[id].pc.answer.Duplicate?
    ensures i < |steps| && steps[i] == ReadHolder(id) && Run(steps).requests[id].key.Some?
    ensures var k, then_ := Run(steps).requests[id].key.value, Run(steps[..i]);
      Run(steps).requests[id].pc.answer.of == if k in then_.keys then then_.keys[k] else id
  {
    hide Apply;
    var init, step := steps[..|steps| - 1], steps[|steps| - 1];
    var s := Run(init);
    assert Run(steps) == Apply(s, step);
    if step == ReadHolder(id) {
      ReadHolderEffect(s, id);
    } else {
      AnswersStay(s, step, id);
    }
    if step == ReadHolder(id) && At(s, id, Contended) && s.requests[id].key.Some? {
      i := |steps| - 1;
    } else {
      hide Run;
      i := DuplicateNamesTheHolder(init, id);
      assert init[..i] == steps[..i];
    }
  }

  /** `queued` means the job is in the queue; `failed` means it is not, unless its add had timed out. */
  lemma AnswersTellTheQueue(steps: seq<Step>, id: Id)
    requires id in Run(steps).requests
    ensures var s := Run(steps);
      && (s.requests[id].pc == Done(Queued) ==> id in s.jobs)
      && (s.requests[id].pc == Done(EnqueueFailed) && id in s.jobs ==> id in s.timedOut)
      && (id in s.jobs ==> id in s.rows)
  {
    RunKeepsInv(steps);
    assert RequestInv(Run(steps), id);
  }

  /** Within the key's lifetime and without timeouts: at most one delivery job for a key, ever. */
  lemma AtMostOneJob(steps: seq<Step>, k: Key, a: Id, b: Id)
    requires var s := Run(steps); Undisturbed(s, k) && TimedOutOf(s, k) == {} && a in JobsOf(s, k) && b in JobsOf(s, k)
    ensures a == b
  {
    JobsBounded(steps, k);
    var jobs := JobsOf(Run(steps), k);
    if a != b {
      assert {a, b} <= jobs;
      SubsetCardinality({a, b}, jobs);
    }
  }

  /** While the key is undisturbed, only its current holder is at the enqueue, and only it deletes the key. */
  lemma OnlyHolderActs(steps: seq<Step>, k: Key, id: Id)
    requires Undisturbed(Run(steps), k) && HasKey(Run(steps), id, k)
    requires var pc := Run(steps).requests[id].pc; pc.Enqueueing? || pc.Marking? || pc.Releasing?
    ensures k in Run(steps).keys && Run(steps).keys[k] == id
  {
    RunKeepsInv(steps);
    assert KeyInv(Run(steps), k);
  }

  /** So it names a request with the same key that did claim it, or the request itself. */
  lemma DuplicateNamesAClaimant(steps: seq<Step>, id: Id)
    requires var s := Run(steps); id in s.requests && s.requests[id].pc.Done? && s.requests[id].pc.answer.Duplicate?
    ensures var s := Run(steps);
      var of := s.requests[id].pc.answer.of;
      of == id || (s.requests[id].key.Some? && HasKey(s, of, s.requests[id].key.value) && s.requests[of].claimed)
  {
    RunKeepsInv(steps);
    assert RequestInv(Run(steps), id);
  }

  // ------------------------------------------------------------------ one request, undisturbed

  /** What Redis, the tables and the queue hold between requests. */
  datatype Store = Store(keys: map<Key, Id>, rows: map<Id, RowStatus>, jobs: seq<Id>)

  function StoreOf(s: State): Store {
    Store(s.keys, s.rows, s.jobs)
  }

  /** What a request meets: the gate and the scan, the row insert, the add, and the two swallowed writes. */
  datatype Env = Env(refused: bool, createThrows: bool, added: bool, markWritten: bool, delWritten: bool)

  /** From the template gate on. */
  function TailSteps(id: Id, keyed: bool, env: Env): seq<Step> {
    if env.refused then [Refuse(id)]
    else if env.createThrows then [Die(id)]
    else if env.added then [CreateRow(id), AddSucceeds(id)]
    else
      [CreateRow(id), AddRejected(id), MarkFailed(id, env.markWritten)]
      + if keyed then [Release(id, env.delWritten)] else []
  }

  function RequestSteps(keys: map<Key, Id>, id: Id, key: Option<Key>, env: Env): seq<Step> {
    if key.None? then [Arrive(id, key)] + TailSteps(id, false, env)
    else if key.value in keys then [Arrive(id, key), Claim(id), ReadHolder(id)]
    else [Arrive(id, key), Claim(id)] + TailSteps(id, true, env)
  }

  function ApplyAll(s: State, steps: seq<Step>): State
    decreases |steps|
  {
    if steps == [] then s else ApplyAll(Apply(s, steps[0]), steps[1..])
  }

  class NotifyService {
    var keys: map<Key, Id>
    var rows: map<Id, RowStatus>
    var jobs: seq<Id>

    function Contents(): Store
      reads this
    {
      Store(keys, rows, jobs)
    }

    constructor ()
      ensures Contents() == StoreOf(INITIAL)
    {
      keys, rows, jobs := map[], map[], [];
    }

    /**
     * queueProductionNotification in the order of the source; `Died` is the exception of a failed insert. It is a run
     * of the protocol, and in its own terms: a key that is taken answers with its holder and changes nothing. Otherwise
     * the job is queued exactly if the answer says so, the row says queued or failed with it, and the key is taken, or
     * free again after a failed enqueue.
     */
    method QueueProductionNotification(notificationId: Id, idempotencyKey: Option<Key>, env: Env)
        returns (answer: Answer)
      modifies this
      ensures forall s: State | StoreOf(s) == old(Contents()) && notificationId !in s.requests ::
                var t := ApplyAll(s, RequestSteps(s.keys, notificationId, idempotencyKey, env));
                StoreOf(t) == Contents() && At(t, notificationId, Done(answer))
      ensures var taken := idempotencyKey.Some? && idempotencyKey.value in old(keys);
        && (answer.Duplicate? <==> taken) && (taken ==> answer.of == old(keys)[idempotencyKey.value])
        && (answer == Blocked <==> !taken && env.refused)
        && (answer == Died <==> !taken && !env.refused && env.createThrows)
        && (answer == Queued <==> !taken && !env.refused && !env.createThrows && env.added)
      ensures jobs == old(jobs) + if answer == Queued then [notificationId] else []
      ensures answer == Queued ==> rows == old(rows)[notificationId := RowQueued]
      ensures answer == EnqueueFailed ==>
        rows == old(rows)[notificationId := if env.markWritten then RowFailed else RowQueued]
      ensures answer != Queued && answer != EnqueueFailed ==> rows == old(rows)
      ensures idempotencyKey.None? || answer.Duplicate? ==> keys == old(keys)
      ensures idempotencyKey.Some? && !answer.Duplicate? ==>
        keys == if answer == EnqueueFailed && env.delWritten then old(keys)
                else old(keys)[idempotencyKey.value := notificationId]
    {
      ghost var before := Contents();
      if idempotencyKey.Some? {
        var k := idempotencyKey.value;
        if k in keys {
          var existing := keys[k];
          KnownKey(before, notificationId, k, env);
          return Duplicate(existing);
        }
        keys := keys[k := notificationId];
      }
      ServedAlone(before, notificationId, idempotencyKey, env);
      if env.refused {
        return Blocked;
      }
      if env.createThrows {
        return Died;
      }
      rows := rows[notificationId := RowQueued];
      if !env.added {
        if env.markWritten {
          rows := rows[notificationId := RowFailed];
        }
        if idempotencyKey.Some? && env.delWritten {
          keys := keys - {idempotencyKey.value};
        }
        return EnqueueFailed;
      }
      jobs := jobs + [notificationId];
      return Queued;
    }
  }

  /** The store and the answer after a request that is not a duplicate. */
  function Served(b: Store, id: Id, key: Option<Key>, env: Env): (Store, Answer) {
    var keys := if key.Some? then b.keys[key.value := id] else b.keys;
    if env.refused then (b.(keys := keys), Blocked)
    else if env.createThrows then (b.(keys := keys), Died)
    else if env.added then (Store(keys, b.rows[id := RowQueued], b.jobs + [id]), Queued)
    else
      var released := if key.Some? && env.delWritten then keys - {key.value} else keys;
      var rows := if env.markWritten then b.rows[id := RowQueued][id := RowFailed] else b.rows[id := RowQueued];
      (Store(released, rows, b.jobs), EnqueueFailed)
  }

  lemma KnownKey(b: Store, id: Id, k: Key, env: Env)
    requires k in b.keys
    ensures forall s: State | StoreOf(s) == b && id !in s.requests ::
      var t := ApplyAll(s, RequestSteps(s.keys, id, Some(k), env));
      StoreOf(t) == b && At(t, id, Done(Duplicate(b.keys[k])))
  {
    forall s: State | StoreOf(s) == b && id !in s.requests
      ensures var t := ApplyAll(s, RequestSteps(s.keys, id, Some(k), env));
        StoreOf(t) == b && At(t, id, Done(Duplicate(b.keys[k])))
    {
      var s1 := Apply(s, Arrive(id, Some(k)));
      var s2 := Apply(s1, Claim(id));
      Three(s, Arrive(id, Some(k)), Claim(id), ReadHolder(id));
    }
  }

  lemma Three(s: State, a: Step, b: Step, c: Step)
    ensures ApplyAll(s, [a, b, c]) == Apply(Apply(Apply(s, a), b), c)
  {
    hide Apply;
    assert [a, b, c][1..] == [b, c];
    Two(Apply(s, a), b, c);
  }

  lemma Two(s: State, a: Step, b: Step)
    ensures ApplyAll(s, [a, b]) == Apply(Apply(s, a), b)
  {
    hide Apply;
    assert [a, b][1..] == [b] && [b][1..] == [];
    assert ApplyAll(s, [a, b]) == ApplyAll(Apply(s, a), [b]);
  }

  lemma {:induction false} ApplyConcat(s: State, first: seq<Step>, second: seq<Step>)
    ensures ApplyAll(s, first + second) == ApplyAll(ApplyAll(s, first), second)
    decreases |first|
  {
    hide Apply;
    if first == [] {
      assert first + second == second;
    } else {
      assert (first + second)[1..] == first[1..] + second;
      ApplyConcat(Apply(s, first[0]), first[1..], second);
    }
  }

  lemma TailServes(s: State, id: Id, key: Option<Key>, env: Env)
    requires id in s.requests && s.requests[id] == Request(key, Checking, key.Some?)
    requires key.Some? ==> key.value in s.keys && s.keys[key.value] == id
    ensures var t := ApplyAll(s, TailSteps(id, key.Some?, env));
      && At(t, id, Done(Served(StoreOf(s), id, key, env).1))
      && StoreOf(t) == Served(StoreOf(s), id, key, env).0
  {
    assert key.Some? ==> s.keys[key.value := id] == s.keys;
    if env.refused {
      assert ApplyAll(s, [Refuse(id)]) == ApplyAll(Apply(s, Refuse(id)), []);
    } else if env.createThrows {
      assert ApplyAll(s, [Die(id)]) == ApplyAll(Apply(s, Die(id)), []);
    } else if env.added {
      Two(s, CreateRow(id), AddSucceeds(id));
    } else {
      FailureServes(s, id, key, env);
    }
  }

  /** The row is written, the add is rejected, and the row is marked. */
  lemma FailedSteps(s: State, id: Id, written: bool)
    requires At(s, id, Checking)
    ensures var s3 := Apply(Apply(Apply(s, CreateRow(id)), AddRejected(id)), MarkFailed(id, written));
      var queued := s.rows[id := RowQueued];
      s3 == Move(s, id, if s.requests[id].key.Some? then Releasing else Done(EnqueueFailed))
            .(rows := if written then queued[id := RowFailed] else queued)
  {
    var s1 := Apply(s, CreateRow(id));
    var s2 := Apply(s1, AddRejected(id));
    assert s2.requests == s.requests[id := s.requests[id].(pc := Marking)];
  }

  lemma FailureServes(s: State, id: Id, key: Option<Key>, env: Env)
    requires id in s.requests && s.requests[id] == Request(key, Checking, key.Some?)
    requires key.Some? ==> key.value in s.keys && s.keys[key.value] == id
    requires !env.refused && !env.createThrows && !env.added
    ensures var t := ApplyAll(s, TailSteps(id, key.Some?, env));
      && At(t, id, Done(EnqueueFailed))
      && StoreOf(t) == Served(StoreOf(s), id, key, env).0
  {
    assert key.Some? ==> s.keys[key.value := id] == s.keys;
    var first := [CreateRow(id), AddRejected(id), MarkFailed(id, env.markWritten)];
    Three(s, CreateRow(id), AddRejected(id), MarkFailed(id, env.markWritten));
    FailedSteps(s, id, env.markWritten);
    var s3 := Apply(Apply(Apply(s, CreateRow(id)), AddRejected(id)), MarkFailed(id, env.markWritten));
    var last := if key.Some? then [Release(id, env.delWritten)] else [];
    ApplyConcat(s, first, last);
    if key.Some? {
      ReleaseEffect(s3, id, key.value, env.delWritten);
      OneStep(s3, last[0]);
    } else {
      assert ApplyAll(s3, last) == s3;
    }
    hide Apply, ApplyAll;
  }

  lemma OneStep(s: State, step: Step)
    ensures ApplyAll(s, [step]) == Apply(s, step)
  {
    hide Apply;
    assert ApplyAll(s, [step]) == ApplyAll(Apply(s, step), []);
  }

  lemma ServedAlone(b: Store, id: Id, key: Option<Key>, env: Env)
    requires key.Some? ==> key.value !in b.keys
    ensures forall s: State | StoreOf(s) == b && id !in s.requests ::
      var t := ApplyAll(s, RequestSteps(s.keys, id, key, env));
      StoreOf(t) == Served(b, id, key, env).0 && At(t, id, Done(Served(b, id, key, env).1))
  {
    forall s: State | StoreOf(s) == b && id !in s.requests
      ensures var t := ApplyAll(s, RequestSteps(s.keys, id, key, env));
        StoreOf(t) == Served(b, id, key, env).0 && At(t, id, Done(Served(b, id, key, env).1))
    {
      ServedFrom(s, id, key, env);
    }
  }

  lemma ServedFrom(s: State, id: Id, key: Option<Key>, env: Env)
    requires id !in s.requests && (key.Some? ==> key.value !in s.keys)
    ensures var t := ApplyAll(s, RequestSteps(s.keys, id, key, env));
      StoreOf(t) == Served(StoreOf(s), id, key, env).0 && At(t, id, Done(Served(StoreOf(s), id, key, env).1))
  {
    var first := if key.Some? then [Arrive(id, key), Claim(id)] else [Arrive(id, key)];
    var s1 := Apply(s, Arrive(id, key));
    var ready := if key.Some? then Apply(s1, Claim(id)) else s1;
    if key.Some? {
      Two(s, Arrive(id, key), Claim(id));
    } else {
      assert ApplyAll(s, first) == ApplyAll(s1, []);
    }
    ApplyConcat(s, first, TailSteps(id, key.Some?, env));
    TailServes(ready, id, key, env);
    assert key.Some? ==> s.keys[key.value := id][key.value := id] == s.keys[key.value := id];
    hide ApplyAll, TailSteps;
  }
}
