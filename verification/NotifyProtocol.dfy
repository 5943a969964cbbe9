/**
 * The production idempotency protocol (notify.service.ts, queueProductionNotification) as steps of concurrent
 * requests on Redis, the notification table and the delivery queue.
 *
 * Every awaited operation is one step, so any interleaving of any number of requests is a sequence of steps.
 * The faults of the environment are steps too: the key expires after a day, an add that timed out lands later,
 * a request dies, a swallowed write fails, and a failed sandbox send deletes the key of a production send.
 *
 * Here are the machine, what every step keeps, and the runs that reach the bounds; NotifyIdempotency states the
 * results.
 */
module NotifyProtocol {
  import opened JsStrings

  type Key = string
  type Id = nat

  datatype Answer = Queued | Duplicate(of: Id) | Blocked | EnqueueFailed | Died

  /** The next operation of a request. */
  datatype Pc =
    | Claiming      // SET key NX
    | Contended     // GET key
    | Checking      // template gate, content scan, create the row
    | Enqueueing    // add the delivery job, under the timeout
    | Marking       // the add threw: mark the row failed
    | Releasing     // DEL key
    | Done(answer: Answer)

  /** `claimed`: the request's SET NX succeeded at some time. */
  datatype Request = Request(key: Option<Key>, pc: Pc, claimed: bool)

  datatype RowStatus = RowQueued | RowFailed

  datatype State = State(
    keys: map<Key, Id>,
    requests: map<Id, Request>,
    rows: map<Id, RowStatus>,
    jobs: seq<Id>,
    pendingAdds: set<Id>,
    timedOut: set<Id>,
    expiries: multiset<Key>,
    foreignReleases: multiset<Key>)

  const INITIAL := State(map[], map[], map[], [], {}, {}, multiset{}, multiset{})

  datatype Step =
    | Arrive(id: Id, key: Option<Key>)
    | Claim(id: Id)
    | ReadHolder(id: Id)
    | Refuse(id: Id)
    | CreateRow(id: Id)
    | AddSucceeds(id: Id)
    | AddRejected(id: Id)
    | AddTimesOut(id: Id)
    | AddLands(id: Id)
    | AddIsLost(id: Id)
    | MarkFailed(id: Id, written: bool)
    | Release(id: Id, written: bool)
    | Die(id: Id)
    | Expire(k: Key)
    | ForeignRelease(k: Key)

  predicate At(s: State, id: Id, pc: Pc) {
    id in s.requests && s.requests[id].pc == pc
  }

  function Move(s: State, id: Id, pc: Pc): State
    requires id in s.requests
  {
    s.(requests := s.requests[id := s.requests[id].(pc := pc)])
  }

  /** One step; a step that is not enabled changes nothing. */
  function Apply(s: State, step: Step): State {
    match step
    case Arrive(id, key) =>
      // The idempotency block is skipped without a key. Ids are fresh version-4 UUIDs.
      if id in s.requests then s
      else s.(requests := s.requests[id := Request(key, if key.None? then Checking else Claiming, false)])
    case Claim(id) =>
      if !At(s, id, Claiming) || s.requests[id].key.None? then s
      else
        var k := s.requests[id].key.value;
        if k in s.keys then Move(s, id, Contended)
        else s.(keys := s.keys[k := id], requests := s.requests[id := Request(Some(k), Checking, true)])
    case ReadHolder(id) =>
      if !At(s, id, Contended) || s.requests[id].key.None? then s
      else
        var k := s.requests[id].key.value;
        Move(s, id, Done(Duplicate(if k in s.keys then s.keys[k] else id)))
    case Refuse(id) =>
      if !At(s, id, Checking) then s else Move(s, id, Done(Blocked))
    case CreateRow(id) =>
      if !At(s, id, Checking) then s else Move(s, id, Enqueueing).(rows := s.rows[id := RowQueued])
    case AddSucceeds(id) =>
      if !At(s, id, Enqueueing) then s else Move(s, id, Done(Queued)).(jobs := s.jobs + [id])
    case AddRejected(id) =>
      if !At(s, id, Enqueueing) then s else Move(s, id, Marking)
    case AddTimesOut(id) =>
      if !At(s, id, Enqueueing) then s
      else Move(s, id, Marking).(pendingAdds := s.pendingAdds + {id}, timedOut := s.timedOut + {id})
    case AddLands(id) =>
      if id !in s.pendingAdds then s else s.(pendingAdds := s.pendingAdds - {id}, jobs := s.jobs + [id])
    case AddIsLost(id) =>
      s.(pendingAdds := s.pendingAdds - {id})
    case MarkFailed(id, written) =>
      if !At(s, id, Marking) then s
      else Move(s, id, if s.requests[id].key.Some? then Releasing else Done(EnqueueFailed))
           .(rows := if written then s.rows[id := RowFailed] else s.rows)
    case Release(id, written) =>
      if !At(s, id, Releasing) || s.requests[id].key.None? then s
      else Move(s, id, Done(EnqueueFailed)).(keys := if written then s.keys - {s.requests[id].key.value} else s.keys)
    case Die(id) =>
      if id !in s.requests || s.requests[id].pc.Done? then s else Move(s, id, Done(Died))
    case Expire(k) =>
      if k !in s.keys then s else s.(keys := s.keys - {k}, expiries := s.expiries + multiset{k})
    case ForeignRelease(k) =>
      if k !in s.keys then s else s.(keys := s.keys - {k}, foreignReleases := s.foreignReleases + multiset{k})
  }

  function Run(steps: seq<Step>): State {
    if steps == [] then INITIAL else Apply(Run(steps[..|steps| - 1]), steps[|steps| - 1])
  }

  // ------------------------------------------------------------------ what the results speak of

  predicate HasKey(s: State, id: Id, k: Key) {
    id in s.requests && s.requests[id].key == Some(k)
  }

  /** Delivery jobs enqueued for requests with this key. */
  function JobsOf(s: State, k: Key): set<Id> {
    set id | id in s.jobs && HasKey(s, id, k)
  }

  function TimedOutOf(s: State, k: Key): set<Id> {
    set id | id in s.timedOut && HasKey(s, id, k)
  }

  /** Without an expiry or a foreign release, the key is only ever taken when free and freed by its holder. */
  ghost predicate Undisturbed(s: State, k: Key) {
    s.expiries[k] == 0 && s.foreignReleases[k] == 0
  }

  ghost predicate Reachable(s: State) {
    exists steps :: Run(steps) == s
  }

  /** The row of another request with this idempotency key. */
  ghost predicate HasRow(s: State, k: Key) {
    exists id :: id in s.rows && HasKey(s, id, k)
  }

  /** idempotency_key is unique in the table: an insert of a key that has a row throws. */
  ghost predicate Admitted(s: State, step: Step) {
    step.CreateRow? && At(s, step.id, Checking) && s.requests[step.id].key.Some? ==>
      !HasRow(s, s.requests[step.id].key.value)
  }

  ghost predicate UniqueRows(steps: seq<Step>) {
    steps == [] || (UniqueRows(steps[..|steps| - 1]) && Admitted(Run(steps[..|steps| - 1]), steps[|steps| - 1]))
  }

  /** A row with the key, of a request whose enqueue failed for good. */
  ghost predicate Spent(s: State, k: Key, id: Id) {
    id in s.rows && HasKey(s, id, k) && s.requests[id].pc == Done(EnqueueFailed) && id !in s.timedOut
  }

  // ------------------------------------------------------------------ the potential of a key

  predicate Holds(pc: Pc) {
    pc.Checking? || pc.Enqueueing? || pc.Marking? || pc.Releasing?
  }

  /** Requests that took the key and have neither answered nor released it. */
  function Holders(s: State, k: Key): set<Id> {
    set id | id in s.requests && HasKey(s, id, k) && Holds(s.requests[id].pc)
  }

  function PendingOf(s: State, k: Key): set<Id> {
    set id | id in s.pendingAdds && HasKey(s, id, k)
  }

  // ------------------------------------------------------------------ the invariant

  /** Where a request's id may occur, given its program counter. */
  ghost predicate RequestInv(s: State, id: Id)
    requires id in s.requests
  {
    var r := s.requests[id];
    && (r.pc.Claiming? || r.pc.Contended? ==> r.key.Some? && !r.claimed)
    && (Holds(r.pc) && r.key.Some? ==> r.claimed)
    && (r.pc.Enqueueing? || r.pc.Marking? || id in s.jobs || id in s.pendingAdds ==> id in s.rows)
    && (id in s.jobs ==> id !in s.pendingAdds)
    && (id in s.jobs || id in s.pendingAdds ==> r.pc == Done(Queued) || id in s.timedOut)
    && (r.pc == Done(Queued) ==> id in s.jobs && id !in s.timedOut)
    && (id in s.timedOut ==> r.pc.Marking? || r.pc.Releasing? || r.pc == Done(EnqueueFailed) || r.pc == Done(Died))
    && (r.pc.Done? && r.pc.answer.Duplicate? && r.pc.answer.of != id ==>
          r.key.Some? && HasKey(s, r.pc.answer.of, r.key.value) && s.requests[r.pc.answer.of].claimed)
  }

  ghost predicate KeyInv(s: State, k: Key) {
    && (k in s.keys ==> HasKey(s, s.keys[k], k) && s.requests[s.keys[k]].claimed)
    && (Undisturbed(s, k) ==>
          forall id | id in s.requests && HasKey(s, id, k) && Holds(s.requests[id].pc) ::
            k in s.keys && s.keys[k] == id)
  }

  ghost predicate Inv(s: State) {
    && (forall id | id in s.jobs || id in s.pendingAdds || id in s.timedOut :: id in s.requests)
    && (forall id | id in s.requests :: RequestInv(s, id))
    && (forall k :: KeyInv(s, k))
    && (forall i, j | 0 <= i < j < |s.jobs| :: s.jobs[i] != s.jobs[j])
  }

  // ------------------------------------------------------------------ every step keeps the invariant

  /** Keys of requests never change, and a claim is never withdrawn. */
  ghost predicate Grows(s: State, t: State) {
    forall id | id in s.requests ::
      id in t.requests && t.requests[id].key == s.requests[id].key
        && (s.requests[id].claimed ==> t.requests[id].claimed)
  }

  function Actor(step: Step): Option<Id> {
    match step
    case Expire(_) => None
    case ForeignRelease(_) => None
    case _ => Some(step.id)
  }

  /** A step of a request writes at most that request, its row, and its marks in the queue. */
  ghost predicate WritesOnly(s: State, t: State, id: Id) {
    && (id in t.requests ==> t.requests == s.requests[id := t.requests[id]])
    && (id !in t.requests ==> t.requests == s.requests)
    && (id in s.requests ==>
          && id in t.requests && t.requests[id].key == s.requests[id].key
          && (s.requests[id].claimed ==> t.requests[id].claimed))
    && (t.rows == s.rows || (id in t.rows && t.rows == s.rows[id := t.rows[id]]))
    && (t.jobs == s.jobs || t.jobs == s.jobs + [id])
    && (t.pendingAdds == s.pendingAdds || t.pendingAdds == s.pendingAdds + {id}
      || t.pendingAdds == s.pendingAdds - {id})
    && (t.timedOut == s.timedOut || t.timedOut == s.timedOut + {id})
  }

  lemma EarlyStepWrites(s: State, step: Step)
    requires step.Arrive? || step.Claim? || step.ReadHolder? || step.Refuse? || step.Die?
    ensures WritesOnly(s, Apply(s, step), step.id)
  {
  }

  lemma LateStepWrites(s: State, step: Step)
    requires step.MarkFailed? || step.Release?
    ensures WritesOnly(s, Apply(s, step), step.id)
  {
  }

  lemma EnqueueStepWrites(s: State, step: Step)
    requires step.CreateRow? || step.AddSucceeds? || step.AddRejected? || step.AddTimesOut?
    ensures WritesOnly(s, Apply(s, step), step.id)
  {
  }

  lemma QueueStepWrites(s: State, step: Step)
    requires step.AddLands? || step.AddIsLost?
    ensures WritesOnly(s, Apply(s, step), step.id)
  {
  }

  lemma StepWrites(s: State, step: Step)
    ensures Actor(step).Some? ==> WritesOnly(s, Apply(s, step), step.id)
    ensures Actor(step).None? ==>
      var t := Apply(s, step);
      t.requests == s.requests && t.rows == s.rows && t.jobs == s.jobs && t.pendingAdds == s.pendingAdds
        && t.timedOut == s.timedOut
  {
    if step.Arrive? || step.Claim? || step.ReadHolder? || step.Refuse? || step.Die? {
      EarlyStepWrites(s, step);
      hide Apply, WritesOnly;
    } else if step.CreateRow? || step.AddSucceeds? || step.AddRejected? || step.AddTimesOut? {
      EnqueueStepWrites(s, step);
      hide Apply, WritesOnly;
    } else if step.AddLands? || step.AddIsLost? {
      QueueStepWrites(s, step);
      hide Apply, WritesOnly;
    } else if Actor(step).Some? {
      LateStepWrites(s, step);
      hide Apply, WritesOnly;
    }
  }

  lemma StepGrows(s: State, step: Step)
    ensures Grows(s, Apply(s, step))
  {
    StepWrites(s, step);
    hide Apply;
  }

  lemma StepKeepsIds(s: State, step: Step)
    requires Inv(s)
    ensures var t := Apply(s, step);
      && (forall id | id in t.jobs || id in t.pendingAdds || id in t.timedOut :: id in t.requests)
      && (forall i, j | 0 <= i < j < |t.jobs| :: t.jobs[i] != t.jobs[j])
  {
    StepWrites(s, step);
    StepMarksKnown(s, step);
    hide Apply, RequestInv, KeyInv;
    var t := Apply(s, step);
    if t.jobs != s.jobs {
      assert forall i | 0 <= i < |s.jobs| :: t.jobs[i] == s.jobs[i] && s.jobs[i] in s.jobs;
    }
  }

  /** What a step adds to the queue or its marks is a known request, and not in the queue yet. */
  lemma StepMarksKnown(s: State, step: Step)
    requires Inv(s)
    ensures Actor(step).Some? ==>
      var t := Apply(s, step);
      && (t.jobs != s.jobs ==> step.id in s.requests && step.id !in s.jobs)
      && (t.pendingAdds != s.pendingAdds && t.pendingAdds != s.pendingAdds - {step.id} ==> step.id in s.requests)
      && (t.timedOut != s.timedOut ==> step.id in s.requests)
  {
    hide KeyInv, Holds;
    if Actor(step).Some? && step.id in s.requests {
      assert RequestInv(s, step.id);
    }
  }

  /** A step leaves every request but its own alone. */
  lemma Bystander(s: State, step: Step, id: Id)
    requires Actor(step) != Some(id)
    ensures var t := Apply(s, step);
      && (id in t.requests <==> id in s.requests) && (id in s.requests ==> t.requests[id] == s.requests[id])
      && (id in t.rows <==> id in s.rows) && (id in t.jobs <==> id in s.jobs)
      && (id in t.pendingAdds <==> id in s.pendingAdds) && (id in t.timedOut <==> id in s.timedOut)
  {
    StepWrites(s, step);
    hide Apply;
  }

  lemma BystanderKeepsRequestInv(s: State, step: Step, id: Id)
    requires Inv(s) && id in Apply(s, step).requests && Actor(step) != Some(id)
    ensures RequestInv(Apply(s, step), id)
  {
    hide Apply, KeyInv;
    Bystander(s, step, id);
    StepGrows(s, step);
    assert RequestInv(s, id);
  }

  lemma ArrivalInv(s: State, step: Step)
    requires Inv(s) && step.Arrive? && step.id !in s.requests
    ensures RequestInv(Apply(s, step), step.id)
  {
    assert step.id !in s.jobs && step.id !in s.pendingAdds && step.id !in s.timedOut;
  }

  lemma ReaderKeepsRequestInv(s: State, id: Id)
    requires Inv(s) && id in s.requests
    ensures RequestInv(Apply(s, ReadHolder(id)), id)
  {
    ReadHolderEffect(s, id);
    assert RequestInv(s, id);
    if s.requests[id].key.Some? {
      assert KeyInv(s, s.requests[id].key.value);
    }
    hide Apply, KeyInv;
  }

  /** Among the steps of a request, those before the add. */
  lemma EarlyActorKeepsRequestInv(s: State, step: Step)
    requires Inv(s) && (step.Arrive? || step.Claim? || step.Refuse? || step.Die? || step.CreateRow?)
    requires step.id in s.requests
    ensures RequestInv(Apply(s, step), step.id)
  {
    hide KeyInv;
    StepGrows(s, step);
    assert RequestInv(s, step.id);
  }

  lemma LateActorKeepsRequestInv(s: State, step: Step)
    requires step.AddSucceeds? || step.AddRejected? || step.AddTimesOut? || step.AddLands? || step.AddIsLost?
      || step.MarkFailed? || step.Release?
    requires Inv(s) && step.id in s.requests
    ensures RequestInv(Apply(s, step), step.id)
  {
    hide KeyInv;
    StepGrows(s, step);
    assert RequestInv(s, step.id);
  }

  lemma ActorKeepsRequestInv(s: State, step: Step)
    requires Inv(s) && Actor(step).Some? && step.id in s.requests
    ensures RequestInv(Apply(s, step), step.id)
  {
    if step.ReadHolder? {
      ReaderKeepsRequestInv(s, step.id);
    } else if step.Arrive? || step.Claim? || step.Refuse? || step.Die? || step.CreateRow? {
      EarlyActorKeepsRequestInv(s, step);
    } else {
      LateActorKeepsRequestInv(s, step);
    }
    hide Apply, Inv, RequestInv;
  }

  lemma StepKeepsRequestInv(s: State, step: Step, id: Id)
    requires Inv(s) && id in Apply(s, step).requests
    ensures RequestInv(Apply(s, step), id)
  {
    hide RequestInv, KeyInv, Inv;
    if Actor(step) != Some(id) {
      BystanderKeepsRequestInv(s, step, id);
    } else if id in s.requests {
      ActorKeepsRequestInv(s, step);
    } else {
      ArrivalInv(s, step);
    }
  }

  lemma StepKeepsKeyInv(s: State, step: Step, k: Key)
    requires Inv(s)
    ensures KeyInv(Apply(s, step), k)
  {
    StepKeepsOwner(s, step, k);
    var t := Apply(s, step);
    if Undisturbed(t, k) {
      forall id | id in t.requests && HasKey(t, id, k) && Holds(t.requests[id].pc)
        ensures k in t.keys && t.keys[k] == id
      {
        HolderOwnsKey(s, step, k, id);
      }
    }
  }

  /** A step leaves a key to its owner or deletes it, unless it is the claim of a free key. */
  lemma StepMovesKeys(s: State, step: Step, k: Key)
    ensures var t := Apply(s, step);
      k in t.keys ==>
        || (k in s.keys && t.keys[k] == s.keys[k])
        || (step.Claim? && step.id in t.requests && t.keys[k] == step.id && t.requests[step.id].key == Some(k)
          && t.requests[step.id].claimed)
  {
  }

  lemma StepKeepsOwner(s: State, step: Step, k: Key)
    requires Inv(s)
    ensures var t := Apply(s, step); k in t.keys ==> HasKey(t, t.keys[k], k) && t.requests[t.keys[k]].claimed
  {
    hide Apply, RequestInv, Undisturbed, Holds;
    StepGrows(s, step);
    StepMovesKeys(s, step, k);
    assert KeyInv(s, k);
  }

  lemma HolderOwnsKey(s: State, step: Step, k: Key, id: Id)
    requires Inv(s) && Undisturbed(Apply(s, step), k)
    requires id in Apply(s, step).requests && HasKey(Apply(s, step), id, k) && Holds(Apply(s, step).requests[id].pc)
    ensures k in Apply(s, step).keys && Apply(s, step).keys[k] == id
  {
    if Actor(step) != Some(id) {
      BystanderOwnsKey(s, step, k, id);
    } else {
      ActorOwnsKey(s, step, k);
    }
  }

  lemma ActorOwnsKey(s: State, step: Step, k: Key)
    requires Inv(s) && Undisturbed(Apply(s, step), k) && Actor(step).Some?
    requires HasKey(Apply(s, step), step.id, k) && Holds(Apply(s, step).requests[step.id].pc)
    ensures k in Apply(s, step).keys && Apply(s, step).keys[k] == step.id
  {
    hide RequestInv;
    assert KeyInv(s, k);
    if step.id in s.requests {
      assert RequestInv(s, step.id);
      ClaimedBeforeHolding(s, step);
    }
  }

  /** A keyed request starts holding only by its claim. */
  lemma ClaimedBeforeHolding(s: State, step: Step)
    requires Actor(step).Some? && step.id in s.requests && RequestInv(s, step.id) && s.requests[step.id].key.Some?
    ensures Holds(Apply(s, step).requests[step.id].pc) ==>
      Holds(s.requests[step.id].pc)
        || (step.Claim? && s.requests[step.id].pc.Claiming? && s.requests[step.id].key.value !in s.keys)
    ensures Holds(Apply(s, step).requests[step.id].pc) && Holds(s.requests[step.id].pc)
      ==> Apply(s, step).keys == s.keys
  {
  }

  lemma BystanderOwnsKey(s: State, step: Step, k: Key, id: Id)
    requires Inv(s) && Undisturbed(Apply(s, step), k) && Actor(step) != Some(id)
    requires id in s.requests && HasKey(s, id, k) && Holds(s.requests[id].pc)
    ensures k in Apply(s, step).keys && Apply(s, step).keys[k] == id
  {
    hide RequestInv;
    assert KeyInv(s, k);
  }

  lemma StepKeepsInv(s: State, step: Step)
    requires Inv(s)
    ensures Inv(Apply(s, step))
  {
    hide RequestInv, KeyInv;
    var t := Apply(s, step);
    StepKeepsIds(s, step);
    forall id | id in t.requests
      ensures RequestInv(t, id)
    {
      StepKeepsRequestInv(s, step, id);
    }
    forall k
      ensures KeyInv(t, k)
    {
      StepKeepsKeyInv(s, step, k);
    }
  }

  lemma {:induction false} RunKeepsInv(steps: seq<Step>)
    ensures Inv(Run(steps))
  {
    if steps == [] {
    } else {
      RunKeepsInv(steps[..|steps| - 1]);
      StepKeepsInv(Run(steps[..|steps| - 1]), steps[|steps| - 1]);
    }
  }

  // ------------------------------------------------------------------ the bound on jobs

  function One(b: bool): int {
    if b then 1 else 0
  }

  function Potential(s: State, k: Key): int {
    |JobsOf(s, k)| + |PendingOf(s, k)| + |Holders(s, k)| - |TimedOutOf(s, k)| + Slack(s, k)
  }

  /** The key itself: free is worth one claim, every disturbance allows one more. */
  function Slack(s: State, k: Key): int {
    One(k !in s.keys) - s.expiries[k] - s.foreignReleases[k]
  }

  /** One request's share of the potential of its key. */
  function Share(s: State, id: Id, k: Key): int {
    if !HasKey(s, id, k) then 0
    else One(id in s.jobs) + One(id in s.pendingAdds) + One(Holds(s.requests[id].pc)) - One(id in s.timedOut)
  }

  lemma ReplaceMember(before: set<Id>, after: set<Id>, id: Id)
    requires after - {id} == before - {id}
    ensures |after| - One(id in after) == |before| - One(id in before)
  {
    assert |before - {id}| == |before| - One(id in before);
    assert |after - {id}| == |after| - One(id in after);
  }

  lemma OnlyActorMoves(s: State, step: Step, k: Key)
    requires Actor(step).Some?
    ensures var t := Apply(s, step);
      && JobsOf(t, k) - {step.id} == JobsOf(s, k) - {step.id}
      && PendingOf(t, k) - {step.id} == PendingOf(s, k) - {step.id}
      && Holders(t, k) - {step.id} == Holders(s, k) - {step.id}
      && TimedOutOf(t, k) - {step.id} == TimedOutOf(s, k) - {step.id}
  {
    hide Apply, Holds;
    var t := Apply(s, step);
    forall id | id != step.id
      ensures id in JobsOf(t, k) <==> id in JobsOf(s, k)
      ensures id in PendingOf(t, k) <==> id in PendingOf(s, k)
      ensures id in Holders(t, k) <==> id in Holders(s, k)
      ensures id in TimedOutOf(t, k) <==> id in TimedOutOf(s, k)
    {
      Bystander(s, step, id);
    }
  }

  /** The potential moves by the acting request's share and the key's slack. */
  lemma PotentialMoves(s: State, step: Step, k: Key)
    requires Actor(step).Some?
    ensures var t := Apply(s, step);
      Potential(t, k) - Potential(s, k) == Share(t, step.id, k) - Share(s, step.id, k) + Slack(t, k) - Slack(s, k)
  {
    hide Apply, Slack, Holds;
    var t, id := Apply(s, step), step.id;
    OnlyActorMoves(s, step, k);
    ReplaceMember(JobsOf(s, k), JobsOf(t, k), id);
    ReplaceMember(PendingOf(s, k), PendingOf(t, k), id);
    ReplaceMember(Holders(s, k), Holders(t, k), id);
    ReplaceMember(TimedOutOf(s, k), TimedOutOf(t, k), id);
  }

  /** No step of a request gains more than the slack it uses up. */
  ghost predicate PaidFor(s: State, t: State, id: Id, k: Key) {
    Share(t, id, k) + Slack(t, k) <= Share(s, id, k) + Slack(s, k)
  }

  lemma ArrivalPays(s: State, step: Step, k: Key)
    requires Inv(s) && step.Arrive?
    ensures PaidFor(s, Apply(s, step), step.id, k)
  {
    hide RequestInv, KeyInv;
    assert step.id !in s.requests ==> step.id !in s.jobs && step.id !in s.pendingAdds && step.id !in s.timedOut;
  }

  lemma ClaimPays(s: State, step: Step, k: Key)
    requires Inv(s) && step.Claim?
    ensures PaidFor(s, Apply(s, step), step.id, k)
  {
    hide KeyInv, RequestInv, Inv;
    var id := step.id;
    if At(s, id, Claiming) && s.requests[id].key.Some? {
      var own := s.requests[id].key.value;
      if own in s.keys {
        assert Apply(s, step) == Move(s, id, Contended);
      } else {
        assert Apply(s, step)
          == s.(keys := s.keys[own := id], requests := s.requests[id := Request(Some(own), Checking, true)]);
      }
    } else {
      assert Apply(s, step) == s;
    }
    hide Apply;
  }

  lemma AnswerPays(s: State, step: Step, k: Key)
    requires Inv(s) && (step.ReadHolder? || step.Refuse? || step.Die?)
    ensures PaidFor(s, Apply(s, step), step.id, k)
  {
    hide KeyInv, RequestInv, Inv;
    var id, t := step.id, Apply(s, step);
    assert t == s || (id in s.requests && t.requests[id].pc.Done? && t == Move(s, id, t.requests[id].pc));
    hide Apply;
  }

  lemma EnqueueStepPays(s: State, step: Step, k: Key)
    requires Inv(s) && (step.CreateRow? || step.AddSucceeds? || step.AddRejected? || step.AddTimesOut?)
    ensures PaidFor(s, Apply(s, step), step.id, k)
  {
    hide KeyInv;
    if step.id in s.requests {
      assert RequestInv(s, step.id);
    }
  }

  lemma FailureStepPays(s: State, step: Step, k: Key)
    requires Inv(s) && (step.MarkFailed? || step.Release?)
    ensures PaidFor(s, Apply(s, step), step.id, k)
  {
    hide KeyInv;
    if step.id in s.requests {
      assert RequestInv(s, step.id);
    }
  }

  lemma QueueStepPays(s: State, step: Step, k: Key)
    requires Inv(s) && (step.AddLands? || step.AddIsLost?)
    ensures PaidFor(s, Apply(s, step), step.id, k)
  {
    hide KeyInv;
    if step.id in s.requests {
      assert RequestInv(s, step.id);
    }
  }

  /** No step of a request gains more than the slack it uses up. */
  lemma ShareIsPaidFor(s: State, step: Step, k: Key)
    requires Inv(s) && Actor(step).Some?
    ensures var t := Apply(s, step); Share(t, step.id, k) + Slack(t, k) <= Share(s, step.id, k) + Slack(s, k)
  {
    if step.Arrive? {
      ArrivalPays(s, step, k);
    } else if step.Claim? {
      ClaimPays(s, step, k);
    } else if step.ReadHolder? || step.Refuse? || step.Die? {
      AnswerPays(s, step, k);
    } else if step.CreateRow? || step.AddSucceeds? || step.AddRejected? || step.AddTimesOut? {
      EnqueueStepPays(s, step, k);
    } else if step.MarkFailed? || step.Release? {
      FailureStepPays(s, step, k);
    } else {
      QueueStepPays(s, step, k);
    }
    hide Apply, Inv, Share, Slack;
  }

  lemma DisturbanceIsPaidFor(s: State, step: Step, k: Key)
    requires Actor(step).None?
    ensures Potential(Apply(s, step), k) <= Potential(s, k)
  {
    var t := Apply(s, step);
    assert t.requests == s.requests && t.jobs == s.jobs && t.pendingAdds == s.pendingAdds && t.timedOut == s.timedOut;
    assert Holders(t, k) == Holders(s, k) && JobsOf(t, k) == JobsOf(s, k);
    assert PendingOf(t, k) == PendingOf(s, k) && TimedOutOf(t, k) == TimedOutOf(s, k);
  }

  lemma {:induction false} PotentialNeverGrows(steps: seq<Step>, k: Key)
    ensures Potential(Run(steps), k) <= 1
  {
    hide Potential, Apply;
    if steps == [] {
      assert Potential(INITIAL, k) == 1 by {
        InitialPotential(k);
      }
    } else {
      var init, step := steps[..|steps| - 1], steps[|steps| - 1];
      PotentialNeverGrows(init, k);
      RunKeepsInv(init);
      if Actor(step).None? {
        DisturbanceIsPaidFor(Run(init), step, k);
      } else {
        PotentialMoves(Run(init), step, k);
        ShareIsPaidFor(Run(init), step, k);
      }
    }
  }

  lemma InitialPotential(k: Key)
    ensures Potential(INITIAL, k) == 1
  {
    assert JobsOf(INITIAL, k) == {} && PendingOf(INITIAL, k) == {} && Holders(INITIAL, k) == {}
      && TimedOutOf(INITIAL, k) == {};
  }

  lemma AnswersStay(s: State, step: Step, id: Id)
    requires id in Apply(s, step).requests && Apply(s, step).requests[id].pc.Done?
      && Apply(s, step).requests[id].pc.answer.Duplicate?
    requires step != ReadHolder(id)
    ensures id in s.requests && s.requests[id] == Apply(s, step).requests[id]
  {
  }

  lemma ReadHolderEffect(s: State, id: Id)
    ensures Apply(s, ReadHolder(id)) ==
      if At(s, id, Contended) && s.requests[id].key.Some? then
        var k := s.requests[id].key.value;
        Move(s, id, Done(Duplicate(if k in s.keys then s.keys[k] else id)))
      else s
  {
  }

  // ------------------------------------------------------------------ the unique index on the notifications

  ghost predicate RowsDiffer(s: State) {
    && (forall id | id in s.rows :: id in s.requests)
    && forall a, b, k | a in s.rows && b in s.rows && HasKey(s, a, k) && HasKey(s, b, k) :: a == b
  }

  lemma StepKeepsRowsDiffer(s: State, step: Step)
    requires Inv(s) && RowsDiffer(s) && Admitted(s, step)
    ensures RowsDiffer(Apply(s, step))
  {
    hide KeyInv;
    var t := Apply(s, step);
    StepGrows(s, step);
    RowsAreOld(s, step);
    assert step.MarkFailed? && At(s, step.id, Marking) ==> RequestInv(s, step.id);
    hide Apply, RequestInv;
    forall a, b, k | a in t.rows && b in t.rows && HasKey(t, a, k) && HasKey(t, b, k) ensures a == b {
      assert a in s.rows ==> HasKey(s, a, k);
      assert b in s.rows ==> HasKey(s, b, k);
    }
  }

  /** Only an insert adds a row, and rows are never deleted. */
  lemma RowsAreOld(s: State, step: Step)
    requires Inv(s)
    ensures var t := Apply(s, step);
      && (forall id | id in s.rows :: id in t.rows)
      && (forall id | id in t.rows && id !in s.rows ::
        step == CreateRow(id) && At(s, id, Checking) && t.requests[id].key == s.requests[id].key)
  {
    hide KeyInv;
    assert step.MarkFailed? && At(s, step.id, Marking) ==> RequestInv(s, step.id);
  }

  lemma {:induction false} RunRowsDiffer(steps: seq<Step>)
    requires UniqueRows(steps)
    ensures RowsDiffer(Run(steps))
  {
    hide Apply, Admitted;
    if steps != [] {
      RunRowsDiffer(steps[..|steps| - 1]);
      RunKeepsInv(steps[..|steps| - 1]);
      StepKeepsRowsDiffer(Run(steps[..|steps| - 1]), steps[|steps| - 1]);
    }
  }

  lemma StepKeepsSpent(s: State, step: Step, k: Key, id: Id)
    requires Inv(s) && Spent(s, k, id)
    ensures Spent(Apply(s, step), k, id)
  {
    hide KeyInv;
  }

  lemma {:induction false} StaysSpent(steps: seq<Step>, later: seq<Step>, k: Key, id: Id)
    requires Spent(Run(steps), k, id)
    ensures Spent(Run(steps + later), k, id)
  {
    hide Apply, Spent;
    if later == [] {
      assert steps + later == steps;
    } else {
      var all := steps + later;
      assert all[..|all| - 1] == steps + later[..|later| - 1];
      StaysSpent(steps, later[..|later| - 1], k, id);
      RunKeepsInv(all[..|all| - 1]);
      StepKeepsSpent(Run(all[..|all| - 1]), all[|all| - 1], k, id);
    }
  }

  lemma JobIsRowOwner(s: State, k: Key, id: Id, job: Id)
    requires Inv(s) && RowsDiffer(s) && id in s.rows && HasKey(s, id, k) && job in JobsOf(s, k)
    ensures job == id
  {
    assert RequestInv(s, job);
  }

  // ------------------------------------------------------------------ the bound is reached, without the index

  lemma Reach(s: State, step: Step)
    requires Reachable(s)
    ensures Reachable(Apply(s, step))
  {
    var steps :| Run(steps) == s;
    assert (steps + [step])[..|steps|] == steps;
    assert Run(steps + [step]) == Apply(s, step);
  }

  /** From s to t only request `id` moved, to pc, and the queue and the counters of disturbances did not change. */
  ghost predicate Moved(s: State, t: State, id: Id, k: Key, pc: Pc) {
    && Reachable(t) && At(t, id, pc) && HasKey(t, id, k)
    && (forall other | other in s.requests && other != id ::
      other in t.requests && t.requests[other] == s.requests[other])
    && t.requests.Keys == s.requests.Keys + {id}
    && t.jobs == s.jobs && t.pendingAdds == s.pendingAdds && t.timedOut == s.timedOut
    && t.expiries == s.expiries && t.foreignReleases == s.foreignReleases
  }

  lemma ReachClaimed(s: State, id: Id, k: Key) returns (t: State)
    requires Reachable(s) && id !in s.requests && k !in s.keys
    ensures Moved(s, t, id, k, Checking) && k in t.keys
  {
    var s1 := Apply(s, Arrive(id, Some(k)));
    t := Apply(s1, Claim(id));
    Reach(s, Arrive(id, Some(k)));
    Reach(s1, Claim(id));
  }

  /** A request with a fresh id that finds the key free brings its job to the brink of the queue. */
  lemma ReachEnqueueing(s: State, id: Id, k: Key) returns (t: State)
    requires Reachable(s) && id !in s.requests && k !in s.keys
    ensures Moved(s, t, id, k, Enqueueing) && k in t.keys
  {
    var s1 := ReachClaimed(s, id, k);
    t := Apply(s1, CreateRow(id));
    Reach(s1, CreateRow(id));
  }

  lemma ReachQueued(s: State, id: Id, k: Key) returns (t: State)
    requires Reachable(s) && At(s, id, Enqueueing) && HasKey(s, id, k)
    ensures Reachable(t) && t == Move(s, id, Done(Queued)).(jobs := s.jobs + [id])
  {
    t := Apply(s, AddSucceeds(id));
    Reach(s, AddSucceeds(id));
  }

  lemma ReachTimedOut(s: State, id: Id, k: Key) returns (t: State)
    requires Reachable(s) && At(s, id, Enqueueing) && HasKey(s, id, k)
    ensures Moved(s.(pendingAdds := s.pendingAdds + {id}, timedOut := s.timedOut + {id}), t, id, k, Marking)
  {
    t := Apply(s, AddTimesOut(id));
    Reach(s, AddTimesOut(id));
  }

  lemma ReachMarked(s: State, id: Id, k: Key) returns (t: State)
    requires Reachable(s) && At(s, id, Marking) && HasKey(s, id, k)
    ensures Moved(s, t, id, k, Releasing)
  {
    t := Apply(s, MarkFailed(id, true));
    Reach(s, MarkFailed(id, true));
  }

  lemma ReleaseEffect(s: State, id: Id, k: Key, written: bool)
    requires At(s, id, Releasing) && s.requests[id].key == Some(k)
    ensures Apply(s, Release(id, written))
      == Move(s, id, Done(EnqueueFailed)).(keys := if written then s.keys - {k} else s.keys)
  {
  }

  /** Its add times out, the row is marked, the key released; the add is still on its way. */
  lemma ReachReleased(s: State, id: Id, k: Key) returns (t: State)
    requires Reachable(s) && At(s, id, Enqueueing) && HasKey(s, id, k)
    ensures Moved(s.(pendingAdds := s.pendingAdds + {id}, timedOut := s.timedOut + {id}), t, id, k, Done(EnqueueFailed))
    ensures k !in t.keys
  {
    var b := ReachTimedOut(s, id, k);
    var c := ReachMarked(b, id, k);
    ReleaseEffect(c, id, k, true);
    hide Apply, Reachable;
    t := Apply(c, Release(id, true));
    Reach(c, Release(id, true));
  }

  lemma InitialIsReachable()
    ensures Reachable(INITIAL)
  {
    assert Run([]) == INITIAL;
  }

  /** What a disturbance leaves: the first job queued, its key gone. */
  lemma ReachDisturbed(k: Key, expiry: bool) returns (t: State)
    ensures Reachable(t) && t.requests.Keys == {1} && HasKey(t, 1, k) && k !in t.keys
    ensures t.jobs == [1] && t.timedOut == {}
    ensures t.expiries == (if expiry then multiset{k} else multiset{})
    ensures t.foreignReleases == (if expiry then multiset{} else multiset{k})
  {
    hide Reachable;
    InitialIsReachable();
    var a := ReachEnqueueing(INITIAL, 1, k);
    var b := ReachQueued(a, 1, k);
    var step := if expiry then Expire(k) else ForeignRelease(k);
    t := Apply(b, step);
    Reach(b, step);
  }

  /** Between rounds: the key is free, ids from n on are fresh, and the key has had so many faults and as many jobs. */
  ghost predicate Round(s: State, k: Key, n: nat, expiries: nat, releases: nat, timeouts: nat) {
    && Reachable(s) && k !in s.keys
    && (forall id | id in s.requests || id in s.jobs || id in s.timedOut :: id < n)
    && s.expiries[k] == expiries && s.foreignReleases[k] == releases
    && |JobsOf(s, k)| == expiries + releases + timeouts && |TimedOutOf(s, k)| == timeouts
  }

  lemma FirstRound(k: Key)
    ensures Round(INITIAL, k, 0, 0, 0, 0)
  {
    InitialIsReachable();
    assert JobsOf(INITIAL, k) == {} && TimedOutOf(INITIAL, k) == {};
  }

  /** t differs from s by the request n, which has the key and a job, and by a timeout of n if it timed out. */
  ghost predicate OneMore(s: State, t: State, k: Key, n: nat, timedOut: bool) {
    && HasKey(t, n, k) && t.requests.Keys == s.requests.Keys + {n}
    && (forall id | id in s.requests :: t.requests[id] == s.requests[id])
    && t.jobs == s.jobs + [n]
    && t.timedOut == (if timedOut then s.timedOut + {n} else s.timedOut)
  }

  lemma OneMoreCounts(s: State, t: State, k: Key, n: nat, timedOut: bool)
    requires OneMore(s, t, k, n, timedOut)
    requires forall id | id in s.requests || id in s.jobs || id in s.timedOut :: id < n
    ensures JobsOf(t, k) == JobsOf(s, k) + {n} && n !in JobsOf(s, k)
    ensures TimedOutOf(t, k) == (if timedOut then TimedOutOf(s, k) + {n} else TimedOutOf(s, k))
      && n !in TimedOutOf(s, k)
  {
    forall id
      ensures id in JobsOf(t, k) <==> id in JobsOf(s, k) || id == n
      ensures id in TimedOutOf(t, k) <==> id in TimedOutOf(s, k) || (timedOut && id == n)
    {
      assert id in t.jobs <==> id in s.jobs || id == n;
    }
  }

  lemma NextRound(s: State, t: State, k: Key, n: nat, e: nat, f: nat, o: nat, e1: nat, f1: nat, timedOut: bool)
    requires Round(s, k, n, e, f, o) && OneMore(s, t, k, n, timedOut) && Reachable(t) && k !in t.keys
    requires t.expiries[k] == e1 && t.foreignReleases[k] == f1 && e1 + f1 + One(timedOut) == e + f + 1
    ensures Round(t, k, n + 1, e1, f1, o + One(timedOut))
  {
    hide Reachable, OneMore, JobsOf, TimedOutOf;
    OneMoreCounts(s, t, k, n, timedOut);
    OneMoreIds(s, t, k, n, timedOut);
  }

  lemma OneMoreIds(s: State, t: State, k: Key, n: nat, timedOut: bool)
    requires OneMore(s, t, k, n, timedOut)
    requires forall id | id in s.requests || id in s.jobs || id in s.timedOut :: id < n
    ensures forall id | id in t.requests || id in t.jobs || id in t.timedOut :: id < n + 1
  {
  }

  lemma QueueOne(s: State, k: Key, n: nat) returns (u: State)
    requires Reachable(s) && k !in s.keys && n !in s.requests
    ensures Reachable(u) && OneMore(s, u, k, n, false) && k in u.keys
    ensures u.expiries == s.expiries && u.foreignReleases == s.foreignReleases
  {
    hide Reachable;
    var a := ReachEnqueueing(s, n, k);
    u := ReachQueued(a, n, k);
  }

  lemma DisturbanceEffect(s: State, k: Key)
    requires k in s.keys
    ensures Apply(s, Expire(k)) == s.(keys := s.keys - {k}, expiries := s.expiries + multiset{k})
    ensures Apply(s, ForeignRelease(k)) == s.(keys := s.keys - {k}, foreignReleases := s.foreignReleases + multiset{k})
  {
  }

  lemma DisturbedRound(s: State, k: Key, n: nat, e: nat, f: nat, t: nat, expiry: bool) returns (u: State)
    requires Round(s, k, n, e, f, t)
    ensures Round(u, k, n + 1, e + One(expiry), f + One(!expiry), t)
  {
    hide Reachable, JobsOf, TimedOutOf;
    var b := QueueOne(s, k, n);
    var step := if expiry then Expire(k) else ForeignRelease(k);
    DisturbanceEffect(b, k);
    hide Apply;
    u := Apply(b, step);
    Reach(b, step);
    assert OneMore(s, u, k, n, false);
    hide OneMore;
    NextRound(s, u, k, n, e, f, t, e + One(expiry), f + One(!expiry), false);
  }

  lemma LandingEffect(s: State, id: Id)
    requires id in s.pendingAdds
    ensures Apply(s, AddLands(id)) == s.(pendingAdds := s.pendingAdds - {id}, jobs := s.jobs + [id])
  {
  }

  lemma TimeOutOne(s: State, k: Key, n: nat) returns (u: State)
    requires Reachable(s) && k !in s.keys && n !in s.requests
    ensures Reachable(u) && OneMore(s, u, k, n, true) && k !in u.keys
    ensures u.expiries == s.expiries && u.foreignReleases == s.foreignReleases
  {
    hide Reachable;
    var a := ReachEnqueueing(s, n, k);
    var b := ReachReleased(a, n, k);
    LandingEffect(b, n);
    hide Apply;
    u := Apply(b, AddLands(n));
    Reach(b, AddLands(n));
  }

  lemma TimedOutRound(s: State, k: Key, n: nat, e: nat, f: nat, t: nat) returns (u: State)
    requires Round(s, k, n, e, f, t)
    ensures Round(u, k, n + 1, e, f, t + 1)
  {
    hide Reachable, JobsOf, TimedOutOf, OneMore;
    u := TimeOutOne(s, k, n);
    NextRound(s, u, k, n, e, f, t, e, f, true);
  }

  lemma {:induction false} ReachRound(k: Key, e: nat, f: nat, t: nat) returns (s: State)
    ensures Round(s, k, e + f + t, e, f, t)
    decreases e + f + t
  {
    hide Round;
    if e > 0 {
      s := ReachRound(k, e - 1, f, t);
      s := DisturbedRound(s, k, e - 1 + f + t, e - 1, f, t, true);
    } else if f > 0 {
      s := ReachRound(k, e, f - 1, t);
      s := DisturbedRound(s, k, e + f - 1 + t, e, f - 1, t, false);
    } else if t > 0 {
      s := ReachRound(k, e, f, t - 1);
      s := TimedOutRound(s, k, e + f + t - 1, e, f, t - 1);
    } else {
      FirstRound(k);
      s := INITIAL;
    }
  }
}
