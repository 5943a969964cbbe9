/**
 * Scheduled notifications (scheduler.service.ts): a reconciler takes a snapshot of the overdue rows and works through
 * it, one write at a time. Owners cancel in between, and the process may crash between any two writes.
 */
module Scheduler {
  type Id = nat

  const SNAPSHOT_SIZE: nat := 200

  datatype Status = Pending | Running | Completed | Failed | Cancelled

  /** `recurring`: scheduleType is RECURRING and there is a cron expression. */
  datatype Row = Row(recurring: bool, hasWallet: bool, status: Status)

  /** Where the reconciler is with the first row of what is left of its snapshot. */
  datatype Stage = AtStart | Marked | Noted | Enqueued

  datatype World = World(rows: map<Id, Row>, added: multiset<Id>, todo: seq<Id>, stage: Stage)

  const START := World(map[], multiset{}, [], AtStart)

  datatype Event =
    | Scheduled(id: Id, recurring: bool, hasWallet: bool)
    | CancelAsked(id: Id)
    | Tick(overdue: seq<Id>)
    | Mark
    | CreateNotification
    | AddJob
    | Finish
    | Throws(jobLanded: bool, failedWritten: bool)
    | Crash

  ghost predicate Distinct(s: seq<Id>) {
    forall i, j | 0 <= i < j < |s| :: s[i] != s[j]
  }

  /** Which rows are overdue depends on the clock; a snapshot is any 200 pending rows. One reconciler at a time. */
  ghost predicate Enabled(w: World, e: Event) {
    match e
    case Scheduled(id, _, _) => id !in w.rows
    case CancelAsked(_) => true
    case Tick(overdue) =>
      && w.todo == [] && |overdue| <= SNAPSHOT_SIZE && Distinct(overdue)
      && forall id :: id in overdue ==> id in w.rows && w.rows[id].status == Pending
    case Mark => w.todo != [] && w.stage == AtStart && w.todo[0] in w.rows
    case CreateNotification => w.todo != [] && w.stage == Marked && w.todo[0] in w.rows && w.rows[w.todo[0]].hasWallet
    case AddJob => w.todo != [] && w.stage == Noted
    case Finish =>
      && w.todo != [] && w.todo[0] in w.rows
      && (w.stage == Enqueued || (w.stage == Marked && !w.rows[w.todo[0]].hasWallet))
    case Throws(jobLanded, _) => w.todo != [] && w.todo[0] in w.rows && (jobLanded ==> w.stage == Noted)
    case Crash => true
  }

  function SetStatus(rows: map<Id, Row>, id: Id, status: Status): map<Id, Row> {
    if id in rows then rows[id := rows[id].(status := status)] else rows
  }

  function Next(w: World, e: Event): World
    requires e.Mark? || e.AddJob? || e.Finish? || e.Throws? ==> w.todo != []
  {
    match e
    case Scheduled(id, recurring, hasWallet) => w.(rows := w.rows[id := Row(recurring, hasWallet, Pending)])
    case CancelAsked(id) =>
      if id in w.rows && w.rows[id].status == Pending then w.(rows := SetStatus(w.rows, id, Cancelled)) else w
    case Tick(overdue) => w.(todo := overdue, stage := AtStart)
    case Mark => w.(rows := SetStatus(w.rows, w.todo[0], Running), stage := Marked)
    case CreateNotification => w.(stage := Noted)
    case AddJob => w.(added := w.added + multiset{w.todo[0]}, stage := Enqueued)
    case Finish =>
      var recurring := w.todo[0] in w.rows && w.rows[w.todo[0]].recurring;
      World(SetStatus(w.rows, w.todo[0], if recurring then Pending else Completed), w.added, w.todo[1..], AtStart)
    case Throws(jobLanded, failedWritten) =>
      World(
        if failedWritten then SetStatus(w.rows, w.todo[0], Failed) else w.rows,
        if jobLanded then w.added + multiset{w.todo[0]} else w.added,
        w.todo[1..], AtStart)
    case Crash => w.(todo := [], stage := AtStart)
  }

  // ------------------------------------------------------------------ the loop, undisturbed

  /**
   * Which statement of the turn throws, if any; whether an add that threw landed after all; and whether the write of
   * FAILED in the handler goes through.
   */
  datatype Outcome =
    | Succeeds
    | MarkThrows(failedWritten: bool)
    | CreateThrows(failedWritten: bool)
    | AddThrows(landed: bool, failedWritten: bool)
    | FinishThrows(failedWritten: bool)

  /** Without a wallet no notification is created and no job added, so these cannot throw. */
  predicate Throwing(row: Row, o: Outcome) {
    o.MarkThrows? || o.FinishThrows? || (row.hasWallet && !o.Succeeds?)
  }

  /** The events of one row of the snapshot when nothing else happens. */
  function RowEvents(row: Row, o: Outcome): seq<Event> {
    if o.MarkThrows? then [Throws(false, o.failedWritten)]
    else if !row.hasWallet then (if o.FinishThrows? then [Mark, Throws(false, o.failedWritten)] else [Mark, Finish])
    else match o
      case CreateThrows(w) => [Mark, Throws(false, w)]
      case AddThrows(landed, w) => [Mark, CreateNotification, Throws(landed, w)]
      case FinishThrows(w) => [Mark, CreateNotification, AddJob, Throws(false, w)]
      case _ => [Mark, CreateNotification, AddJob, Finish]
  }

  /** What these events do to the row and to the queue. */
  function RowAfter(row: Row, o: Outcome): Row {
    row.(status :=
      if !Throwing(row, o) then (if row.recurring then Pending else Completed)
      else if o.failedWritten then Failed
      else if o.MarkThrows? then row.status
      else Running)
  }

  predicate Adds(row: Row, o: Outcome) {
    row.hasWallet && (o.Succeeds? || o.FinishThrows? || (o.AddThrows? && o.landed))
  }

  /**
   * Where a turn leaves a pending row: with its job if the add went through, whatever threw later; and failed, if
   * anything threw and FAILED could be written, otherwise where it was when it threw.
   */
  lemma TurnMeans(row: Row, o: Outcome)
    requires row.status == Pending
    ensures var threw := o.MarkThrows? || o.FinishThrows? || (row.hasWallet && (o.CreateThrows? || o.AddThrows?));
      var after := RowAfter(row, o);
      && (after.status == Failed <==> threw && o.failedWritten)
      && (after.status == Running <==> threw && !o.failedWritten && !o.MarkThrows?)
      && (after.status == Completed <==> !threw && !row.recurring)
      && (after.status == Pending <==> if threw then o.MarkThrows? && !o.failedWritten else row.recurring)
      && after.recurring == row.recurring && after.hasWallet == row.hasWallet
    ensures Adds(row, o) <==>
      row.hasWallet && !o.MarkThrows? && !o.CreateThrows? && (o.AddThrows? ==> o.landed)
  {
  }

  ghost predicate Performs(w: World, events: seq<Event>, w': World)
    decreases |events|
  {
    if events == [] then w' == w
    else Enabled(w, events[0]) && Performs(Next(w, events[0]), events[1..], w')
  }

  lemma PerformsOne(w: World, e: Event, rest: seq<Event>, w': World)
    requires Enabled(w, e) && Performs(Next(w, e), rest, w')
    ensures forall events :: events == [e] + rest ==> Performs(w, events, w')
  {
    assert ([e] + rest)[1..] == rest;
  }

  lemma PerformsNone(w: World)
    ensures Performs(w, [], w)
  {
  }

  /** The state after one turn of the loop on the first row of the snapshot. */
  function TurnAfter(w: World, o: Outcome): World
    requires w.todo != [] && w.todo[0] in w.rows
  {
    var id, row := w.todo[0], w.rows[w.todo[0]];
    var added := w.added + (if Adds(row, o) then multiset{id} else multiset{});
    World(w.rows[id := RowAfter(row, o)], added, w.todo[1..], AtStart)
  }

  lemma WrittenTwice(rows: map<Id, Row>, id: Id, a: Row, b: Row)
    ensures rows[id := a][id := b] == rows[id := b]
  {
  }

  lemma TurnBasics(w: World, o: Outcome)
    requires w.todo != [] && w.stage == AtStart && w.todo[0] in w.rows
    ensures var id, row := w.todo[0], w.rows[w.todo[0]];
      && w.added + multiset{} == w.added
      && w.rows[id := row.(status := Running)][id := RowAfter(row, o)] == w.rows[id := RowAfter(row, o)]
      && w.rows[id := row] == w.rows
  {
    WrittenTwice(w.rows, w.todo[0], w.rows[w.todo[0]].(status := Running), RowAfter(w.rows[w.todo[0]], o));
  }

  lemma MarkThrowsTurn(w: World, o: Outcome)
    requires w.todo != [] && w.stage == AtStart && w.todo[0] in w.rows && o.MarkThrows?
    ensures Performs(w, [Throws(false, o.failedWritten)], TurnAfter(w, o))
  {
    TurnBasics(w, o);
    PerformsNone(TurnAfter(w, o));
    hide Performs;
    PerformsOne(w, Throws(false, o.failedWritten), [], TurnAfter(w, o));
  }

  /** A turn that ends right after the mark. */
  lemma ShortTurn(w: World, o: Outcome, last: Event)
    requires w.todo != [] && w.stage == AtStart && w.todo[0] in w.rows
    requires var row := w.rows[w.todo[0]];
      if last == Finish then !row.hasWallet && !Throwing(row, o)
      else (if row.hasWallet then o.CreateThrows? else o.FinishThrows?) && last == Throws(false, o.failedWritten)
    ensures Performs(w, [Mark, last], TurnAfter(w, o))
  {
    TurnBasics(w, o);
    PerformsNone(TurnAfter(w, o));
    hide Performs;
    PerformsOne(Next(w, Mark), last, [], TurnAfter(w, o));
    PerformsOne(w, Mark, [last], TurnAfter(w, o));
  }

  lemma FailedAdd(w: World, o: Outcome)
    requires w.todo != [] && w.stage == AtStart && w.todo[0] in w.rows && w.rows[w.todo[0]].hasWallet && o.AddThrows?
    ensures Performs(w, [Mark, CreateNotification, Throws(o.landed, o.failedWritten)], TurnAfter(w, o))
  {
    TurnBasics(w, o);
    PerformsNone(TurnAfter(w, o));
    hide Performs;
    var last := Throws(o.landed, o.failedWritten);
    var w1 := Next(w, Mark);
    PerformsOne(w1.(stage := Noted), last, [], TurnAfter(w, o));
    PerformsOne(w1, CreateNotification, [last], TurnAfter(w, o));
    PerformsOne(w, Mark, [CreateNotification, last], TurnAfter(w, o));
  }

  lemma FullTurn(w: World, o: Outcome, last: Event)
    requires w.todo != [] && w.stage == AtStart && w.todo[0] in w.rows && w.rows[w.todo[0]].hasWallet
    requires (o.Succeeds? && last == Finish) || (o.FinishThrows? && last == Throws(false, o.failedWritten))
    ensures Performs(w, [Mark, CreateNotification, AddJob, last], TurnAfter(w, o))
  {
    TurnBasics(w, o);
    PerformsNone(TurnAfter(w, o));
    hide Performs;
    var w1 := Next(w, Mark);
    var w2 := w1.(stage := Noted);
    PerformsOne(Next(w2, AddJob), last, [], TurnAfter(w, o));
    PerformsOne(w2, AddJob, [last], TurnAfter(w, o));
    PerformsOne(w1, CreateNotification, [AddJob, last], TurnAfter(w, o));
    PerformsOne(w, Mark, [CreateNotification, AddJob, last], TurnAfter(w, o));
  }

  /** One turn of the loop, wherever it throws, is a run of the steps above, and has the effect of RowAfter. */
  lemma TurnIsSteps(w: World, o: Outcome)
    requires w.todo != [] && w.stage == AtStart && w.todo[0] in w.rows
    ensures Performs(w, RowEvents(w.rows[w.todo[0]], o), TurnAfter(w, o))
  {
    hide Performs, TurnAfter;
    var row := w.rows[w.todo[0]];
    if o.MarkThrows? {
      MarkThrowsTurn(w, o);
    } else if !row.hasWallet {
      ShortTurn(w, o, if o.FinishThrows? then Throws(false, o.failedWritten) else Finish);
    } else if o.CreateThrows? {
      ShortTurn(w, o, Throws(false, o.failedWritten));
    } else if o.AddThrows? {
      FailedAdd(w, o);
    } else {
      FullTurn(w, o, if o.FinishThrows? then Throws(false, o.failedWritten) else Finish);
    }
  }

  class SchedulerService {
    var rows: map<Id, Row>
    var added: seq<Id>

    constructor (table: map<Id, Row>)
      ensures rows == table && added == []
    {
      rows, added := table, [];
    }

    method CancelScheduled(id: Id)
      modifies this`rows
      ensures rows
        == if id in old(rows) && old(rows[id]).status == Pending then SetStatus(old(rows), id, Cancelled) else old(rows)
    {
      if id in rows && rows[id].status == Pending {
        rows := rows[id := rows[id].(status := Cancelled)];
      }
    }

    /** One turn of the loop over the snapshot: the writes in the order of the source. */
    method ReconcileOne(id: Id, o: Outcome)
      requires id in rows
      modifies this
      ensures rows == old(rows)[id := RowAfter(old(rows[id]), o)]
      ensures added == old(added) + if Adds(old(rows[id]), o) then [id] else []
    {
      var job := rows[id];
      if o.MarkThrows? {
        MarkFailed(id, o.failedWritten);
        return;
      }
      rows := rows[id := job.(status := Running)];
      if job.hasWallet {
        if o.CreateThrows? {
          MarkFailed(id, o.failedWritten);
          return;
        }
        if o.AddThrows? {
          if o.landed {
            added := added + [id];
          }
          MarkFailed(id, o.failedWritten);
          return;
        }
        added := added + [id];
      }
      if o.FinishThrows? {
        MarkFailed(id, o.failedWritten);
      } else if job.recurring {
        rows := rows[id := job.(status := Pending)];
      } else {
        rows := rows[id := job.(status := Completed)];
      }
    }

    /** The handler's own write, whose failure is swallowed. */
    method MarkFailed(id: Id, written: bool)
      requires id in rows
      modifies this`rows
      ensures rows == if written then old(rows)[id := old(rows[id]).(status := Failed)] else old(rows)
    {
      if written {
        rows := rows[id := rows[id].(status := Failed)];
      }
    }

    /** The whole loop: every row of the snapshot is settled by its own outcome, and no other row changes. */
    method ReconcilePendingJobs(overdue: seq<Id>, outcomes: map<Id, Outcome>)
      requires Distinct(overdue) && forall id :: id in overdue ==> id in rows && id in outcomes
      modifies this
      ensures rows.Keys == old(rows).Keys
      ensures forall id | id in rows ::
        rows[id] == if id in overdue then RowAfter(old(rows)[id], outcomes[id]) else old(rows)[id]
      ensures forall id ::
        multiset(added)[id]
        == multiset(old(added))[id] + if id in overdue && Adds(old(rows)[id], outcomes[id]) then 1 else 0
    {
      hide RowAfter, Adds;
      for i := 0 to |overdue|
        invariant rows.Keys == old(rows).Keys
        invariant forall id | id in rows ::
          rows[id] == if id in overdue[..i] then RowAfter(old(rows)[id], outcomes[id]) else old(rows)[id]
        invariant forall id ::
          multiset(added)[id]
          == multiset(old(added))[id] + if id in overdue[..i] && Adds(old(rows)[id], outcomes[id]) then 1 else 0
      {
        assert overdue[i] !in overdue[..i];
        assert forall id :: id in overdue[..i + 1] <==> id in overdue[..i] || id == overdue[i];
        ReconcileOne(overdue[i], outcomes[overdue[i]]);
      }
      assert overdue[..|overdue|] == overdue;
    }
  }

  // ------------------------------------------------------------------ runs

  ghost predicate IsRun(worlds: seq<World>, events: seq<Event>) {
    && |worlds| == |events| + 1
    && forall i | 0 <= i < |events| :: Enabled(worlds[i], events[i]) && worlds[i + 1] == Next(worlds[i], events[i])
  }

  predicate Waiting(s: Status) {
    s == Pending || s == Cancelled
  }

  /** The row is in the part of the snapshot that has not been marked. */
  predicate Ahead(w: World, id: Id) {
    id in (if w.stage == AtStart || w.todo == [] then w.todo else w.todo[1..])
  }

  predicate Current(w: World, id: Id) {
    w.todo != [] && w.todo[0] == id && w.stage != AtStart
  }

  /** What holds of one row at every moment. */
  ghost predicate RowFits(w: World, id: Id)
    requires id in w.rows
  {
    var row, n := w.rows[id], w.added[id];
    && (Ahead(w, id) ==> Waiting(row.status))
    && (Current(w, id) ==> row.status == Running)
    && (Current(w, id) && w.stage != Marked ==> row.hasWallet)
    && (row.recurring ==> row.status != Completed)
    && (row.recurring ||
        (&& n <= 1
         && (Waiting(row.status) ==> n == 0)
         && (Current(w, id) ==> n == if w.stage == Enqueued then 1 else 0)
         && (row.status == Completed ==> n == if row.hasWallet then 1 else 0)))
  }

  ghost predicate Sound(w: World) {
    && Distinct(w.todo)
    && (forall id :: id in w.todo ==> id in w.rows)
    && (forall id :: id in w.added ==> id in w.rows)
    && forall id | id in w.rows :: RowFits(w, id)
  }

  lemma FitsAfterTick(w: World, overdue: seq<Id>, id: Id)
    requires Sound(w) && Enabled(w, Tick(overdue)) && id in w.rows
    ensures RowFits(Next(w, Tick(overdue)), id)
  {
    assert RowFits(w, id);
  }

  lemma FitsAfterMove(w: World, e: Event, id: Id)
    requires Sound(w) && Enabled(w, e) && id in Next(w, e).rows
    requires e.Scheduled? || e.CancelAsked? || e.Crash? || e.CreateNotification?
    ensures RowFits(Next(w, e), id)
  {
    assert id in w.rows ==> RowFits(w, id);
  }

  lemma FitsAfterWrite(w: World, e: Event, id: Id)
    requires Sound(w) && Enabled(w, e) && id in Next(w, e).rows
    requires e.Mark? || e.AddJob?
    ensures RowFits(Next(w, e), id)
  {
    assert RowFits(w, id) && RowFits(w, w.todo[0]);
    assert forall i | 1 <= i < |w.todo| :: w.todo[i] != w.todo[0];
  }

  lemma FitsAfterTurn(w: World, e: Event, id: Id)
    requires Sound(w) && Enabled(w, e) && id in Next(w, e).rows
    requires e.Finish? || e.Throws?
    ensures RowFits(Next(w, e), id)
  {
    assert RowFits(w, id) && RowFits(w, w.todo[0]);
    assert forall i | 1 <= i < |w.todo| :: w.todo[i] != w.todo[0];
    assert Next(w, e).todo == w.todo[1..];
  }

  lemma StepKeepsShape(w: World, e: Event)
    requires Sound(w) && Enabled(w, e)
    ensures var w' := Next(w, e);
      && Distinct(w'.todo)
      && (forall id :: id in w'.todo ==> id in w'.rows)
      && (forall id :: id in w'.added ==> id in w'.rows)
  {
    hide RowFits;
    var w' := Next(w, e);
    assert forall id :: id in w'.added ==> id in w.added || (w.todo != [] && id == w.todo[0]);
  }

  lemma StepKeepsSound(w: World, e: Event)
    requires Sound(w) && Enabled(w, e)
    ensures Sound(Next(w, e))
  {
    var w' := Next(w, e);
    StepKeepsShape(w, e);
    forall id | id in w'.rows ensures RowFits(w', id) {
      match e
      case Tick(overdue) => FitsAfterTick(w, overdue, id);
      case Scheduled(_, _, _) => FitsAfterMove(w, e, id);
      case CancelAsked(_) => FitsAfterMove(w, e, id);
      case Crash => FitsAfterMove(w, e, id);
      case CreateNotification => FitsAfterMove(w, e, id);
      case Mark => FitsAfterWrite(w, e, id);
      case AddJob => FitsAfterWrite(w, e, id);
      case Finish => FitsAfterTurn(w, e, id);
      case Throws(_, _) => FitsAfterTurn(w, e, id);
    }
    hide RowFits, Next, Enabled;
  }

  lemma {:induction false} RunsAreSound(worlds: seq<World>, events: seq<Event>, n: nat)
    requires IsRun(worlds, events) && worlds[0] == START && n <= |events|
    ensures Sound(worlds[n])
    decreases n
  {
    if n > 0 {
      hide Sound, Next, Enabled;
      RunsAreSound(worlds, events, n - 1);
      StepKeepsSound(worlds[n - 1], events[n - 1]);
    }
  }

  // ------------------------------------------------------------------ main results

  /**
   * Whatever crashes, throws and cancels come in between, a one-time schedule adds at most one delivery job; and none
   * while it waits or is cancelled. When it says completed, the job was added, if it has a wallet to deliver to.
   */
  lemma OneTimeAddsAtMostOneJob(worlds: seq<World>, events: seq<Event>, n: nat, id: Id)
    requires IsRun(worlds, events) && worlds[0] == START && n <= |events|
    requires id in worlds[n].rows && !worlds[n].rows[id].recurring
    ensures worlds[n].added[id] <= 1
    ensures Waiting(worlds[n].rows[id].status) ==> worlds[n].added[id] == 0
    ensures worlds[n].rows[id].status == Completed
      ==> worlds[n].added[id] == if worlds[n].rows[id].hasWallet then 1 else 0
  {
    RunsAreSound(worlds, events, n);
    assert RowFits(worlds[n], id);
  }

  predicate Settled(w: World, id: Id, status: Status) {
    id in w.rows && w.rows[id].status == status && id !in w.todo
  }

  lemma SettledStep(w: World, e: Event, id: Id, status: Status)
    requires Enabled(w, e) && Settled(w, id, status) && status != Pending
    ensures Settled(Next(w, e), id, status) && Next(w, e).added[id] == w.added[id]
  {
    hide Distinct;
    if w.todo != [] {
      assert w.todo[0] != id;
    }
  }

  /** A row that is not pending and not in a snapshot is never written again. */
  lemma {:induction false} SettledStays(worlds: seq<World>, events: seq<Event>, n: nat, id: Id, status: Status)
    requires IsRun(worlds, events) && n <= |events|
    requires Settled(worlds[0], id, status) && status != Pending
    ensures Settled(worlds[n], id, status) && worlds[n].added[id] == worlds[0].added[id]
    decreases n
  {
    if n > 0 {
      SettledStays(worlds, events, n - 1, id, status);
      assert Enabled(worlds[n - 1], events[n - 1]) && worlds[n] == Next(worlds[n - 1], events[n - 1]);
      hide Enabled, Next, Settled;
      SettledStep(worlds[n - 1], events[n - 1], id, status);
    }
  }

  ghost predicate CanBecome(w: World, id: Id, status: Status) {
    exists worlds: seq<World>, events: seq<Event> ::
      IsRun(worlds, events) && worlds[0] == w && id in worlds[|events|].rows
        && worlds[|events|].rows[id].status == status
  }

  lemma ConsIsRun(w: World, e: Event, worlds: seq<World>, events: seq<Event>)
    requires IsRun(worlds, events) && Enabled(w, e) && worlds[0] == Next(w, e)
    ensures IsRun([w] + worlds, [e] + events)
  {
    hide Next;
    var worlds', events' := [w] + worlds, [e] + events;
    forall i | 0 <= i < |events'|
      ensures Enabled(worlds'[i], events'[i]) && worlds'[i + 1] == Next(worlds'[i], events'[i]) {
      if i > 0 {
        assert worlds'[i] == worlds[i - 1] && events'[i] == events[i - 1] && worlds'[i + 1] == worlds[i];
      }
    }
  }

  lemma Prepend(w: World, e: Event, id: Id, status: Status)
    requires Enabled(w, e) && CanBecome(Next(w, e), id, status)
    ensures CanBecome(w, id, status)
  {
    var worlds: seq<World>, events: seq<Event> :| IsRun(worlds, events) && worlds[0] == Next(w, e)
      && id in worlds[|events|].rows && worlds[|events|].rows[id].status == status;
    ConsIsRun(w, e, worlds, events);
    assert ([w] + worlds)[|[e] + events|] == worlds[|events|];
    hide Enabled, Next;
  }

  lemma Now(w: World, id: Id)
    requires id in w.rows
    ensures CanBecome(w, id, w.rows[id].status)
  {
    var worlds, events: seq<Event> := [w], [];
    assert IsRun(worlds, events);
  }

  /** A row ahead in the snapshot can be marked RUNNING, whatever its status has become. */
  lemma {:induction false} AheadCanRun(w: World, id: Id, position: nat)
    requires (forall d :: d in w.todo ==> d in w.rows) && position < |w.todo| && w.todo[position] == id
    requires w.stage == AtStart || position > 0
    ensures CanBecome(w, id, Running)
    decreases position
  {
    if position == 0 {
      Now(Next(w, Mark), id);
      Prepend(w, Mark, id, Running);
    } else {
      var e := Throws(false, false);
      assert Next(w, e).todo == w.todo[1..];
      AheadCanRun(Next(w, e), id, position - 1);
      Prepend(w, e, id, Running);
    }
  }

  /**
   * A cancelled schedule can still run if and only if the cancel came after the reconciler's snapshot and before the
   * row's turn: the RUNNING write does not look at the status again. Outside that window a cancel is final.
   */
  lemma CancelIsFinalIff(w: World, id: Id)
    requires Sound(w) && id in w.rows && w.rows[id].status == Cancelled
    ensures CanBecome(w, id, Running) <==> id in w.todo
  {
    assert RowFits(w, id);
    if id in w.todo {
      var position :| 0 <= position < |w.todo| && w.todo[position] == id;
      AheadCanRun(w, id, position);
    } else {
      forall worlds: seq<World>, events: seq<Event> | IsRun(worlds, events) && worlds[0] == w
        ensures id in worlds[|events|].rows && worlds[|events|].rows[id].status == Cancelled
      {
        SettledStays(worlds, events, |events|, id, Cancelled);
      }
    }
  }

  /** So a pending schedule that is cancelled can run nevertheless if and only if it is in the snapshot already. */
  lemma CancelPreventsIff(w: World, id: Id)
    requires Sound(w) && id in w.rows && w.rows[id].status == Pending
    ensures CanBecome(Next(w, CancelAsked(id)), id, Running) <==> id in w.todo
  {
    StepKeepsSound(w, CancelAsked(id));
    CancelIsFinalIff(Next(w, CancelAsked(id)), id);
  }

  /** The row says RUNNING, and no reconciler is at it. */
  predicate Stuck(w: World, id: Id) {
    id in w.rows && w.rows[id].status == Running && !Current(w, id)
  }

  /** What ends the turn of a marked row without another write to it. */
  predicate Abandons(e: Event) {
    e.Crash? || (e.Throws? && !e.failedWritten)
  }

  /** The price of marking first: a RUNNING row can change again if and only if a reconciler is at it. */
  lemma RunningForEverIff(w: World, id: Id)
    requires Sound(w) && id in w.rows && w.rows[id].status == Running
    ensures (exists status | status != Running :: CanBecome(w, id, status)) <==> Current(w, id)
  {
    assert RowFits(w, id);
    if Current(w, id) {
      var e := Throws(false, true);
      Now(Next(w, e), id);
      Prepend(w, e, id, Failed);
    } else {
      forall worlds: seq<World>, events: seq<Event> | IsRun(worlds, events) && worlds[0] == w
        ensures id in worlds[|events|].rows && worlds[|events|].rows[id].status == Running
      {
        SettledStays(worlds, events, |events|, id, Running);
      }
    }
  }

  /**
   * A row gets stuck in exactly two ways, both after its mark: the process crashes, or the turn throws and the write of
   * FAILED, whose own failure is swallowed, does not go through either.
   */
  lemma GetsStuckIff(w: World, e: Event, id: Id)
    requires Sound(w) && Enabled(w, e)
    ensures Stuck(Next(w, e), id) <==> Stuck(w, id) || (Current(w, id) && Abandons(e))
  {
    if id in w.rows {
      assert RowFits(w, id);
    }
    if w.todo != [] && w.todo[0] in w.rows {
      assert RowFits(w, w.todo[0]);
    }
    assert forall i | 1 <= i < |w.todo| :: w.todo[i] != w.todo[0];
  }

  /** From then on it stays RUNNING and no job is added for it; a one-time schedule has the job its turn had added. */
  lemma StuckIsForever(w: World, e: Event, worlds: seq<World>, events: seq<Event>, n: nat, id: Id)
    requires Sound(w) && id in w.rows && Current(w, id) && Enabled(w, e) && Abandons(e)
    requires IsRun(worlds, events) && worlds[0] == Next(w, e) && n <= |events|
    ensures id in worlds[n].rows && worlds[n].rows[id].status == Running
    ensures worlds[n].added[id] == Next(w, e).added[id]
    ensures !w.rows[id].recurring ==>
      worlds[n].added[id] == if w.stage == Enqueued || (e.Throws? && e.jobLanded) then 1 else 0
  {
    assert RowFits(w, id);
    assert forall i | 1 <= i < |w.todo| :: w.todo[i] != w.todo[0];
    SettledStays(worlds, events, n, id, Running);
  }

  // ------------------------------------------------------------------ what a status says, and what comes after a turn

  /** The event i of a run is of the kind that writes this status to the row. */
  ghost predicate Writes(worlds: seq<World>, events: seq<Event>, i: nat, id: Id, status: Status)
    requires i < |events| < |worlds|
  {
    var w, e := worlds[i], events[i];
    match status
    case Pending => (e.Scheduled? && e.id == id) || (e.Finish? && w.todo != [] && w.todo[0] == id)
    case Running => e.Mark? && w.todo != [] && w.todo[0] == id
    case Completed => e.Finish? && w.todo != [] && w.todo[0] == id
    case Failed => e.Throws? && e.failedWritten && w.todo != [] && w.todo[0] == id
    case Cancelled => e == CancelAsked(id)
  }

  /**
   * Every status has its cause: completed is the end of a turn that did not throw, failed of one that did and could say
   * so, running its beginning, and cancelled was asked for. A recurring schedule never says completed.
   */
  lemma {:induction false} StatusHasCause(worlds: seq<World>, events: seq<Event>, n: nat, id: Id)
    requires IsRun(worlds, events) && worlds[0] == START && n <= |events| && id in worlds[n].rows
    ensures exists i | 0 <= i < n :: Writes(worlds, events, i, id, worlds[n].rows[id].status)
    ensures worlds[n].rows[id].recurring ==> worlds[n].rows[id].status != Completed
    decreases n
  {
    RunsAreSound(worlds, events, n);
    assert RowFits(worlds[n], id);
    hide Sound, RowFits;
    var w, e := worlds[n - 1], events[n - 1];
    assert Enabled(w, e) && worlds[n] == Next(w, e);
    if id in w.rows && w.rows[id].status == worlds[n].rows[id].status {
      StatusHasCause(worlds, events, n - 1, id);
    } else {
      assert Writes(worlds, events, n - 1, id, worlds[n].rows[id].status);
    }
  }

  /** After a turn that did not throw, a schedule can run again if and only if it is recurring. */
  lemma RunsAgainIffRecurring(w: World, id: Id)
    requires Sound(w) && Enabled(w, Finish) && w.todo[0] == id
    ensures CanBecome(Next(w, Finish), id, Running) <==> w.rows[id].recurring
  {
    var v := Next(w, Finish);
    StepKeepsSound(w, Finish);
    assert RowFits(w, id);
    assert forall i | 1 <= i < |w.todo| :: w.todo[i] != id;
    if w.rows[id].recurring {
      PendingCanRun(v, id);
    } else {
      forall worlds: seq<World>, events: seq<Event> | IsRun(worlds, events) && worlds[0] == v
        ensures id in worlds[|events|].rows && worlds[|events|].rows[id].status == Completed
      {
        SettledStays(worlds, events, |events|, id, Completed);
      }
    }
  }

  /** A pending row can run: the reconciler starts anew, finds it and marks it. */
  lemma PendingCanRun(w: World, id: Id)
    requires id in w.rows && w.rows[id].status == Pending
    ensures CanBecome(w, id, Running)
  {
    var idle := Next(w, Crash);
    var found := Next(idle, Tick([id]));
    Now(Next(found, Mark), id);
    hide CanBecome;
    Prepend(found, Mark, id, Running);
    Prepend(idle, Tick([id]), id, Running);
    Prepend(w, Crash, id, Running);
  }

  /** The one schedule of a run, waiting, after n turns that each added its job. */
  function AfterTurns(id: Id, n: nat): World {
    World(map[id := Row(true, true, Pending)], multiset{}[id := n], [], AtStart)
  }

  ghost predicate Reaches(worlds: seq<World>, events: seq<Event>, w: World) {
    IsRun(worlds, events) && worlds[0] == START && worlds[|events|] == w
  }

  lemma Go(worlds: seq<World>, events: seq<Event>, w: World, e: Event)
      returns (worlds': seq<World>, events': seq<Event>)
    requires Reaches(worlds, events, w) && Enabled(w, e)
    ensures Reaches(worlds', events', Next(w, e))
  {
    hide Next;
    worlds', events' := worlds + [Next(w, e)], events + [e];
    forall i | 0 <= i < |events'|
      ensures Enabled(worlds'[i], events'[i]) && worlds'[i + 1] == Next(worlds'[i], events'[i])
    {
      assert i < |events| ==> worlds'[i] == worlds[i] && events'[i] == events[i] && worlds'[i + 1] == worlds[i + 1];
    }
  }

  lemma TurnOfRecurring(id: Id, n: nat)
    ensures var w := AfterTurns(id, n);
      var found := Next(w, Tick([id]));
      var marked := Next(found, Mark);
      var noted := Next(marked, CreateNotification);
      var added := Next(noted, AddJob);
      && Enabled(w, Tick([id])) && Enabled(found, Mark) && Enabled(marked, CreateNotification)
      && Enabled(noted, AddJob) && Enabled(added, Finish) && Next(added, Finish) == AfterTurns(id, n + 1)
  {
    var rows := map[id := Row(true, true, Pending)];
    assert rows[id := Row(true, true, Running)][id := Row(true, true, Pending)] == rows;
    assert multiset{}[id := n] + multiset{id} == multiset{}[id := n + 1];
  }

  /** A recurring schedule adds as many jobs as it has turns: for every k some run adds k. */
  lemma {:induction false} RecurringAddsAnyNumber(id: Id, k: nat) returns (worlds: seq<World>, events: seq<Event>)
    ensures IsRun(worlds, events) && worlds[0] == START
    ensures worlds[|events|].added[id] == k && worlds[|events|].rows == map[id := Row(true, true, Pending)]
    ensures Reaches(worlds, events, AfterTurns(id, k))
    decreases k
  {
    if k == 0 {
      assert Reaches([START], [], START);
      worlds, events := Go([START], [], START, Scheduled(id, true, true));
      assert multiset{}[id := 0] == multiset{};
      assert Next(START, Scheduled(id, true, true)) == AfterTurns(id, 0);
    } else {
      worlds, events := RecurringAddsAnyNumber(id, k - 1);
      TurnOfRecurring(id, k - 1);
      hide Next, Enabled, Reaches;
      var w := AfterTurns(id, k - 1);
      worlds, events := Go(worlds, events, w, Tick([id]));
      w := Next(w, Tick([id]));
      worlds, events := Go(worlds, events, w, Mark);
      w := Next(w, Mark);
      worlds, events := Go(worlds, events, w, CreateNotification);
      w := Next(w, CreateNotification);
      worlds, events := Go(worlds, events, w, AddJob);
      w := Next(w, AddJob);
      worlds, events := Go(worlds, events, w, Finish);
    }
  }
}
