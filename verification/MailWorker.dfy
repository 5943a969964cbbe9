/**
 * The mail worker (mail.worker.ts) as attempts that interleave: every notification has one queue job of up to three
 * attempts, and each attempt writes the notification row, then its result, then the protocol's send counter. Any
 * number of attempts of different notifications may be between any two of these writes.
 */
module MailWorker {
  import opened ChannelDispatch

  type Id = string
  type Protocol = string

  /** The queue is told `attempts: 3` when the job is added. */
  const MAX_ATTEMPTS: nat := 3

  datatype Status = Queued | Processing | Digested | OptedOut | Delivered | Partial | Failed

  datatype JobData = JobData(protocol: Protocol, sandbox: bool, digestMode: bool, testContact: Contacts)

  datatype Note = Note(data: JobData, status: Status, retryCount: nat)

  /** The notification rows and the protocols' sendsThisPeriod; a protocol not in `sends` has sent nothing. */
  datatype Tables = Tables(notes: map<Id, Note>, sends: map<Protocol, nat>)

  function SendsOf(t: Tables, p: Protocol): nat {
    if p in t.sends then t.sends[p] else 0
  }

  // ------------------------------------------------------------------ one attempt

  datatype Lookup = LookupThrows | NoIdentity | Identity
  datatype Decryption = DecryptionThrows | Decrypted(contacts: Contacts)
  datatype Dispatched = DispatchThrows | Summary(outcomes: seq<Outcome>)

  /** Everything the attempt learns from outside: the digest buffer, the identity, the enclave and the providers. */
  datatype Env = Env(digestThrows: bool, identity: Lookup, decryption: Decryption, dispatched: Dispatched)

  /** The status an attempt leaves, and whether it ends by throwing. */
  datatype Verdict = Verdict(status: Status, throws: bool)

  predicate AnyContact(c: Contacts) {
    c.email || c.telegram || c.phone
  }

  predicate AllDelivered(outcomes: seq<Outcome>) {
    outcomes != [] && Successes(outcomes) == |outcomes|
  }

  function Judge(d: JobData, env: Env): Verdict {
    if d.sandbox then JudgeSandbox(d, env) else JudgeProduction(d, env)
  }

  function JudgeSandbox(d: JobData, env: Env): Verdict {
    if !AnyContact(d.testContact) then Verdict(OptedOut, false)
    else match env.dispatched
      case DispatchThrows => Verdict(Failed, false)
      case Summary(outcomes) => Verdict(if Successes(outcomes) > 0 then Delivered else Failed, false)
  }

  function JudgeProduction(d: JobData, env: Env): Verdict {
    if d.digestMode then (if env.digestThrows then Verdict(Failed, true) else Verdict(Digested, false))
    else match env.identity
      case LookupThrows => Verdict(Failed, true)
      case NoIdentity => Verdict(OptedOut, false)
      case Identity =>
        match env.decryption
        case DecryptionThrows => Verdict(Failed, true)
        case Decrypted(contacts) =>
          if !AnyContact(contacts) then Verdict(OptedOut, false)
          else match env.dispatched
            case DispatchThrows => Verdict(Failed, true)
            case Summary(outcomes) =>
              if AllDelivered(outcomes) then Verdict(Delivered, false)
              else if Successes(outcomes) > 0 then Verdict(Partial, false)
              else Verdict(Failed, true)
  }

  /** The attempt gets as far as the providers, who answer. */
  predicate Answered(d: JobData, env: Env) {
    !d.digestMode && env.identity == Identity && env.decryption.Decrypted? && AnyContact(env.decryption.contacts)
      && env.dispatched.Summary?
  }

  predicate NoContact(c: Contacts) {
    !c.email && !c.telegram && !c.phone
  }

  /**
   * A production attempt says delivered when every channel tried succeeded and one was tried, partial when some
   * succeeded and some did not, opted out when there is no identity or it has no contact, and it throws exactly when it
   * says failed, which is in all other cases.
   */
  lemma VerdictMeans(d: JobData, env: Env)
    requires !d.sandbox
    ensures var v := Judge(d, env);
      && (v.status == Delivered <==>
            && Answered(d, env) && env.dispatched.outcomes != []
            && forall o :: o in env.dispatched.outcomes ==> o.success)
      && (v.status == Partial <==> Answered(d, env)
                                   && (exists o :: o in env.dispatched.outcomes && o.success)
                                   && (exists o :: o in env.dispatched.outcomes && !o.success))
      && (v.status == Digested <==> d.digestMode && !env.digestThrows)
      && (v.status == OptedOut <==>
            && !d.digestMode
            && (env.identity == NoIdentity
                || (env.identity == Identity && env.decryption.Decrypted? && NoContact(env.decryption.contacts))))
      && (v.throws <==> v.status == Failed)
      && v.status in {Delivered, Partial, Digested, OptedOut, Failed}
  {
    hide Successes;
  }

  /** A sandbox attempt never throws; it needs a test contact, and one success is enough. */
  lemma SandboxVerdictMeans(d: JobData, env: Env)
    requires d.sandbox
    ensures var v := Judge(d, env);
      && (v.status == OptedOut <==> NoContact(d.testContact))
      && (v.status == Delivered <==>
            && !NoContact(d.testContact) && env.dispatched.Summary?
            && exists o :: o in env.dispatched.outcomes && o.success)
      && v.status in {OptedOut, Delivered, Failed} && !v.throws
  {
    hide Successes;
  }

  /**
   * Sandbox and dispatch together: delivered if and only if some allowed channel succeeds, otherwise failed, or opted
   * out without a test contact.
   */
  lemma SandboxDeliveredIffSomeAllowedSucceeds(d: JobData, env: Env, job: Routing, deliver: Channel -> Delivery,
      tried: seq<Channel>)
    requires d.sandbox && env.dispatched == Summary(OutcomesOf(tried, deliver))
    requires forall c :: c in tried <==> Allowed(c, d.testContact, job)
    ensures var status := Judge(d, env).status;
      && (status == Delivered <==> exists c :: Allowed(c, d.testContact, job) && Succeeds(c, deliver))
      && (status == OptedOut <==> NoContact(d.testContact))
      && status in {OptedOut, Delivered, Failed}
  {
    SandboxVerdictMeans(d, env);
    SummaryIsAboutChannels(tried, deliver);
    assert forall c :: Allowed(c, d.testContact, job) ==> HasContact(c, d.testContact);
    hide OutcomesOf, Allowed, Succeeds;
  }

  /** The attempt's outcomes are those of the dispatch to these channels. */
  ghost predicate DispatchedTo(env: Env, contacts: Contacts, job: Routing, deliver: Channel -> Delivery,
      tried: seq<Channel>) {
    && env.identity == Identity && env.decryption == Decrypted(contacts)
    && env.dispatched == Summary(OutcomesOf(tried, deliver))
    && forall c :: c in tried <==> Allowed(c, contacts, job)
  }

  /**
   * Worker and dispatch together: a production notification with a contact is delivered if and only if some channel is
   * allowed and every allowed channel succeeds, partly delivered if and only if some succeed and some do not, and the
   * attempt throws if and only if no allowed channel succeeds.
   */
  lemma DeliveredIffAllowedSucceed(d: JobData, env: Env, contacts: Contacts, job: Routing,
      deliver: Channel -> Delivery, tried: seq<Channel>)
    requires !d.sandbox && !d.digestMode && AnyContact(contacts) && DispatchedTo(env, contacts, job, deliver, tried)
    ensures var v := Judge(d, env);
      && (v.status == Delivered <==>
            (exists c :: Allowed(c, contacts, job)) && forall c :: Allowed(c, contacts, job) ==> Succeeds(c, deliver))
      && (v.status == Partial <==>
            (exists c :: Allowed(c, contacts, job) && Succeeds(c, deliver))
              && (exists c :: Allowed(c, contacts, job) && !Succeeds(c, deliver)))
      && (v.throws <==> forall c :: Allowed(c, contacts, job) ==> !Succeeds(c, deliver))
  {
    SummaryIsAboutChannels(tried, deliver);
    assert tried != [] <==> exists c :: Allowed(c, contacts, job) by {
      assert tried != [] ==> tried[0] in tried;
    }
    hide Successes, OutcomesOf, Allowed, Succeeds;
  }

  predicate Reached(s: Status) {
    s == Delivered || s == Partial
  }

  /** The three writes of an attempt. */
  function MarkProcessing(t: Tables, id: Id): Tables
    requires id in t.notes
  {
    t.(notes := t.notes[id := t.notes[id].(status := Processing)])
  }

  function RecordVerdict(t: Tables, id: Id, v: Verdict): Tables
    requires id in t.notes
  {
    var n := t.notes[id];
    t.(notes := t.notes[id := n.(status := v.status, retryCount := n.retryCount + if v.throws then 1 else 0)])
  }

  function CountSend(t: Tables, p: Protocol): Tables {
    t.(sends := t.sends[p := SendsOf(t, p) + 1])
  }

  predicate Metered(d: JobData, v: Verdict) {
    !d.sandbox && Reached(v.status)
  }

  function WholeAttempt(t: Tables, id: Id, env: Env, meteringWorks: bool): Tables
    requires id in t.notes
  {
    var d := t.notes[id].data;
    var recorded := RecordVerdict(MarkProcessing(t, id), id, Judge(d, env));
    if Metered(d, Judge(d, env)) && meteringWorks then CountSend(recorded, d.protocol) else recorded
  }

  /** The worker run from start to end of one attempt; `threw` is what the queue sees. */
  class Worker {
    var notes: map<Id, Note>
    var sends: map<Protocol, nat>

    function Contents(): Tables
      reads this
    {
      Tables(notes, sends)
    }

    constructor (t: Tables)
      ensures Contents() == t
    {
      notes, sends := t.notes, t.sends;
    }

    method Process(notificationId: Id, env: Env, meteringWorks: bool) returns (threw: bool)
      requires notificationId in notes
      modifies this
      ensures Contents() == WholeAttempt(old(Contents()), notificationId, env, meteringWorks)
      ensures threw == Judge(old(notes[notificationId].data), env).throws
    {
      var data := notes[notificationId].data;
      notes := notes[notificationId := notes[notificationId].(status := Processing)];
      if data.sandbox {
        ProcessSandbox(notificationId, env);
        threw := false;
      } else {
        threw := ProcessProduction(notificationId, env, meteringWorks);
      }
    }

    /** A production attempt that gets as far as the providers, with the dispatch run for real. */
    method DispatchAndRecord(id: Id, contacts: Contacts, job: Routing, deliver: Channel -> Delivery,
        meteringWorks: bool) returns (threw: bool)
      requires id in notes && !notes[id].data.sandbox && !notes[id].data.digestMode && AnyContact(contacts)
      modifies this
      ensures id in notes
      ensures notes[id].status == Delivered <==>
        (exists c :: Allowed(c, contacts, job)) && forall c :: Allowed(c, contacts, job) ==> Succeeds(c, deliver)
      ensures threw <==> forall c :: Allowed(c, contacts, job) ==> !Succeeds(c, deliver)
      ensures threw <==> notes[id].status == Failed
      ensures notes[id].retryCount == old(notes[id].retryCount) + if threw then 1 else 0
      ensures var p := old(notes[id].data.protocol);
        SendsOf(Contents(), p) == SendsOf(old(Contents()), p) + if !threw && meteringWorks then 1 else 0
    {
      hide Allowed, Succeeds, OutcomesOf, Successes;
      ghost var d := notes[id].data;
      var result, tried := Dispatch(contacts, job, deliver);
      var env := Env(false, Identity, Decrypted(contacts), Summary(result.outcomes));
      DeliveredIffAllowedSucceed(d, env, contacts, job, deliver, tried);
      VerdictMeans(d, env);
      threw := Process(id, env, meteringWorks);
    }

    /** A sandbox attempt, with the dispatch to the test contacts run for real. */
    method DispatchSandbox(id: Id, job: Routing, deliver: Channel -> Delivery)
      requires id in notes && notes[id].data.sandbox
      modifies this
      ensures id in notes && notes == old(notes)[id := old(notes[id]).(status := notes[id].status)]
      ensures sends == old(sends)
      ensures var contacts := old(notes[id].data.testContact);
        && (notes[id].status == Delivered <==> exists c :: Allowed(c, contacts, job) && Succeeds(c, deliver))
        && (notes[id].status == OptedOut <==> NoContact(contacts))
        && notes[id].status in {OptedOut, Delivered, Failed}
    {
      hide Allowed, Succeeds, OutcomesOf, Successes;
      ghost var d := notes[id].data;
      var result, tried := Dispatch(notes[id].data.testContact, job, deliver);
      var env := Env(false, NoIdentity, DecryptionThrows, Summary(result.outcomes));
      SandboxDeliveredIffSomeAllowedSucceeds(d, env, job, deliver, tried);
      SandboxVerdictMeans(d, env);
      var threw := Process(id, env, false);
    }

    method SetStatus(id: Id, status: Status)
      requires id in notes
      modifies this`notes
      ensures notes == old(notes)[id := old(notes[id]).(status := status)]
    {
      notes := notes[id := notes[id].(status := status)];
    }

    method ProcessSandbox(id: Id, env: Env)
      requires id in notes
      modifies this
      ensures Contents() == RecordVerdict(old(Contents()), id, JudgeSandbox(old(notes[id].data), env))
      ensures !JudgeSandbox(old(notes[id].data), env).throws
    {
      var testContact := notes[id].data.testContact;
      if !testContact.email && !testContact.telegram && !testContact.phone {
        SetStatus(id, OptedOut);
        return;
      }
      if env.dispatched == DispatchThrows {
        SetStatus(id, Failed);
        return;
      }
      var successCount := Successes(env.dispatched.outcomes);
      if successCount > 0 {
        SetStatus(id, Delivered);
      } else {
        SetStatus(id, Failed);
      }
    }

    method FailAndThrow(id: Id) returns (threw: bool)
      requires id in notes
      modifies this`notes
      ensures threw
      ensures Contents() == RecordVerdict(old(Contents()), id, Verdict(Failed, true))
    {
      notes := notes[id := notes[id].(status := Failed, retryCount := notes[id].retryCount + 1)];
      threw := true;
    }

    method ProcessProduction(id: Id, env: Env, meteringWorks: bool) returns (threw: bool)
      requires id in notes
      modifies this
      ensures var d := old(notes[id].data);
        var v := JudgeProduction(d, env);
        var recorded := RecordVerdict(old(Contents()), id, v);
        && threw == v.throws
        && Contents() == if Reached(v.status) && meteringWorks then CountSend(recorded, d.protocol) else recorded
    {
      var data := notes[id].data;
      threw := false;
      if data.digestMode {
        if env.digestThrows {
          threw := FailAndThrow(id);
          return;
        }
        SetStatus(id, Digested);
        return;
      }
      if env.identity == LookupThrows {
        threw := FailAndThrow(id);
        return;
      }
      if env.identity == NoIdentity {
        SetStatus(id, OptedOut);
        return;
      }
      if env.decryption == DecryptionThrows {
        threw := FailAndThrow(id);
        return;
      }
      var channels := env.decryption.contacts;
      if !channels.email && !channels.telegram && !channels.phone {
        SetStatus(id, OptedOut);
        return;
      }
      if env.dispatched == DispatchThrows {
        threw := FailAndThrow(id);
        return;
      }
      var outcomes := env.dispatched.outcomes;
      var successCount := Successes(outcomes);
      if |outcomes| > 0 && successCount == |outcomes| {
        SetStatus(id, Delivered);
      } else if successCount > 0 {
        SetStatus(id, Partial);
      } else {
        threw := FailAndThrow(id);
        return;
      }
      if successCount > 0 && meteringWorks {
        sends := sends[data.protocol := (if data.protocol in sends then sends[data.protocol] else 0) + 1];
      }
    }
  }

  // ------------------------------------------------------------------ interleaved attempts

  datatype Phase = Waiting | Started | Metering | Completed | Exhausted

  datatype Job = Job(attemptsMade: nat, phase: Phase)

  datatype World = World(tables: Tables, jobs: map<Id, Job>)

  const START := World(Tables(map[], map[]), map[])

  datatype Event =
    | Enqueued(id: Id, data: JobData)
    | Picked(id: Id)
    | Judged(id: Id, env: Env)
    | SendCounted(id: Id, works: bool)

  predicate At(w: World, id: Id, phase: Phase) {
    id in w.jobs && id in w.tables.notes && w.jobs[id].phase == phase
  }

  predicate Enabled(w: World, e: Event) {
    match e
    case Enqueued(id, data) => id !in w.jobs && id !in w.tables.notes
    case Picked(id) => At(w, id, Waiting)
    case Judged(id, env) => At(w, id, Started)
    case SendCounted(id, works) => At(w, id, Metering)
  }

  /** Where the queue puts a job whose attempt ended, or the worker's own next write. */
  function AfterVerdict(job: Job, d: JobData, v: Verdict): Job {
    if v.throws then Job(job.attemptsMade + 1, if job.attemptsMade + 1 < MAX_ATTEMPTS then Waiting else Exhausted)
    else if Metered(d, v) then job.(phase := Metering)
    else job.(phase := Completed)
  }

  function Step(w: World, e: Event): World
    requires Enabled(w, e)
  {
    match e
    case Enqueued(id, data) =>
      World(w.tables.(notes := w.tables.notes[id := Note(data, Queued, 0)]), w.jobs[id := Job(0, Waiting)])
    case Picked(id) =>
      World(MarkProcessing(w.tables, id), w.jobs[id := w.jobs[id].(phase := Started)])
    case Judged(id, env) =>
      var d := w.tables.notes[id].data;
      World(RecordVerdict(w.tables, id, Judge(d, env)), w.jobs[id := AfterVerdict(w.jobs[id], d, Judge(d, env))])
    case SendCounted(id, works) =>
      World(if works then CountSend(w.tables, w.tables.notes[id].data.protocol) else w.tables,
            w.jobs[id := w.jobs[id].(phase := Completed)])
  }

  /** A run: every event was enabled when it happened. */
  ghost predicate IsRun(trace: seq<Event>)
    decreases |trace|, 0
  {
    trace == [] || (IsRun(trace[..|trace| - 1]) && Enabled(After(trace[..|trace| - 1]), trace[|trace| - 1]))
  }

  ghost function After(trace: seq<Event>): World
    requires IsRun(trace)
    decreases |trace|, 1
  {
    if trace == [] then START else Step(After(trace[..|trace| - 1]), trace[|trace| - 1])
  }

  /** One attempt of one notification, undisturbed, is what the worker does from start to end. */
  lemma UndisturbedAttempt(w: World, id: Id, env: Env, works: bool)
    requires At(w, id, Waiting)
    ensures var d := w.tables.notes[id].data;
      var started := Step(w, Picked(id));
      Enabled(started, Judged(id, env)) &&
      var judged := Step(started, Judged(id, env));
      var ended := if Metered(d, Judge(d, env)) then Step(judged, SendCounted(id, works)) else judged;
      ended.tables == WholeAttempt(w.tables, id, env, works)
  {
  }

  // ------------------------------------------------------------------ counting events

  /** The attempts of the notification that ended by throwing. */
  ghost function Throws(trace: seq<Event>, id: Id): nat
    requires IsRun(trace)
  {
    if trace == [] then 0
    else
      var init, e := trace[..|trace| - 1], trace[|trace| - 1];
      Throws(init, id)
        + if e.Judged? && e.id == id && Judge(After(init).tables.notes[id].data, e.env).throws then 1 else 0
  }

  function Picks(trace: seq<Event>, id: Id): nat {
    if trace == [] then 0
    else Picks(trace[..|trace| - 1], id) + if trace[|trace| - 1] == Picked(id) then 1 else 0
  }

  /** The sends of the protocol whose counter write was lost. */
  ghost function Lost(trace: seq<Event>, p: Protocol): nat
    requires IsRun(trace)
  {
    if trace == [] then 0
    else
      var init, e := trace[..|trace| - 1], trace[|trace| - 1];
      Lost(init, p) + if e.SendCounted? && !e.works && After(init).tables.notes[e.id].data.protocol == p then 1 else 0
  }

  // ------------------------------------------------------------------ the invariant of one notification

  predicate Fits(n: Note, job: Job) {
    && n.retryCount == job.attemptsMade
    && (n.data.sandbox ==> job.attemptsMade == 0)
    && (job.phase == Exhausted <==> job.attemptsMade == MAX_ATTEMPTS)
    && job.attemptsMade <= MAX_ATTEMPTS
    && match job.phase
       case Waiting => n.status == if job.attemptsMade == 0 then Queued else Failed
       case Started => n.status == Processing
       case Metering => !n.data.sandbox && Reached(n.status)
       case Completed =>
         Reached(n.status) || n.status == Digested || n.status == OptedOut || (n.data.sandbox && n.status == Failed)
       case Exhausted => n.status == Failed
  }

  ghost predicate Sound(w: World) {
    && w.jobs.Keys == w.tables.notes.Keys
    && forall id | id in w.jobs :: Fits(w.tables.notes[id], w.jobs[id])
  }

  lemma VerdictShapes(d: JobData, env: Env)
    ensures var v := Judge(d, env);
      && (v.throws ==> v.status == Failed && !d.sandbox)
      && (!v.throws
        ==> Reached(v.status) || v.status == Digested || v.status == OptedOut || (d.sandbox && v.status == Failed))
  {
  }

  lemma JudgedKeepsFit(n: Note, job: Job, env: Env)
    requires Fits(n, job) && job.phase == Started
    ensures var v := Judge(n.data, env);
      Fits(n.(status := v.status, retryCount := n.retryCount + if v.throws then 1 else 0), AfterVerdict(job, n.data, v))
  {
    VerdictShapes(n.data, env);
    hide Judge;
  }

  lemma StepKeepsSound(w: World, e: Event)
    requires Sound(w) && Enabled(w, e)
    ensures Sound(Step(w, e))
  {
    if e.Judged? {
      JudgedKeepsFit(w.tables.notes[e.id], w.jobs[e.id], e.env);
      hide Fits, Judge, AfterVerdict;
    } else {
      hide Judge, AfterVerdict;
    }
  }

  lemma {:induction false} RunsAreSound(trace: seq<Event>)
    requires IsRun(trace)
    ensures Sound(After(trace))
  {
    if trace != [] {
      RunsAreSound(trace[..|trace| - 1]);
      StepKeepsSound(After(trace[..|trace| - 1]), trace[|trace| - 1]);
    }
  }

  // ------------------------------------------------------------------ main results

  lemma {:induction false} AttemptsMadeIsThrows(trace: seq<Event>, id: Id)
    requires IsRun(trace)
    ensures Throws(trace, id) == if id in After(trace).jobs then After(trace).jobs[id].attemptsMade else 0
  {
    if trace != [] {
      RunsAreSound(trace[..|trace| - 1]);
      AttemptsMadeIsThrows(trace[..|trace| - 1], id);
    }
  }

  /** retryCount is the number of attempts that threw; it reaches three exactly when the queue gives the job up. */
  lemma RetryCountIsThrows(trace: seq<Event>, id: Id)
    requires IsRun(trace) && id in After(trace).jobs
    ensures id in After(trace).tables.notes
    ensures After(trace).tables.notes[id].retryCount == Throws(trace, id) <= 3
    ensures After(trace).jobs[id].phase == Exhausted <==> Throws(trace, id) == 3
    ensures After(trace).tables.notes[id].data.sandbox ==> Throws(trace, id) == 0
  {
    RunsAreSound(trace);
    AttemptsMadeIsThrows(trace, id);
  }

  /** No finished job leaves its notification queued or processing, and a production job fails only by three throws. */
  lemma FinishedJobsAreSettled(trace: seq<Event>, id: Id)
    requires IsRun(trace) && id in After(trace).jobs
    ensures id in After(trace).tables.notes
    ensures var phase, n := After(trace).jobs[id].phase, After(trace).tables.notes[id];
      && (phase == Completed || phase == Exhausted ==> n.status != Queued && n.status != Processing)
      && (phase == Exhausted ==> n.status == Failed)
      && (phase == Completed && n.status == Failed ==> n.data.sandbox)
      && (Reached(n.status) ==> phase == Metering || phase == Completed)
  {
    RunsAreSound(trace);
  }

  lemma {:induction false} PicksFollowPhase(trace: seq<Event>, id: Id)
    requires IsRun(trace)
    ensures Picks(trace, id) == if id !in After(trace).jobs then 0 else
      var job := After(trace).jobs[id];
      job.attemptsMade + if job.phase == Waiting || job.phase == Exhausted then 0 else 1
  {
    if trace != [] {
      RunsAreSound(trace[..|trace| - 1]);
      PicksFollowPhase(trace[..|trace| - 1], id);
    }
  }

  /**
   * A notification is attempted at most three times, and in any run the attempts that did not throw are at most one.
   */
  lemma AtMostThreeAttempts(trace: seq<Event>, id: Id)
    requires IsRun(trace)
    ensures Picks(trace, id) <= 3
    ensures Throws(trace, id) <= Picks(trace, id) <= Throws(trace, id) + 1
  {
    RunsAreSound(trace);
    PicksFollowPhase(trace, id);
    AttemptsMadeIsThrows(trace, id);
  }

  lemma {:induction false} PrefixesAreRuns(trace: seq<Event>, i: nat)
    requires IsRun(trace) && i <= |trace|
    ensures IsRun(trace[..i])
  {
    if i == |trace| {
      assert trace[..i] == trace;
    } else {
      PrefixesAreRuns(trace[..|trace| - 1], i);
      assert trace[..|trace| - 1][..i] == trace[..i];
    }
  }

  predicate NoMoreAttempts(w: World, id: Id) {
    id in w.jobs && (w.jobs[id].phase == Metering || w.jobs[id].phase == Completed)
  }

  lemma {:induction false} NoMoreAttemptsStays(trace: seq<Event>, i: nat, id: Id)
    requires IsRun(trace) && i <= |trace|
    requires IsRun(trace[..i]) && NoMoreAttempts(After(trace[..i]), id)
    ensures NoMoreAttempts(After(trace), id)
  {
    if i == |trace| {
      assert trace[..i] == trace;
    } else {
      var init := trace[..|trace| - 1];
      assert init[..i] == trace[..i];
      NoMoreAttemptsStays(init, i, id);
    }
  }

  lemma ReachedIsNoMore(trace: seq<Event>, id: Id)
    requires IsRun(trace) && id in After(trace).tables.notes
    requires Reached(After(trace).tables.notes[id].status)
    ensures NoMoreAttempts(After(trace), id)
  {
    RunsAreSound(trace);
  }

  lemma NoPickAfter(trace: seq<Event>, id: Id)
    requires IsRun(trace) && trace != [] && NoMoreAttempts(After(trace[..|trace| - 1]), id)
    ensures trace[|trace| - 1] != Picked(id)
  {
  }

  /**
   * An attempt that delivers, wholly or in part, is the last: a run in which the notification was delivered at some
   * earlier moment does not go on by picking it up. (Every prefix of a run is a run: PrefixesAreRuns.)
   */
  lemma DeliveryIsLastAttempt(trace: seq<Event>, i: nat, id: Id)
    requires IsRun(trace) && i < |trace|
    ensures IsRun(trace[..i])
    ensures id in After(trace[..i]).tables.notes && Reached(After(trace[..i]).tables.notes[id].status)
        ==> trace[|trace| - 1] != Picked(id)
  {
    PrefixesAreRuns(trace, i);
    var init := trace[..|trace| - 1];
    PrefixesAreRuns(trace, |init|);
    assert init[..i] == trace[..i];
    hide IsRun, After, NoMoreAttempts, Reached;
    if id in After(trace[..i]).tables.notes && Reached(After(trace[..i]).tables.notes[id].status) {
      ReachedIsNoMore(trace[..i], id);
      NoMoreAttemptsStays(init, i, id);
      NoPickAfter(trace, id);
    }
  }

  // ------------------------------------------------------------------ conservation of sends

  predicate IsSend(n: Note, p: Protocol) {
    !n.data.sandbox && Reached(n.status) && n.data.protocol == p
  }

  /** The protocol's production notifications that were delivered or partly delivered. */
  ghost function Sent(w: World, p: Protocol): set<Id> {
    set id | id in w.tables.notes && IsSend(w.tables.notes[id], p)
  }

  /** Those of them whose attempt has yet to write the counter. */
  ghost function Uncounted(w: World, p: Protocol): set<Id> {
    set id | id in Sent(w, p) && id in w.jobs && w.jobs[id].phase == Metering
  }

  ghost predicate Conserved(w: World, p: Protocol, lost: nat) {
    SendsOf(w.tables, p) + |Uncounted(w, p)| + lost == |Sent(w, p)|
  }

  /** The sets after writing one notification's row and job. */
  lemma SetsAfterWrite(w: World, w': World, id: Id, n: Note, job: Job, p: Protocol)
    requires w'.tables.notes == w.tables.notes[id := n]
    requires w'.jobs == w.jobs[id := job]
    ensures Sent(w', p) == if IsSend(n, p) then Sent(w, p) + {id} else Sent(w, p) - {id}
    ensures Uncounted(w', p)
      == if IsSend(n, p) && job.phase == Metering then Uncounted(w, p) + {id} else Uncounted(w, p) - {id}
  {
    hide IsSend;
  }

  ghost predicate HasWritten(w: World, w': World, id: Id, n: Note, job: Job) {
    w'.tables.notes == w.tables.notes[id := n] && w'.jobs == w.jobs[id := job]
  }

  /** What the step adds to the protocol's counter. */
  function Counts(w: World, e: Event, p: Protocol): nat
    requires Enabled(w, e)
  {
    if e.SendCounted? && e.works && w.tables.notes[e.id].data.protocol == p then 1 else 0
  }

  /** Every step writes one notification, which was not a counted send before unless its counter write was due. */
  lemma StepWritesOne(w: World, e: Event) returns (n: Note, job: Job)
    requires Sound(w) && Enabled(w, e)
    ensures HasWritten(w, Step(w, e), e.id, n, job)
    ensures forall p :: e.id in Sent(w, p) <==> e.SendCounted? && w.tables.notes[e.id].data.protocol == p
    ensures forall p :: e.id in Uncounted(w, p) <==> e.SendCounted? && w.tables.notes[e.id].data.protocol == p
    ensures forall p ::
      IsSend(n, p) && job.phase != Metering <==> e.SendCounted? && w.tables.notes[e.id].data.protocol == p
    ensures forall p :: SendsOf(Step(w, e).tables, p) == SendsOf(w.tables, p) + Counts(w, e, p)
  {
    var w' := Step(w, e);
    n, job := w'.tables.notes[e.id], w'.jobs[e.id];
    match e
    case Enqueued(_, _) =>
    case Picked(_) =>
    case Judged(_, _) =>
    case SendCounted(id, _) =>
      assert w.tables.notes[id := w.tables.notes[id]] == w.tables.notes;
  }

  lemma StepConserves(w: World, e: Event, p: Protocol, lost: nat)
    requires Sound(w) && Enabled(w, e) && Conserved(w, p, lost)
    ensures var more := if e.SendCounted? && !e.works && w.tables.notes[e.id].data.protocol == p then 1 else 0;
      Conserved(Step(w, e), p, lost + more)
  {
    var n, job := StepWritesOne(w, e);
    SetsAfterWrite(w, Step(w, e), e.id, n, job, p);
    hide Step, Sound, Sent, Uncounted, SendsOf, IsSend;
  }

  /**
   * Conservation: in every run, a protocol's counter, the writes still to come and the writes that were lost add up to
   * its production notifications that are delivered or partly delivered.
   */
  lemma {:induction false} SendsAreConserved(trace: seq<Event>, p: Protocol)
    requires IsRun(trace)
    ensures Conserved(After(trace), p, Lost(trace, p))
  {
    if trace == [] {
      assert Sent(START, p) == {} && Uncounted(START, p) == {};
    } else {
      var init := trace[..|trace| - 1];
      SendsAreConserved(init, p);
      RunsAreSound(init);
      StepConserves(After(init), trace[|trace| - 1], p, Lost(init, p));
    }
  }

  /** The counter never runs ahead, and when nothing is pending and no write was lost it is exact. */
  lemma CounterIsExactAtRest(trace: seq<Event>, p: Protocol)
    requires IsRun(trace)
    ensures SendsOf(After(trace).tables, p) <= |Sent(After(trace), p)|
    ensures Lost(trace, p) == 0 && Uncounted(After(trace), p) == {}
      ==> SendsOf(After(trace).tables, p) == |Sent(After(trace), p)|
  {
    SendsAreConserved(trace, p);
  }

  // ------------------------------------------------------------------ attempts do happen

  /** From the queue to a verdict: every outcome of a first attempt is that of some run. */
  lemma FirstAttemptHappens(id: Id, data: JobData, env: Env) returns (trace: seq<Event>)
    ensures IsRun(trace) && id in After(trace).tables.notes
    ensures After(trace).tables.notes[id].status == Judge(data, env).status
    ensures Throws(trace, id) == if Judge(data, env).throws then 1 else 0
  {
    hide Judge;
    assert IsRun([]) && After([]) == START;
    trace := Grow([], Enqueued(id, data));
    trace := Grow(trace, Picked(id));
    trace := Grow(trace, Judged(id, env));
  }

  lemma Grow(trace: seq<Event>, e: Event) returns (longer: seq<Event>)
    requires IsRun(trace) && Enabled(After(trace), e)
    ensures longer == trace + [e] && IsRun(longer) && After(longer) == Step(After(trace), e)
    ensures forall id ::
      Throws(longer, id) == Throws(trace, id)
        + if e.Judged? && e.id == id && Judge(After(trace).tables.notes[id].data, e.env).throws then 1 else 0
  {
    longer := trace + [e];
    assert longer[..|longer| - 1] == trace;
    hide Judge, Step;
  }

  lemma OneMoreThrow(trace: seq<Event>, id: Id, env: Env) returns (longer: seq<Event>)
    requires IsRun(trace) && At(After(trace), id, Waiting) && Judge(After(trace).tables.notes[id].data, env).throws
    ensures IsRun(longer) && id in After(longer).jobs && id in After(longer).tables.notes
    ensures After(longer).tables.notes[id].data == After(trace).tables.notes[id].data
    ensures Throws(longer, id) == Throws(trace, id) + 1
    ensures After(longer).jobs[id].phase == if Throws(longer, id) < 3 then Waiting else Exhausted
  {
    hide Judge;
    var picked := trace + [Picked(id)];
    longer := picked + [Judged(id, env)];
    assert picked[..|trace|] == trace && longer[..|picked|] == picked;
    AttemptsMadeIsThrows(trace, id);
  }

  /** A job that keeps throwing is attempted three times, and then given up. */
  lemma ThreeThrowsHappen(id: Id, data: JobData, env: Env) returns (trace: seq<Event>)
    requires Judge(data, env).throws
    ensures IsRun(trace) && id in After(trace).jobs && id in After(trace).tables.notes
    ensures Throws(trace, id) == 3 && After(trace).jobs[id].phase == Exhausted
    ensures After(trace).tables.notes[id].status == Failed
  {
    trace := [Enqueued(id, data)];
    assert trace[..0] == [];
    hide Judge;
    assert Throws(trace, id) == 0;
    trace := OneMoreThrow(trace, id, env);
    trace := OneMoreThrow(trace, id, env);
    trace := OneMoreThrow(trace, id, env);
    FinishedJobsAreSettled(trace, id);
  }
}
