/**
 * Channel dispatch (channel-dispatch.service.ts): which of the user's channels a job is sent to, and what the worker is
 * told about the result.
 */
module ChannelDispatch {
  import opened JsStrings

  datatype Channel = Email | Telegram | Sms

  /** The contacts that were decrypted; false stands for an absent or empty contact. */
  datatype Contacts = Contacts(email: bool, telegram: bool, phone: bool)

  datatype Priority = Normal | Important | Critical

  datatype Routing = Routing(
    tier: nat,
    preferred: Option<Channel>,
    channels: seq<Channel>,
    excluded: set<Channel>,
    priority: Priority)

  predicate HasContact(c: Channel, contacts: Contacts) {
    match c
    case Email => contacts.email
    case Telegram => contacts.telegram
    case Sms => contacts.phone
  }

  /** A contact the tier gives access to: Telegram and SMS need tier 1 or more. */
  predicate Registered(c: Channel, contacts: Contacts, job: Routing) {
    HasContact(c, contacts) && (c == Email || job.tier >= 1)
  }

  predicate Escalated(contacts: Contacts, job: Routing) {
    job.tier >= 1 && job.priority != Normal && contacts.phone && Sms !in job.excluded
  }

  /** preferredChannel wins over channels; an absent or empty list asks for every channel. */
  predicate Requested(c: Channel, job: Routing) {
    match job.preferred
    case Some(p) => c == p
    case None => job.channels == [] || c in job.channels
  }

  ghost predicate Allowed(c: Channel, contacts: Contacts, job: Routing) {
    || (Registered(c, contacts, job) && c !in job.excluded && Requested(c, job))
    || (c == Sms && Escalated(contacts, job))
  }

  /**
   * What routing promises. Only contacts that exist and are not excluded are used, and only email without a paid tier.
   * A channel that was asked for, or any if nothing was, is then used. A channel that was not asked for is used in one
   * case only: SMS, for a message that is important or critical.
   */
  lemma RoutingRules(c: Channel, contacts: Contacts, job: Routing)
    ensures Allowed(c, contacts, job) ==>
      && c !in job.excluded && (c == Email || job.tier > 0)
      && (c == Email ==> contacts.email) && (c == Telegram ==> contacts.telegram) && (c == Sms ==> contacts.phone)
    ensures HasContact(c, contacts) && c !in job.excluded && (c == Email || job.tier > 0) ==>
      && (job.preferred == Some(c) ==> Allowed(c, contacts, job))
      && (job.preferred == None && (job.channels == [] || c in job.channels) ==> Allowed(c, contacts, job))
      && (c == Sms && (job.priority == Important || job.priority == Critical) ==> Allowed(c, contacts, job))
    ensures Allowed(c, contacts, job) && (c != Sms || job.priority == Normal) ==>
      job.preferred == Some(c) || (job.preferred == None && (job.channels == [] || c in job.channels))
  {
  }

  function Keep(cs: seq<Channel>, p: Channel -> bool): (r: seq<Channel>)
    ensures forall c :: c in r <==> c in cs && p(c)
  {
    if cs == [] then []
    else
      assert forall c :: c in cs <==> c == cs[0] || c in cs[1..];
      (if p(cs[0]) then [cs[0]] else []) + Keep(cs[1..], p)
  }

  function Order(c: Channel): nat {
    match c
    case Email => 0
    case Telegram => 1
    case Sms => 2
  }

  predicate Ordered(cs: seq<Channel>) {
    |cs| <= 1 || (Order(cs[0]) <= Order(cs[1]) && Ordered(cs[1..]))
  }

  /** Nothing stands before email but email, and nothing behind SMS but SMS. */
  ghost predicate EmailFirstSmsLast(cs: seq<Channel>) {
    forall i, j | 0 <= i < j < |cs| :: (cs[j] == Email ==> cs[i] == Email) && (cs[i] == Sms ==> cs[j] == Sms)
  }

  lemma {:induction false} OrderedMeans(cs: seq<Channel>)
    requires Ordered(cs)
    ensures EmailFirstSmsLast(cs)
    ensures forall i | 0 <= i < |cs| :: Order(cs[0]) <= Order(cs[i])
  {
    if |cs| > 1 {
      var rest := cs[1..];
      OrderedMeans(rest);
      assert forall i | 1 <= i < |cs| :: cs[i] == rest[i - 1];
    }
  }

  function Insert(c: Channel, cs: seq<Channel>): (r: seq<Channel>)
    requires Ordered(cs)
    ensures Ordered(r) && |r| == |cs| + 1
    ensures r[0] == c || (cs != [] && r[0] == cs[0])
  {
    if cs == [] || Order(c) <= Order(cs[0]) then [c] + cs else [cs[0]] + Insert(c, cs[1..])
  }

  lemma {:induction false} InsertKeepsAll(c: Channel, cs: seq<Channel>)
    requires Ordered(cs)
    ensures multiset(Insert(c, cs)) == multiset(cs) + multiset{c}
  {
    if cs == [] || Order(c) <= Order(cs[0]) {
      ConsKeepsAll(c, cs);
    } else {
      InsertKeepsAll(c, cs[1..]);
      ConsKeepsAll(cs[0], Insert(c, cs[1..]));
      ConsKeepsAll(cs[0], cs[1..]);
      assert cs == [cs[0]] + cs[1..];
      hide Order, Ordered;
    }
  }

  lemma ConsKeepsAll(c: Channel, cs: seq<Channel>)
    ensures multiset([c] + cs) == multiset(cs) + multiset{c}
  {
  }

  function SortByOrder(cs: seq<Channel>): (r: seq<Channel>)
    ensures Ordered(r)
  {
    if cs == [] then [] else Insert(cs[0], SortByOrder(cs[1..]))
  }

  lemma SameMembers(a: seq<Channel>, b: seq<Channel>)
    requires multiset(a) == multiset(b)
    ensures forall c :: c in a <==> c in b
  {
    forall c ensures c in a <==> c in b {
      assert c in a <==> c in multiset(a);
      assert c in b <==> c in multiset(b);
    }
  }

  lemma {:induction false} SortKeepsAll(cs: seq<Channel>)
    ensures multiset(SortByOrder(cs)) == multiset(cs)
    ensures forall c :: c in SortByOrder(cs) <==> c in cs
  {
    if cs != [] {
      SortKeepsAll(cs[1..]);
      InsertKeepsAll(cs[0], SortByOrder(cs[1..]));
      assert cs == [cs[0]] + cs[1..];
    }
    SameMembers(SortByOrder(cs), cs);
  }

  method ResolveAllowedChannels(contacts: Contacts, job: Routing) returns (allowed: seq<Channel>)
    ensures forall c :: c in allowed <==> Allowed(c, contacts, job)
    ensures Ordered(allowed) && EmailFirstSmsLast(allowed)
  {
    hide Keep, SortByOrder;
    var registered := [];
    if contacts.email {
      registered := registered + [Email];
    }
    if contacts.telegram && job.tier >= 1 {
      registered := registered + [Telegram];
    }
    if contacts.phone && job.tier >= 1 {
      registered := registered + [Sms];
    }
    assert forall c :: c in registered <==> Registered(c, contacts, job);
    if |registered| == 0 {
      assert forall c :: c !in registered;
      return [];
    }
    var isExplicit := job.preferred.Some? || |job.channels| > 0;
    var requested := if job.preferred.Some? then [job.preferred.value] else job.channels;
    if isExplicit {
      allowed := Keep(requested, c => c in registered && c !in job.excluded);
    } else {
      allowed := Keep(registered, c => c !in job.excluded);
    }
    if job.tier >= 1 && (job.priority == Important || job.priority == Critical) && contacts.phone
      && Sms !in job.excluded && Sms !in allowed {
      allowed := allowed + [Sms];
    }
    assert forall c :: c in allowed <==> Allowed(c, contacts, job);
    SortKeepsAll(allowed);
    allowed := SortByOrder(allowed);
    OrderedMeans(allowed);
  }

  // ------------------------------------------------------------------ the outcomes

  /** What a provider did: resolved with success or failure, or rejected. */
  datatype Delivery = Resolved(success: bool) | Rejected

  /** channel is None for a rejected delivery, whose channel is lost. */
  datatype Outcome = Outcome(channel: Option<Channel>, success: bool)

  datatype Result = Result(outcomes: seq<Outcome>, totalChannels: nat, successCount: nat, allDelivered: bool)

  function Successes(outcomes: seq<Outcome>): (n: nat)
    ensures n <= |outcomes|
    ensures n == 0 <==> forall o :: o in outcomes ==> !o.success
    ensures n == |outcomes| <==> forall o :: o in outcomes ==> o.success
  {
    if outcomes == [] then 0
    else
      assert forall o :: o in outcomes <==> o == outcomes[0] || o in outcomes[1..];
      (if outcomes[0].success then 1 else 0) + Successes(outcomes[1..])
  }

  function Settled(c: Channel, d: Delivery): Outcome {
    match d
    case Resolved(success) => Outcome(Some(c), success)
    case Rejected => Outcome(None, false)
  }

  predicate Succeeds(c: Channel, deliver: Channel -> Delivery) {
    deliver(c) == Resolved(true)
  }

  function OutcomesOf(tried: seq<Channel>, deliver: Channel -> Delivery): (r: seq<Outcome>)
    ensures |r| == |tried|
    ensures forall i | 0 <= i < |tried| :: r[i] == Settled(tried[i], deliver(tried[i]))
  {
    seq(|tried|, i requires 0 <= i < |tried| => Settled(tried[i], deliver(tried[i])))
  }

  lemma SummaryIsAboutChannels(tried: seq<Channel>, deliver: Channel -> Delivery)
    ensures var n := Successes(OutcomesOf(tried, deliver));
      && (n == |tried| <==> forall c :: c in tried ==> Succeeds(c, deliver))
      && (n == 0 <==> forall c :: c in tried ==> !Succeeds(c, deliver))
  {
    hide Successes, OutcomesOf;
    var outcomes := OutcomesOf(tried, deliver);
    assert forall i | 0 <= i < |tried| :: outcomes[i].success <==> Succeeds(tried[i], deliver);
    assert forall i | 0 <= i < |tried| :: outcomes[i] in outcomes && tried[i] in tried;
  }

  /** Email before Telegram before SMS, none of them twice. */
  ghost predicate EachOnceInOrder(tried: seq<Channel>) {
    forall i, j | 0 <= i < j < |tried| :: (tried[i], tried[j]) in {(Email, Telegram), (Email, Sms), (Telegram, Sms)}
  }

  /** The part of dispatch that starts the deliveries: one per allowed channel, however often the list names it. */
  method Start(contacts: Contacts, allowed: seq<Channel>) returns (tried: seq<Channel>)
    ensures forall c :: c in tried <==> c in allowed && HasContact(c, contacts)
    ensures EachOnceInOrder(tried)
    ensures forall i, j | 0 <= i < j < |tried| :: Order(tried[i]) < Order(tried[j])
    ensures |tried| <= 3
  {
    tried := [];
    if Email in allowed && contacts.email {
      tried := tried + [Email];
    }
    if Telegram in allowed && contacts.telegram {
      tried := tried + [Telegram];
    }
    if Sms in allowed && contacts.phone {
      tried := tried + [Sms];
    }
    assert Email in tried <==> Email in allowed && contacts.email;
    assert Telegram in tried <==> Telegram in allowed && contacts.telegram;
    assert Sms in tried <==> Sms in allowed && contacts.phone;
    forall c ensures c in tried <==> c in allowed && HasContact(c, contacts) {
      match c case Email => case Telegram => case Sms =>
    }
  }

  /** Each outcome tells how the delivery to its channel went; a rejected one has lost the channel. */
  predicate Tells(outcomes: seq<Outcome>, tried: seq<Channel>, deliver: Channel -> Delivery) {
    && |outcomes| == |tried|
    && forall i | 0 <= i < |tried| ::
         && (outcomes[i].success <==> deliver(tried[i]) == Resolved(true))
         && outcomes[i].channel == if deliver(tried[i]) == Rejected then None else Some(tried[i])
  }

  lemma OutcomesTell(tried: seq<Channel>, deliver: Channel -> Delivery)
    ensures Tells(OutcomesOf(tried, deliver), tried, deliver)
  {
  }

  lemma AllowedHaveContacts(contacts: Contacts, job: Routing)
    ensures forall c :: Allowed(c, contacts, job) ==> HasContact(c, contacts)
  {
  }

  /**
   * Every allowed channel is tried exactly once, in order; and the summary says whether all of them, some of them or
   * none of them succeeded. Nothing to try is never "all delivered".
   */
  method Dispatch(contacts: Contacts, job: Routing, deliver: Channel -> Delivery)
      returns (result: Result, tried: seq<Channel>)
    ensures forall c :: c in tried <==> Allowed(c, contacts, job)
    ensures EachOnceInOrder(tried)
    ensures result.outcomes == OutcomesOf(tried, deliver) && result.totalChannels == |tried| <= 3
    ensures Tells(result.outcomes, tried, deliver)
    ensures result.successCount == Successes(result.outcomes)
    ensures result.allDelivered <==> tried != [] && forall c :: c in tried ==> Succeeds(c, deliver)
    ensures result.successCount == 0 <==> forall c :: c in tried ==> !Succeeds(c, deliver)
  {
    hide Ordered, Successes, OutcomesOf, Order, Succeeds, Settled, Tells, EachOnceInOrder;
    AllowedHaveContacts(contacts, job);
    hide Allowed, HasContact;
    var allowed := ResolveAllowedChannels(contacts, job);
    tried := Start(contacts, allowed);
    SummaryIsAboutChannels(tried, deliver);
    OutcomesTell(tried, deliver);
    if |tried| == 0 {
      return Result([], 0, 0, false), tried;
    }
    var outcomes := OutcomesOf(tried, deliver);
    var successCount := Successes(outcomes);
    result := Result(outcomes, |outcomes|, successCount, successCount == |outcomes|);
  }
}
