/**
 * Bounce handling (bounce.service.ts): which events are recorded, and when a wallet's email is suppressed.
 *
 * The service keeps no counter. It recovers the number of consecutive soft bounces from the tables, by counting
 * the soft rows newer than the latest hard bounce, complaint or delivery. Here that query is proved to equal a
 * streaming counter over the history of events, which never looks at a table.
 */
module BounceStreak {

  type Msg = string
  type Wallet = string
  type Time = nat

  const SOFT_LIMIT := 3

  datatype Kind = Hard | Soft | Complaint
  datatype Reason = HardBounce | SoftBounce | ComplaintReceived

  datatype BounceRow = BounceRow(wallet: Wallet, kind: Kind, msg: Msg, bouncedAt: Time)
  datatype DeliveryRow = DeliveryRow(wallet: Wallet, msg: Msg, deliveredAt: Time)
  datatype Suppression = Suppression(reason: Reason, suppressedAt: Time)

  /** emailBounce, emailDelivery, emailSuppression, and notification.sesMessageId -> walletHash. */
  datatype Tables = Tables(
    wallets: map<Msg, Wallet>,
    bounces: seq<BounceRow>,
    deliveries: seq<DeliveryRow>,
    suppressions: map<Wallet, Suppression>)

  const EMPTY := Tables(map[], [], [], map[])

  /** What the providers report, and the two things the mail worker does to these tables. */
  datatype Event =
    | Sent(msg: Msg, wallet: Wallet)
    | Bounced(msg: Msg, permanent: bool)
    | Complained(msg: Msg)
    | Delivered(msg: Msg)
    | SuppressionCleared(wallet: Wallet)
    | Unrelated

  // ------------------------------------------------------------------ the queries

  predicate HasRow(rows: seq<BounceRow>, msg: Msg) {
    exists i | 0 <= i < |rows| :: rows[i].msg == msg
  }

  predicate HasComplaint(rows: seq<BounceRow>, msg: Msg) {
    exists i | 0 <= i < |rows| :: rows[i].msg == msg && rows[i].kind == Complaint
  }

  function Later(a: Time, b: Time): Time {
    if a > b then a else b
  }

  /** bouncedAt of the newest hard or complaint row of the wallet; the epoch if there is none. */
  function LatestReset(rows: seq<BounceRow>, wallet: Wallet): Time {
    if rows == [] then 0
    else
      var last := rows[|rows| - 1];
      Later(LatestReset(rows[..|rows| - 1], wallet),
        if last.wallet == wallet && last.kind != Soft then last.bouncedAt else 0)
  }

  function LatestDelivery(rows: seq<DeliveryRow>, wallet: Wallet): Time {
    if rows == [] then 0
    else
      var last := rows[|rows| - 1];
      Later(LatestDelivery(rows[..|rows| - 1], wallet), if last.wallet == wallet then last.deliveredAt else 0)
  }

  function Cutoff(t: Tables, wallet: Wallet): Time {
    Later(LatestReset(t.bounces, wallet), LatestDelivery(t.deliveries, wallet))
  }

  function CountSofts(rows: seq<BounceRow>, wallet: Wallet, cutoff: Time): nat {
    if rows == [] then 0
    else
      var last := rows[|rows| - 1];
      CountSofts(rows[..|rows| - 1], wallet, cutoff)
      + if last.wallet == wallet && last.kind == Soft && last.bouncedAt > cutoff then 1 else 0
  }

  /** The soft-bounce query of processSesBounce. */
  function ConsecutiveSofts(t: Tables, wallet: Wallet): nat {
    CountSofts(t.bounces, wallet, Cutoff(t, wallet))
  }

  // ------------------------------------------------------------------ what an event does to the tables

  function Suppress(t: Tables, wallet: Wallet, reason: Reason, now: Time): Tables {
    t.(suppressions := t.suppressions[wallet := Suppression(reason, now)])
  }

  function AddBounce(t: Tables, wallet: Wallet, kind: Kind, msg: Msg, now: Time): Tables {
    t.(bounces := t.bounces + [BounceRow(wallet, kind, msg, now)])
  }

  function Handle(t: Tables, e: Event, now: Time): Tables {
    match e
    case Sent(msg, wallet) => if msg in t.wallets then t else t.(wallets := t.wallets[msg := wallet])
    case Bounced(msg, permanent) =>
      if msg !in t.wallets || HasRow(t.bounces, msg) then t
      else
        var w := t.wallets[msg];
        var added := AddBounce(t, w, if permanent then Hard else Soft, msg, now);
        if permanent then Suppress(added, w, HardBounce, now)
        else if ConsecutiveSofts(added, w) >= SOFT_LIMIT then Suppress(added, w, SoftBounce, now)
        else added
    case Complained(msg) =>
      if msg !in t.wallets then t
      else
        var w := t.wallets[msg];
        var added := if HasComplaint(t.bounces, msg) then t else AddBounce(t, w, Complaint, msg, now);
        Suppress(added, w, ComplaintReceived, now)
    case Delivered(msg) =>
      if msg !in t.wallets then t else t.(deliveries := t.deliveries + [DeliveryRow(t.wallets[msg], msg, now)])
    case SuppressionCleared(wallet) => t.(suppressions := t.suppressions - {wallet})
    case Unrelated => t
  }

  // ------------------------------------------------------------------ the service

  datatype SesNotification = SesBounce(permanent: bool) | SesComplaint | SesDelivery | SesOther
  datatype ResendEvent = EmailBounced | EmailComplained | EmailDelivered | OtherEvent

  class BounceService {
    var wallets: map<Msg, Wallet>
    var bounces: seq<BounceRow>
    var deliveries: seq<DeliveryRow>
    var suppressions: map<Wallet, Suppression>

    function Contents(): Tables
      reads this
    {
      Tables(wallets, bounces, deliveries, suppressions)
    }

    constructor ()
      ensures Contents() == EMPTY
    {
      wallets, bounces, deliveries, suppressions := map[], [], [], map[];
    }

    /** processSesBounce; a notification without a messageId is ignored before anything is read. */
    method ProcessSesBounce(notification: SesNotification, sesMessageId: Msg, now: Time)
      modifies this
      ensures Contents() == if sesMessageId == "" then old(Contents()) else Handle(old(Contents()), match notification
        case SesBounce(permanent) => Bounced(sesMessageId, permanent)
        case SesComplaint => Complained(sesMessageId)
        case SesDelivery => Delivered(sesMessageId)
        case SesOther => Unrelated, now)
    {
      if sesMessageId == "" || sesMessageId !in wallets {
        return;
      }
      var walletHash := wallets[sesMessageId];
      match notification {
        case SesBounce(permanent) =>
          if HasRow(bounces, sesMessageId) {
            return;
          }
          bounces := bounces + [BounceRow(walletHash, if permanent then Hard else Soft, sesMessageId, now)];
          if permanent {
            suppressions := suppressions[walletHash := Suppression(HardBounce, now)];
          } else {
            var latestHardBounce := LatestReset(bounces, walletHash);
            var latestDelivery := LatestDelivery(deliveries, walletHash);
            var consecutiveSofts := CountSofts(bounces, walletHash, Later(latestHardBounce, latestDelivery));
            if consecutiveSofts >= SOFT_LIMIT {
              suppressions := suppressions[walletHash := Suppression(SoftBounce, now)];
            }
          }
        case SesComplaint =>
          if !HasComplaint(bounces, sesMessageId) {
            bounces := bounces + [BounceRow(walletHash, Complaint, sesMessageId, now)];
          }
          suppressions := suppressions[walletHash := Suppression(ComplaintReceived, now)];
        case SesDelivery =>
          deliveries := deliveries + [DeliveryRow(walletHash, sesMessageId, now)];
        case SesOther =>
      }
    }

    /** processResendEvent: every bounce Resend reports counts as hard. */
    method ProcessResendEvent(eventType: ResendEvent, emailId: Msg, now: Time)
      modifies this
      ensures Contents() == if emailId == "" then old(Contents()) else Handle(old(Contents()), match eventType
        case EmailBounced => Bounced(emailId, true)
        case EmailComplained => Complained(emailId)
        case EmailDelivered => Delivered(emailId)
        case OtherEvent => Unrelated, now)
    {
      if emailId == "" || emailId !in wallets {
        return;
      }
      var walletHash := wallets[emailId];
      match eventType {
        case EmailBounced =>
          if HasRow(bounces, emailId) {
            return;
          }
          bounces := bounces + [BounceRow(walletHash, Hard, emailId, now)];
          suppressions := suppressions[walletHash := Suppression(HardBounce, now)];
        case EmailComplained =>
          if !HasComplaint(bounces, emailId) {
            bounces := bounces + [BounceRow(walletHash, Complaint, emailId, now)];
          }
          suppressions := suppressions[walletHash := Suppression(ComplaintReceived, now)];
        case EmailDelivered =>
          deliveries := deliveries + [DeliveryRow(walletHash, emailId, now)];
        case OtherEvent =>
      }
    }
  }

  // ------------------------------------------------------------------ the streaming reading of a history

  datatype Timed = Timed(event: Event, at: Time)

  /** Events are handled one after the other, at strictly increasing times after the epoch. */
  ghost predicate InOrder(history: seq<Timed>) {
    && (forall i | 0 <= i < |history| :: history[i].at > 0)
    && (forall i, j | 0 <= i < j < |history| :: history[i].at < history[j].at)
  }

  function Process(history: seq<Timed>): Tables {
    if history == [] then EMPTY
    else
      var last := history[|history| - 1];
      Handle(Process(history[..|history| - 1]), last.event, last.at)
  }

  /** Whose message it is: the first wallet it was sent to. */
  function Recipient(history: seq<Timed>, msg: Msg): (r: set<Wallet>) {
    if history == [] then {}
    else
      var before, e := Recipient(history[..|history| - 1], msg), history[|history| - 1].event;
      if before == {} && e.Sent? && e.msg == msg then {e.wallet} else before
  }

  /** A bounce or complaint for the message was reported while the message was known. */
  predicate Reported(history: seq<Timed>, msg: Msg, complaintsOnly: bool) {
    if history == [] then false
    else
      var init, e := history[..|history| - 1], history[|history| - 1].event;
      || Reported(init, msg, complaintsOnly)
      || (Recipient(init, msg) != {}
        && ((e.Complained? && e.msg == msg) || (!complaintsOnly && e.Bounced? && e.msg == msg)))
  }

  /** The last event is a bounce of one of the wallet's messages and not a replay. */
  predicate FreshBounce(history: seq<Timed>, wallet: Wallet)
    requires history != []
  {
    var init, e := history[..|history| - 1], history[|history| - 1].event;
    e.Bounced? && wallet in Recipient(init, e.msg) && !Reported(init, e.msg, false)
  }

  predicate ComplaintFor(history: seq<Timed>, wallet: Wallet)
    requires history != []
  {
    var init, e := history[..|history| - 1], history[|history| - 1].event;
    e.Complained? && wallet in Recipient(init, e.msg)
  }

  /** Soft bounces of the wallet since its last hard bounce, first complaint about a message, or delivery. */
  function Streak(history: seq<Timed>, wallet: Wallet): nat {
    if history == [] then 0
    else
      var init, e := history[..|history| - 1], history[|history| - 1].event;
      if FreshBounce(history, wallet) then (if e.permanent then 0 else Streak(init, wallet) + 1)
      else if ComplaintFor(history, wallet) && !Reported(init, e.msg, true) then 0
      else if e.Delivered? && wallet in Recipient(init, e.msg) then 0
      else Streak(init, wallet)
  }

  /** The wallet's suppression, read off the history: empty, or the reason and time of the last event that wrote it. */
  function Suppressed(history: seq<Timed>, wallet: Wallet): set<Suppression> {
    if history == [] then {}
    else
      var init, last := history[..|history| - 1], history[|history| - 1];
      if FreshBounce(history, wallet) && last.event.permanent then {Suppression(HardBounce, last.at)}
      else if FreshBounce(history, wallet) && Streak(history, wallet) >= 3
      then {Suppression(SoftBounce, last.at)}
      else if ComplaintFor(history, wallet) then {Suppression(ComplaintReceived, last.at)}
      else if last.event == SuppressionCleared(wallet) then {}
      else Suppressed(init, wallet)
  }

  // ------------------------------------------------------------------ the tables agree with the history

  lemma {:induction false} WalletsAreRecipients(history: seq<Timed>, msg: Msg)
    ensures Recipient(history, msg) == (var t := Process(history); if msg in t.wallets then {t.wallets[msg]} else {})
  {
    if history != [] {
      WalletsAreRecipients(history[..|history| - 1], msg);
    }
  }

  lemma AppendedRow(rows: seq<BounceRow>, row: BounceRow, msg: Msg)
    ensures HasRow(rows + [row], msg) <==> HasRow(rows, msg) || row.msg == msg
    ensures HasComplaint(rows + [row], msg) <==> HasComplaint(rows, msg) || (row.msg == msg && row.kind == Complaint)
  {
    var longer := rows + [row];
    assert longer[|rows|] == row;
    assert forall i | 0 <= i < |rows| :: longer[i] == rows[i];
  }

  /** The duplicate checks of the two kinds of report answer what the history says. */
  lemma {:induction false} DuplicateChecksAreExact(history: seq<Timed>, msg: Msg)
    ensures HasRow(Process(history).bounces, msg) <==> Reported(history, msg, false)
    ensures HasComplaint(Process(history).bounces, msg) <==> Reported(history, msg, true)
  {
    if history != [] {
      var init, last := history[..|history| - 1], history[|history| - 1];
      var t := Process(init);
      DuplicateChecksAreExact(init, msg);
      WalletsAreRecipients(init, msg);
      ReportedTwice(init, msg);
      match last.event
      case Bounced(m, permanent) =>
        if m in t.wallets {
          AppendedRow(t.bounces, BounceRow(t.wallets[m], if permanent then Hard else Soft, m, last.at), msg);
        }
      case Complained(m) =>
        if m in t.wallets {
          AppendedRow(t.bounces, BounceRow(t.wallets[m], Complaint, m, last.at), msg);
        }
      case _ =>
    }
  }

  lemma {:induction false} ReportedTwice(history: seq<Timed>, msg: Msg)
    ensures Reported(history, msg, true) ==> Reported(history, msg, false)
  {
    if history != [] {
      ReportedTwice(history[..|history| - 1], msg);
    }
  }

  // ------------------------------------------------------------------ the query, one row at a time

  ghost predicate Past(t: Tables, now: Time) {
    && (forall i | 0 <= i < |t.bounces| :: t.bounces[i].bouncedAt < now)
    && (forall i | 0 <= i < |t.deliveries| :: t.deliveries[i].deliveredAt < now)
  }

  lemma {:induction false} RowsAreInThePast(history: seq<Timed>, now: Time)
    requires InOrder(history)
    requires history == [] || history[|history| - 1].at < now
    ensures Past(Process(history), now)
  {
    if history != [] {
      var init, last := history[..|history| - 1], history[|history| - 1];
      RowsAreInThePast(init, last.at);
      HandledIsPast(Process(init), last.event, last.at, now);
      hide Handle, Past;
    }
  }

  lemma HandledIsPast(t: Tables, e: Event, now: Time, later: Time)
    requires Past(t, now) && now < later
    ensures Past(Handle(t, e, now), later)
  {
    hide HasRow, HasComplaint, ConsecutiveSofts;
  }

  lemma {:induction false} ResetsArePast(rows: seq<BounceRow>, wallet: Wallet, now: Time)
    requires forall i | 0 <= i < |rows| :: rows[i].bouncedAt < now
    requires now > 0
    ensures LatestReset(rows, wallet) < now
  {
    if rows != [] {
      ResetsArePast(rows[..|rows| - 1], wallet, now);
    }
  }

  lemma {:induction false} DeliveriesArePast(rows: seq<DeliveryRow>, wallet: Wallet, now: Time)
    requires forall i | 0 <= i < |rows| :: rows[i].deliveredAt < now
    requires now > 0
    ensures LatestDelivery(rows, wallet) < now
  {
    if rows != [] {
      DeliveriesArePast(rows[..|rows| - 1], wallet, now);
    }
  }

  lemma {:induction false} NothingAfterNow(rows: seq<BounceRow>, wallet: Wallet, now: Time)
    requires forall i | 0 <= i < |rows| :: rows[i].bouncedAt <= now
    ensures CountSofts(rows, wallet, now) == 0
  {
    if rows != [] {
      NothingAfterNow(rows[..|rows| - 1], wallet, now);
    }
  }

  /** A row dated now: another wallet's changes nothing, a soft one counts, a hard one or a complaint starts over. */
  lemma QueryAfterBounce(t: Tables, row: BounceRow, wallet: Wallet)
    requires Past(t, row.bouncedAt) && row.bouncedAt > 0
    ensures ConsecutiveSofts(t.(bounces := t.bounces + [row]), wallet)
         == if row.wallet != wallet then ConsecutiveSofts(t, wallet)
            else if row.kind == Soft then ConsecutiveSofts(t, wallet) + 1
            else 0
  {
    var longer := t.bounces + [row];
    assert longer[..|longer| - 1] == t.bounces;
    ResetsArePast(t.bounces, wallet, row.bouncedAt);
    DeliveriesArePast(t.deliveries, wallet, row.bouncedAt);
    NothingAfterNow(longer, wallet, row.bouncedAt);
  }

  lemma QueryAfterDelivery(t: Tables, row: DeliveryRow, wallet: Wallet)
    requires Past(t, row.deliveredAt) && row.deliveredAt > 0
    ensures ConsecutiveSofts(t.(deliveries := t.deliveries + [row]), wallet)
         == if row.wallet != wallet then ConsecutiveSofts(t, wallet) else 0
  {
    var longer := t.deliveries + [row];
    assert longer[..|longer| - 1] == t.deliveries;
    ResetsArePast(t.bounces, wallet, row.deliveredAt);
    DeliveriesArePast(t.deliveries, wallet, row.deliveredAt);
    NothingAfterNow(t.bounces, wallet, row.deliveredAt);
  }

  // ------------------------------------------------------------------ main results

  lemma InitInOrder(history: seq<Timed>)
    requires InOrder(history) && history != []
    ensures InOrder(history[..|history| - 1])
    ensures Past(Process(history[..|history| - 1]), history[|history| - 1].at) && history[|history| - 1].at > 0
  {
    RowsAreInThePast(history[..|history| - 1], history[|history| - 1].at);
  }

  /** The query over the tables equals the streaming counter over the history. */
  lemma {:induction false} QueryIsStreak(history: seq<Timed>, wallet: Wallet)
    requires InOrder(history)
    ensures ConsecutiveSofts(Process(history), wallet) == Streak(history, wallet)
  {
    if history != [] {
      var init, last := history[..|history| - 1], history[|history| - 1];
      InitInOrder(history);
      QueryIsStreak(init, wallet);
      QueryStep(init, last, wallet);
    }
  }

  lemma QueryStep(init: seq<Timed>, last: Timed, wallet: Wallet)
    requires InOrder(init + [last])
    requires ConsecutiveSofts(Process(init), wallet) == Streak(init, wallet)
    ensures ConsecutiveSofts(Handle(Process(init), last.event, last.at), wallet) == Streak(init + [last], wallet)
  {
    hide Process, Recipient, Reported, HasRow, HasComplaint, InOrder, Past, ConsecutiveSofts, Handle;
    var history := init + [last];
    assert history[..|history| - 1] == init;
    InitInOrder(history);
    var t := Process(init);
    match last.event
    case Bounced(m, permanent) =>
      WalletsAreRecipients(init, m);
      DuplicateChecksAreExact(init, m);
      HandledBounce(t, m, permanent, last.at, wallet);
    case Complained(m) =>
      WalletsAreRecipients(init, m);
      DuplicateChecksAreExact(init, m);
      HandledComplaint(t, m, last.at, wallet);
    case Delivered(m) =>
      WalletsAreRecipients(init, m);
      HandledDelivery(t, m, last.at, wallet);
    case _ =>
      UnrelatedEvent(t, last.event, last.at, wallet);
  }

  lemma UnrelatedEvent(t: Tables, e: Event, now: Time, wallet: Wallet)
    requires e.Sent? || e.SuppressionCleared? || e.Unrelated?
    ensures ConsecutiveSofts(Handle(t, e, now), wallet) == ConsecutiveSofts(t, wallet)
  {
  }

  lemma HandledBounce(t: Tables, msg: Msg, permanent: bool, now: Time, wallet: Wallet)
    requires Past(t, now) && now > 0
    ensures ConsecutiveSofts(Handle(t, Bounced(msg, permanent), now), wallet)
         == if msg !in t.wallets || t.wallets[msg] != wallet || HasRow(t.bounces, msg) then ConsecutiveSofts(t, wallet)
            else if permanent then 0
            else ConsecutiveSofts(t, wallet) + 1
  {
    if msg in t.wallets {
      QueryAfterBounce(t, BounceRow(t.wallets[msg], if permanent then Hard else Soft, msg, now), wallet);
    }
  }

  lemma HandledComplaint(t: Tables, msg: Msg, now: Time, wallet: Wallet)
    requires Past(t, now) && now > 0
    ensures ConsecutiveSofts(Handle(t, Complained(msg), now), wallet)
         == if msg !in t.wallets || t.wallets[msg] != wallet || HasComplaint(t.bounces, msg)
            then ConsecutiveSofts(t, wallet)
            else 0
  {
    if msg in t.wallets {
      QueryAfterBounce(t, BounceRow(t.wallets[msg], Complaint, msg, now), wallet);
    }
  }

  lemma HandledDelivery(t: Tables, msg: Msg, now: Time, wallet: Wallet)
    requires Past(t, now) && now > 0
    ensures ConsecutiveSofts(Handle(t, Delivered(msg), now), wallet)
         == if msg !in t.wallets || t.wallets[msg] != wallet then ConsecutiveSofts(t, wallet) else 0
  {
    if msg in t.wallets {
      QueryAfterDelivery(t, DeliveryRow(t.wallets[msg], msg, now), wallet);
    }
  }

  /**
   * The suppression row is what the history says: in particular a soft suppression is written exactly at a bounce that
   * is not a replay and makes the streak three or more.
   */
  lemma {:induction false} SuppressionIsExact(history: seq<Timed>, wallet: Wallet)
    requires InOrder(history)
    ensures Suppressed(history, wallet) == SuppressionOf(Process(history), wallet)
  {
    if history != [] {
      var init, last := history[..|history| - 1], history[|history| - 1];
      InitInOrder(history);
      hide InOrder, Past, Suppressed, SuppressionOf, Handle;
      SuppressionIsExact(init, wallet);
      assert history == init + [last];
      SuppressionStep(init, last, wallet);
      assert Process(history) == Handle(Process(init), last.event, last.at);
    } else {
      hide InOrder;
    }
  }

  /** The wallet's row of emailSuppression: none, or one. */
  function SuppressionOf(t: Tables, wallet: Wallet): set<Suppression> {
    if wallet in t.suppressions then {t.suppressions[wallet]} else {}
  }

  /** A bounce that is no replay, of one of the wallet's messages. */
  predicate FreshFor(t: Tables, msg: Msg, wallet: Wallet) {
    msg in t.wallets && t.wallets[msg] == wallet && !HasRow(t.bounces, msg)
  }

  lemma BounceSuppresses(t: Tables, msg: Msg, permanent: bool, now: Time, wallet: Wallet)
    requires Past(t, now) && now > 0
    ensures SuppressionOf(Handle(t, Bounced(msg, permanent), now), wallet)
         == if FreshFor(t, msg, wallet) && permanent then {Suppression(HardBounce, now)}
            else if FreshFor(t, msg, wallet) && ConsecutiveSofts(t, wallet) + 1 >= 3
            then {Suppression(SoftBounce, now)}
            else SuppressionOf(t, wallet)
  {
    if msg in t.wallets {
      QueryAfterBounce(t, BounceRow(t.wallets[msg], if permanent then Hard else Soft, msg, now), wallet);
    }
    hide Past, HasRow, ConsecutiveSofts;
  }

  lemma ComplaintSuppresses(t: Tables, msg: Msg, now: Time, wallet: Wallet)
    ensures SuppressionOf(Handle(t, Complained(msg), now), wallet)
         == if msg in t.wallets && t.wallets[msg] == wallet then {Suppression(ComplaintReceived, now)}
            else SuppressionOf(t, wallet)
  {
    hide HasComplaint;
  }

  lemma OthersSuppressNothing(t: Tables, e: Event, now: Time, wallet: Wallet)
    requires !e.Bounced? && !e.Complained?
    ensures SuppressionOf(Handle(t, e, now), wallet)
      == if e == SuppressionCleared(wallet) then {} else SuppressionOf(t, wallet)
  {
  }

  /** What the history calls for after one more event, in terms of the history before it. */
  lemma SuppressedAfter(init: seq<Timed>, last: Timed, wallet: Wallet)
    ensures var e := last.event;
      var isFresh := e.Bounced? && wallet in Recipient(init, e.msg) && !Reported(init, e.msg, false);
      Suppressed(init + [last], wallet)
      == if isFresh && e.permanent then {Suppression(HardBounce, last.at)}
         else if isFresh && Streak(init, wallet) + 1 >= 3 then {Suppression(SoftBounce, last.at)}
         else if e.Complained? && wallet in Recipient(init, e.msg) then {Suppression(ComplaintReceived, last.at)}
         else if e == SuppressionCleared(wallet) then {}
         else Suppressed(init, wallet)
  {
    assert (init + [last])[..|init + [last]| - 1] == init;
    hide Recipient, Reported;
  }

  lemma {:induction false} SuppressionStep(init: seq<Timed>, last: Timed, wallet: Wallet)
    requires InOrder(init + [last])
    requires Suppressed(init, wallet) == SuppressionOf(Process(init), wallet)
    ensures Suppressed(init + [last], wallet) == SuppressionOf(Handle(Process(init), last.event, last.at), wallet)
  {
    hide Process, Recipient, Reported, HasRow, HasComplaint, Past, ConsecutiveSofts, Suppressed, SuppressionOf,
      Handle, Streak;
    assert (init + [last])[..|init + [last]| - 1] == init;
    InitInOrder(init + [last]);
    InOrderInit(init, last);
    hide InOrder;
    var t := Process(init);
    SuppressedAfter(init, last, wallet);
    match last.event
    case Bounced(m, permanent) =>
      WalletsAreRecipients(init, m);
      DuplicateChecksAreExact(init, m);
      QueryIsStreak(init, wallet);
      BounceSuppresses(t, m, permanent, last.at, wallet);
    case Complained(m) =>
      WalletsAreRecipients(init, m);
      ComplaintSuppresses(t, m, last.at, wallet);
    case _ =>
      OthersSuppressNothing(t, last.event, last.at, wallet);
  }

  lemma InOrderInit(init: seq<Timed>, last: Timed)
    requires InOrder(init + [last])
    ensures InOrder(init)
  {
    assert forall i | 0 <= i < |init| :: (init + [last])[i] == init[i];
  }

  /** A row is only added for a message that has none, or for a complaint if the message has no complaint row. */
  lemma AddedRow(t: Tables, e: Event, now: Time)
    ensures var rows := Handle(t, e, now).bounces;
      || rows == t.bounces
      || (exists row ::
        rows == t.bounces + [row]
        && (if row.kind == Complaint then !HasComplaint(t.bounces, row.msg) else !HasRow(t.bounces, row.msg)))
  {
    hide ConsecutiveSofts;
    match e
    case Bounced(m, permanent) =>
      if m in t.wallets && !HasRow(t.bounces, m) {
        assert Handle(t, e, now).bounces
          == t.bounces + [BounceRow(t.wallets[m], if permanent then Hard else Soft, m, now)];
      }
    case Complained(m) =>
      if m in t.wallets && !HasComplaint(t.bounces, m) {
        assert Handle(t, e, now).bounces == t.bounces + [BounceRow(t.wallets[m], Complaint, m, now)];
      }
    case _ =>
  }

  /** A message has at most two rows: a bounce row, then a complaint row. */
  lemma {:induction false} AtMostABounceThenAComplaint(history: seq<Timed>, i: nat, j: nat)
    requires i < j < |Process(history).bounces|
    requires Process(history).bounces[i].msg == Process(history).bounces[j].msg
    ensures Process(history).bounces[i].kind != Complaint && Process(history).bounces[j].kind == Complaint
  {
    var init, last := history[..|history| - 1], history[|history| - 1];
    var before := Process(init).bounces;
    AddedRow(Process(init), last.event, last.at);
    hide Handle;
    if j < |before| {
      AtMostABounceThenAComplaint(init, i, j);
    } else {
      assert before[i] == Process(history).bounces[i];
    }
  }

  /** Whatever happened in between, a second bounce report for a message changes no table. */
  lemma ReplayedBounceChangesNothing(history: seq<Timed>, later: seq<Timed>, msg: Msg, first: bool, second: bool,
      at: Time, now: Time)
    requires Recipient(history, msg) != {}
    ensures var all := history + [Timed(Bounced(msg, first), at)] + later;
      Process(all + [Timed(Bounced(msg, second), now)]) == Process(all)
  {
    var start := history + [Timed(Bounced(msg, first), at)];
    assert start[..|start| - 1] == history;
    StaysReported(start, later, msg, false);
    var all := start + later;
    DuplicateChecksAreExact(all, msg);
    var longer := all + [Timed(Bounced(msg, second), now)];
    assert longer[..|longer| - 1] == all;
  }

  lemma {:induction false} StaysReported(history: seq<Timed>, later: seq<Timed>, msg: Msg, complaintsOnly: bool)
    requires Reported(history, msg, complaintsOnly)
    ensures Reported(history + later, msg, complaintsOnly)
  {
    if later == [] {
      assert history + later == history;
    } else {
      var all := history + later;
      assert all[..|all| - 1] == history + later[..|later| - 1];
      StaysReported(history, later[..|later| - 1], msg, complaintsOnly);
    }
  }

  /** A second complaint for a message renews the suppression, and resets nobody's streak. */
  lemma RepeatedComplaintKeepsStreaks(history: seq<Timed>, later: seq<Timed>, msg: Msg, at: Time, now: Time,
      wallet: Wallet)
    requires Recipient(history, msg) != {}
    ensures var all := history + [Timed(Complained(msg), at)] + later;
      var t := Process(all + [Timed(Complained(msg), now)]);
      && t.bounces == Process(all).bounces
      && ConsecutiveSofts(t, wallet) == ConsecutiveSofts(Process(all), wallet)
      && forall w :: w in Recipient(all, msg) ==>
           w in t.suppressions && t.suppressions[w] == Suppression(ComplaintReceived, now)
  {
    var start := history + [Timed(Complained(msg), at)];
    assert start[..|start| - 1] == history;
    StaysReported(start, later, msg, true);
    var all := start + later;
    DuplicateChecksAreExact(all, msg);
    WalletsAreRecipients(all, msg);
    var longer := all + [Timed(Complained(msg), now)];
    assert longer[..|longer| - 1] == all;
  }

  /**
   * Strictly increasing times matter: whatever the tables, a fresh soft bounce counts if and only if its time is later
   * than the wallet's newest delivery, hard bounce and complaint. One in the same instant as a delivery is lost.
   */
  lemma SoftBounceCountsIffLater(t: Tables, msg: Msg, now: Time)
    requires msg in t.wallets && !HasRow(t.bounces, msg)
    ensures var w := t.wallets[msg];
      ConsecutiveSofts(Handle(t, Bounced(msg, false), now), w)
        == ConsecutiveSofts(t, w) + if now > Cutoff(t, w) then 1 else 0
  {
    var w := t.wallets[msg];
    var longer := AddBounce(t, w, Soft, msg, now).bounces;
    assert longer[..|longer| - 1] == t.bounces;
  }
}
