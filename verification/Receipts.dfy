/**
 * On-chain receipts (receipt.service.ts, receipt.worker.ts): every scan hands the oldest pending notifications to the
 * worker, which settles each of them, unless its protocol row is missing. Which notifications are settled, and after
 * how many rounds, is decided by how many of the older ones cannot be settled.
 */
module Receipts {
  import opened JsStrings
  import opened Sets

  type Id = nat
  type Tx = string

  /** The receipt columns of a notification, and what the worker writes to them. */
  datatype Row = Row(writeReceipt: bool, receiptTx: Option<Tx>, receiptFailureReason: Option<string>)

  /** How the body of the worker's loop ends for one notification. */
  datatype Attempt =
    | ProtocolMissing
    | BadPubkey
    | Failed(reason: string)
    | Confirmed(tx: Tx)

  /** The where clause of the scan; the rows of the model are the delivered notifications. */
  predicate Pending(r: Row) {
    r.writeReceipt && r.receiptTx == None && r.receiptFailureReason == None
  }

  function Settle(r: Row, a: Attempt): Row {
    match a
    case ProtocolMissing => r
    case BadPubkey => r.(writeReceipt := false)
    case Failed(reason) => r.(receiptFailureReason := Some(reason))
    case Confirmed(tx) => r.(receiptTx := Some(tx))
  }

  type Table = map<Id, Row>

  /** The pending notifications, oldest first; `order` lists the delivered notifications by deliveredAt. */
  function PendingIds(order: seq<Id>, rows: Table): seq<Id>
    requires forall id :: id in order ==> id in rows
  {
    if order == [] then []
    else (if Pending(rows[order[0]]) then [order[0]] else []) + PendingIds(order[1..], rows)
  }

  function Least(a: nat, b: nat): nat {
    if a < b then a else b
  }

  ghost predicate Distinct(s: seq<Id>) {
    forall i, j | 0 <= i < j < |s| :: s[i] != s[j]
  }

  /** What one run of the worker does to the table. */
  function SettleAll(rows: Table, batch: seq<Id>, attempts: map<Id, Attempt>): Table
    requires forall id :: id in batch ==> id in rows && id in attempts
  {
    map id | id in rows :: if id in batch then Settle(rows[id], attempts[id]) else rows[id]
  }

  /** The attempts of the batch that wrote a receipt, or that threw. */
  function Tally(batch: seq<Id>, attempts: map<Id, Attempt>, succeeded: bool): nat
    requires forall id :: id in batch ==> id in attempts
  {
    if batch == [] then 0
    else
      var last := attempts[batch[|batch| - 1]];
      Tally(batch[..|batch| - 1], attempts, succeeded)
        + if (if succeeded then last.Confirmed? else last.Failed?) then 1 else 0
  }

  class ReceiptWorker {
    var rows: Table

    constructor (table: Table)
      ensures rows == table
    {
      rows := table;
    }

    /** The body of the loop: the row that one attempt leaves. */
    method WriteOne(id: Id, attempt: Attempt)
      requires id in rows
      modifies this
      ensures rows == old(rows)[id := Settle(old(rows[id]), attempt)]
    {
      match attempt {
        case ProtocolMissing =>
        case BadPubkey =>
          rows := rows[id := rows[id].(writeReceipt := false)];
        case Failed(reason) =>
          rows := rows[id := rows[id].(receiptFailureReason := Some(reason))];
        case Confirmed(tx) =>
          rows := rows[id := rows[id].(receiptTx := Some(tx))];
      }
    }

    /** The loop over the batch; an attempt that throws is recorded and does not stop the others. */
    method Process(batch: seq<Id>, attempts: map<Id, Attempt>) returns (successCount: nat, failCount: nat)
      requires Distinct(batch) && forall id :: id in batch ==> id in rows && id in attempts
      modifies this
      ensures rows == SettleAll(old(rows), batch, attempts)
      ensures successCount == Tally(batch, attempts, true) && failCount == Tally(batch, attempts, false)
    {
      hide Settle, Distinct, SettleAll, Tally;
      successCount, failCount := 0, 0;
      BeforeLoop(rows, attempts);
      for i := 0 to |batch|
        invariant forall id :: id in batch ==> id in rows
        invariant rows == SettleAll(old(rows), batch[..i], attempts)
        invariant successCount == Tally(batch[..i], attempts, true) && failCount == Tally(batch[..i], attempts, false)
      {
        OneMoreSettled(old(rows), batch, i, attempts);
        WriteOne(batch[i], attempts[batch[i]]);
        if attempts[batch[i]].Confirmed? {
          successCount := successCount + 1;
        } else if attempts[batch[i]].Failed? {
          failCount := failCount + 1;
        }
      }
      assert batch[..|batch|] == batch;
    }
  }

  /** The notifications of the batch whose attempt was confirmed, or those whose attempt failed. */
  function EndedAs(batch: seq<Id>, attempts: map<Id, Attempt>, succeeded: bool): set<Id>
    requires forall id :: id in batch ==> id in attempts
  {
    set id | id in batch && if succeeded then attempts[id].Confirmed? else attempts[id].Failed?
  }

  lemma OneMoreEnded(init: seq<Id>, last: Id, attempts: map<Id, Attempt>, succeeded: bool)
    requires last !in init && forall id :: id in init + [last] ==> id in attempts
    ensures |EndedAs(init + [last], attempts, succeeded)| == |EndedAs(init, attempts, succeeded)|
      + if (if succeeded then attempts[last].Confirmed? else attempts[last].Failed?) then 1 else 0
  {
    var ended := if succeeded then attempts[last].Confirmed? else attempts[last].Failed?;
    assert EndedAs(init + [last], attempts, succeeded)
      == EndedAs(init, attempts, succeeded) + if ended then {last} else {};
  }

  /** The counts the worker logs are those of the notifications that were confirmed and of those that failed. */
  lemma {:induction false} TallyCounts(batch: seq<Id>, attempts: map<Id, Attempt>, succeeded: bool)
    requires Distinct(batch) && forall id :: id in batch ==> id in attempts
    ensures Tally(batch, attempts, succeeded) == |EndedAs(batch, attempts, succeeded)|
  {
    if batch == [] {
      assert EndedAs([], attempts, succeeded) == {};
    } else {
      var n := |batch| - 1;
      assert batch == batch[..n] + [batch[n]];
      TallyCounts(batch[..n], attempts, succeeded);
      OneMoreEnded(batch[..n], batch[n], attempts, succeeded);
      hide EndedAs;
    }
  }

  lemma BeforeLoop(rows: Table, attempts: map<Id, Attempt>)
    ensures SettleAll(rows, [], attempts) == rows
    ensures Tally([], attempts, true) == 0 && Tally([], attempts, false) == 0
  {
  }

  lemma OneMoreSettled(rows: Table, batch: seq<Id>, i: nat, attempts: map<Id, Attempt>)
    requires Distinct(batch) && i < |batch| && forall id :: id in batch ==> id in rows && id in attempts
    ensures var before, id := SettleAll(rows, batch[..i], attempts), batch[i];
      && id in before
      && SettleAll(rows, batch[..i + 1], attempts) == before[id := Settle(before[id], attempts[id])]
    ensures Tally(batch[..i + 1], attempts, true)
      == Tally(batch[..i], attempts, true) + if attempts[batch[i]].Confirmed? then 1 else 0
    ensures Tally(batch[..i + 1], attempts, false)
      == Tally(batch[..i], attempts, false) + if attempts[batch[i]].Failed? then 1 else 0
  {
    assert batch[..i + 1][..i] == batch[..i];
    assert batch[i] !in batch[..i];
    assert forall d :: d in batch[..i + 1] <==> d in batch[..i] || d == batch[i];
    hide Settle;
  }

  // ------------------------------------------------------------------ one scan and its batch, on the table

  function Only(q: seq<Id>, keep: set<Id>): (r: seq<Id>)
    ensures |r| <= |q|
    ensures forall id :: id in r <==> id in q && id in keep
  {
    if q == [] then []
    else
      assert forall id :: id in q <==> id == q[0] || id in q[1..];
      (if q[0] in keep then [q[0]] else []) + Only(q[1..], keep)
  }

  /** A scan takes the oldest B pending notifications; all of them leave the queue but the orphans, in place. */
  function Round(q: seq<Id>, batchSize: nat, orphans: set<Id>): seq<Id> {
    var n := Least(batchSize, |q|);
    Only(q[..n], orphans) + q[n..]
  }

  lemma {:induction false} OnlyOfConcat(a: seq<Id>, b: seq<Id>, keep: set<Id>)
    ensures Only(a + b, keep) == Only(a, keep) + Only(b, keep)
  {
    if a == [] {
      assert a + b == b;
    } else {
      assert (a + b)[1..] == a[1..] + b;
      OnlyOfConcat(a[1..], b, keep);
    }
  }

  lemma {:induction false} OnlyOfAll(a: seq<Id>, keep: set<Id>)
    requires forall id :: id in a ==> id in keep
    ensures Only(a, keep) == a
  {
    if a != [] {
      OnlyOfAll(a[1..], keep);
    }
  }

  lemma {:induction false} OnlyAgrees(a: seq<Id>, keep: set<Id>, keep': set<Id>)
    requires forall id :: id in a ==> (id in keep <==> id in keep')
    ensures Only(a, keep) == Only(a, keep')
  {
    if a != [] {
      OnlyAgrees(a[1..], keep, keep');
    }
  }

  lemma {:induction false} PendingAreOrdered(order: seq<Id>, rows: Table)
    requires Distinct(order) && forall id :: id in order ==> id in rows
    ensures Distinct(PendingIds(order, rows))
    ensures forall id :: id in PendingIds(order, rows) <==> id in order && Pending(rows[id])
  {
    if order != [] {
      PendingAreOrdered(order[1..], rows);
      assert order[0] !in order[1..];
      assert forall id :: id in order <==> id == order[0] || id in order[1..];
    }
  }

  /** Notifications before position p of the order that are pending. */
  function PendingBefore(order: seq<Id>, rows: Table, p: nat): set<Id>
    requires p <= |order| && forall id :: id in order ==> id in rows
  {
    set x | x in order[..p] && Pending(rows[x])
  }

  lemma BeforeStep(order: seq<Id>, rows: Table, p: nat)
    requires Distinct(order) && (forall id :: id in order ==> id in rows) && 0 < p <= |order|
    ensures Distinct(order[1..])
    ensures |PendingBefore(order, rows, p)|
      == |PendingBefore(order[1..], rows, p - 1)| + if Pending(rows[order[0]]) then 1 else 0
  {
    hide Pending;
    var first, rest := order[0], order[1..];
    assert order[..p] == [first] + rest[..p - 1];
    assert first !in rest[..p - 1];
    var before := PendingBefore(rest, rows, p - 1);
    assert first !in before;
    assert PendingBefore(order, rows, p) == (if Pending(rows[first]) then {first} else {}) + before;
  }

  /** A pending notification stands in the list where its older ones put it. */
  lemma {:induction false} PlaceInList(order: seq<Id>, rows: Table, p: nat)
    requires Distinct(order) && (forall id :: id in order ==> id in rows) && p < |order| && Pending(rows[order[p]])
    ensures var k := |PendingBefore(order, rows, p)|;
      k < |PendingIds(order, rows)| && PendingIds(order, rows)[k] == order[p]
  {
    if p == 0 {
      assert PendingBefore(order, rows, 0) == {};
    } else {
      BeforeStep(order, rows, p);
      hide Pending, PendingBefore, Distinct;
      PlaceInList(order[1..], rows, p - 1);
    }
  }

  /**
   * A scan takes the oldest: a pending notification is in the batch if and only if fewer than B pending ones are older,
   * and the batch is in the order of delivery.
   */
  lemma BatchIsTheOldest(order: seq<Id>, rows: Table, batchSize: nat)
    requires Distinct(order) && forall id :: id in order ==> id in rows
    ensures var q := PendingIds(order, rows);
      var batch := q[..Least(batchSize, |q|)];
      && (forall p | 0 <= p < |order| ::
            order[p] in batch <==> Pending(rows[order[p]]) && |PendingBefore(order, rows, p)| < batchSize)
      && (forall i, j, p, p' | 0 <= i < j < |batch| && 0 <= p < |order| && 0 <= p' < |order|
            && order[p] == batch[i] && order[p'] == batch[j] :: p < p')
  {
    hide Pending;
    var q := PendingIds(order, rows);
    var batch := q[..Least(batchSize, |q|)];
    PendingAreOrdered(order, rows);
    forall p | 0 <= p < |order|
      ensures order[p] in batch <==> Pending(rows[order[p]]) && |PendingBefore(order, rows, p)| < batchSize
    {
      if Pending(rows[order[p]]) {
        PlaceInList(order, rows, p);
        assert q[|PendingBefore(order, rows, p)|] == order[p];
      } else {
        assert order[p] !in q;
      }
    }
    forall i, j, p, p' | 0 <= i < j < |batch| && 0 <= p < |order| && 0 <= p' < |order|
        && order[p] == batch[i] && order[p'] == batch[j]
      ensures p < p'
    {
      ListKeepsOrder(order, rows, p, p', i, j);
    }
  }

  lemma ListKeepsOrder(order: seq<Id>, rows: Table, p: nat, p': nat, i: nat, j: nat)
    requires Distinct(order) && forall id :: id in order ==> id in rows
    requires p < |order| && p' < |order| && i < j < |PendingIds(order, rows)|
    requires order[p] == PendingIds(order, rows)[i] && order[p'] == PendingIds(order, rows)[j]
    ensures p < p'
  {
    hide Pending;
    PendingAreOrdered(order, rows);
    PlaceInList(order, rows, p);
    PlaceInList(order, rows, p');
    if p' <= p {
      assert PendingBefore(order, rows, p') <= PendingBefore(order, rows, p);
      SubsetCardinality(PendingBefore(order, rows, p'), PendingBefore(order, rows, p));
    }
  }

  /** The pending list after the batch is the pending list before, without the settled ones. */
  lemma {:induction false} PendingAfterBatch(order: seq<Id>, rows: Table, batch: seq<Id>, attempts: map<Id, Attempt>,
      keep: set<Id>)
    requires forall id :: id in order ==> id in rows
    requires forall id :: id in batch ==> id in rows && id in attempts
    requires forall id :: id in order ==> (id in keep <==> (id in batch ==> attempts[id] == ProtocolMissing))
    ensures PendingIds(order, SettleAll(rows, batch, attempts)) == Only(PendingIds(order, rows), keep)
  {
    if order != [] {
      PendingAfterBatch(order[1..], rows, batch, attempts, keep);
      var first := if Pending(rows[order[0]]) then [order[0]] else [];
      OnlyOfConcat(first, PendingIds(order[1..], rows), keep);
    }
  }

  /**
   * One scan and its batch act on the list of pending notifications as Round does: whatever the outcome of each
   * attempt, exactly the orphans among the oldest B stay.
   */
  lemma ScanAndProcessIsRound(order: seq<Id>, rows: Table, batchSize: nat, attempts: map<Id, Attempt>, orphans: set<Id>)
    requires Distinct(order)
      && forall id :: id in order ==>
           id in rows && id in attempts && (attempts[id] == ProtocolMissing <==> id in orphans)
    ensures var q := PendingIds(order, rows);
      var batch := q[..Least(batchSize, |q|)];
      && (forall id :: id in batch ==> id in rows && id in attempts)
      && PendingIds(order, SettleAll(rows, batch, attempts)) == Round(q, batchSize, orphans)
  {
    hide Only, SettleAll, PendingIds, Distinct, Pending;
    var q := PendingIds(order, rows);
    var n := Least(batchSize, |q|);
    var batch, rest := q[..n], q[n..];
    PendingAreOrdered(order, rows);
    assert q == batch + rest;
    assert forall id :: id in batch ==> id in q;
    assert forall id :: id in rest ==> id in q;
    var keep := set id | id in order && (id in batch ==> id in orphans);
    PendingAfterBatch(order, rows, batch, attempts, keep);
    OnlyOfConcat(batch, rest, keep);
    OnlyAgrees(batch, keep, orphans);
    NotInBoth(q, n);
    OnlyOfAll(rest, keep);
  }

  lemma NotInBoth(q: seq<Id>, n: nat)
    requires Distinct(q) && n <= |q|
    ensures forall id :: id in q[n..] ==> id !in q[..n]
  {
  }

  // ------------------------------------------------------------------ rounds, with deliveries in between

  /** Rounds one after the other; before the i-th, the notifications arrivals[i] are delivered. */
  function Rounds(q: seq<Id>, arrivals: seq<seq<Id>>, batchSize: nat, orphans: set<Id>): seq<Id>
    decreases |arrivals|
  {
    if arrivals == [] then q
    else Rounds(Round(q + arrivals[0], batchSize, orphans), arrivals[1..], batchSize, orphans)
  }

  ghost predicate NewTo(x: Id, arrivals: seq<seq<Id>>) {
    forall i | 0 <= i < |arrivals| :: x !in arrivals[i]
  }

  function Orphans(q: seq<Id>, orphans: set<Id>): nat {
    |Only(q, orphans)|
  }

  lemma {:induction false} SettledStaysSettled(q: seq<Id>, x: Id, arrivals: seq<seq<Id>>, batchSize: nat,
      orphans: set<Id>)
    requires x !in q && NewTo(x, arrivals)
    ensures x !in Rounds(q, arrivals, batchSize, orphans)
    decreases |arrivals|
  {
    if arrivals != [] {
      assert x !in arrivals[0];
      SettledStaysSettled(Round(q + arrivals[0], batchSize, orphans), x, arrivals[1..], batchSize, orphans);
    }
  }

  /** An item with fewer than B older ones is in the batch. */
  lemma RoundReaches(older: seq<Id>, x: Id, newer: seq<Id>, batchSize: nat, orphans: set<Id>)
    requires |older| < batchSize && x !in orphans && x !in newer
    ensures x !in Round(older + [x] + newer, batchSize, orphans)
  {
    var q := older + [x] + newer;
    var n := Least(batchSize, |q|);
    forall i | n <= i < |q| ensures q[i] != x {
      assert q[i] == newer[i - |older| - 1];
    }
  }

  /** An item with B or more older ones stays, behind the same orphans and behind at most what the batch left. */
  lemma RoundAdvances(older: seq<Id>, x: Id, newer: seq<Id>, batchSize: nat, orphans: set<Id>) returns (older': seq<Id>)
    requires |older| >= batchSize
    ensures Round(older + [x] + newer, batchSize, orphans) == older' + [x] + newer
    ensures Orphans(older', orphans) == Orphans(older, orphans) <= |older'|
    ensures |older'| <= |older|
    ensures Orphans(older, orphans) <= batchSize ==> |older'| <= |older| - (batchSize - Orphans(older, orphans))
    ensures forall id :: id in older' ==> id in older
  {
    hide Only;
    var q := older + [x] + newer;
    var taken, left := older[..batchSize], older[batchSize..];
    assert older == taken + left;
    assert q[..batchSize] == taken && q[batchSize..] == left + [x] + newer;
    older' := Only(taken, orphans) + left;
    OnlyOfConcat(taken, left, orphans);
    OnlyOfConcat(Only(taken, orphans), left, orphans);
    OnlyOfAll(Only(taken, orphans), orphans);
  }

  /** A notification with B or more orphans before it is never settled, however many rounds there are. */
  lemma {:induction false} Starves(older: seq<Id>, x: Id, newer: seq<Id>, arrivals: seq<seq<Id>>, batchSize: nat,
      orphans: set<Id>)
    requires Orphans(older, orphans) >= batchSize
    ensures x in Rounds(older + [x] + newer, arrivals, batchSize, orphans)
    decreases |arrivals|
  {
    if arrivals == [] {
      assert (older + [x] + newer)[|older|] == x;
    } else {
      var q := older + [x] + newer + arrivals[0];
      assert q == older + [x] + (newer + arrivals[0]);
      var older' := RoundAdvances(older, x, newer + arrivals[0], batchSize, orphans);
      Starves(older', x, newer + arrivals[0], arrivals[1..], batchSize, orphans);
    }
  }

  lemma OneRoundLess(rounds: nat, gain: nat, behind: int)
    requires rounds * gain > behind && rounds > 0
    ensures (rounds - 1) * gain > behind - gain
  {
  }

  /** With o < B orphans before it and n settleable ones, a notification is settled within n / (B - o) + 1 rounds. */
  lemma {:induction false} Settles(older: seq<Id>, x: Id, newer: seq<Id>, arrivals: seq<seq<Id>>, batchSize: nat,
      orphans: set<Id>)
    requires x !in orphans && x !in older && x !in newer && NewTo(x, arrivals)
    requires Orphans(older, orphans) < batchSize
    requires |arrivals| * (batchSize - Orphans(older, orphans)) > |older| - Orphans(older, orphans)
    ensures x !in Rounds(older + [x] + newer, arrivals, batchSize, orphans)
    decreases |arrivals|
  {
    var gain := batchSize - Orphans(older, orphans);
    if arrivals != [] {
      var after := newer + arrivals[0];
      assert older + [x] + newer + arrivals[0] == older + [x] + after;
      assert x !in arrivals[0];
      if |older| < batchSize {
        RoundReaches(older, x, after, batchSize, orphans);
        SettledStaysSettled(Round(older + [x] + after, batchSize, orphans), x, arrivals[1..], batchSize, orphans);
      } else {
        var older' := RoundAdvances(older, x, after, batchSize, orphans);
        OneRoundLess(|arrivals|, gain, |older| - Orphans(older, orphans));
        Settles(older', x, after, arrivals[1..], batchSize, orphans);
      }
    }
  }

  /**
   * The fairness of the scan, exactly: after enough rounds a notification is settled if and only if fewer than B older
   * pending ones have lost their protocol row. Later deliveries cannot delay it.
   */
  lemma SettledIffFewOrphansAhead(older: seq<Id>, x: Id, newer: seq<Id>, arrivals: seq<seq<Id>>, batchSize: nat,
      orphans: set<Id>)
    requires x !in orphans && x !in older && x !in newer && NewTo(x, arrivals)
    requires |arrivals| > |older|
    ensures x !in Rounds(older + [x] + newer, arrivals, batchSize, orphans) <==> Orphans(older, orphans) < batchSize
  {
    var o := Orphans(older, orphans);
    if o < batchSize {
      AtLeast(|arrivals|, batchSize - o);
      Settles(older, x, newer, arrivals, batchSize, orphans);
    } else {
      Starves(older, x, newer, arrivals, batchSize, orphans);
    }
  }

  lemma AtLeast(m: nat, n: nat)
    requires n >= 1
    ensures m * n >= m
  {
  }

  function Quiet(rounds: nat): seq<seq<Id>> {
    seq(rounds, _ => [])
  }

  lemma RoundWithoutOrphans(q: seq<Id>, batchSize: nat)
    ensures Round(q + [], batchSize, {}) == q[Least(batchSize, |q|)..]
  {
    var n := Least(batchSize, |q|);
    assert q + [] == q;
    OnlyOfNone(q[..n]);
  }

  lemma {:induction false} OnlyOfNone(a: seq<Id>)
    ensures Only(a, {}) == []
  {
    if a != [] {
      OnlyOfNone(a[1..]);
    }
  }

  lemma DropTwice(q: seq<Id>, batchSize: nat, rounds: nat)
    requires rounds > 0
    ensures var rest := q[Least(batchSize, |q|)..];
      rest[Least((rounds - 1) * batchSize, |rest|)..] == q[Least(rounds * batchSize, |q|)..]
  {
    var later := (rounds - 1) * batchSize;
    assert rounds * batchSize == batchSize + later;
    DropMore(q, batchSize, later);
  }

  lemma DropMore(q: seq<Id>, a: nat, b: nat)
    ensures q[Least(a, |q|)..][Least(b, |q[Least(a, |q|)..]|)..] == q[Least(a + b, |q|)..]
  {
  }

  /** With every protocol row present, k rounds settle exactly the k * B oldest; ceil(n / B) rounds settle all n. */
  lemma {:induction false} WithoutOrphans(q: seq<Id>, rounds: nat, batchSize: nat)
    ensures Rounds(q, Quiet(rounds), batchSize, {}) == q[Least(rounds * batchSize, |q|)..]
  {
    if rounds > 0 {
      RoundWithoutOrphans(q, batchSize);
      hide Round, Least;
      assert Quiet(rounds)[1..] == Quiet(rounds - 1);
      WithoutOrphans(q[Least(batchSize, |q|)..], rounds - 1, batchSize);
      DropTwice(q, batchSize, rounds);
    } else {
      assert Least(0, |q|) == 0;
    }
  }

  // ------------------------------------------------------------------ the reported status

  datatype ReceiptStatus = StatusPending | StatusFailed | StatusConfirmed | StatusDisabled

  /** receipt_status of getNotificationStatus; an empty reason counts as no reason. */
  function Status(r: Row): ReceiptStatus {
    if !r.writeReceipt then StatusDisabled
    else if r.receiptTx.Some? then StatusConfirmed
    else if r.receiptFailureReason.Some? && r.receiptFailureReason.value != "" then StatusFailed
    else StatusPending
  }

  /**
   * What an attempt does to a pending notification: a missing protocol leaves it for the next scan, every other ending
   * takes it out. The status is then confirmed with the transaction, disabled, or failed unless the message is empty.
   */
  lemma AttemptMeans(r: Row, a: Attempt)
    requires Pending(r)
    ensures var after := Settle(r, a);
      && (Pending(after) <==> a == ProtocolMissing) && (a == ProtocolMissing ==> after == r)
      && (Status(after) == StatusConfirmed <==> a.Confirmed?) && (a.Confirmed? ==> after.receiptTx == Some(a.tx))
      && (Status(after) == StatusDisabled <==> a == BadPubkey)
      && (Status(after) == StatusFailed <==> a.Failed? && a.reason != "")
      && (a.Failed? ==> after.receiptFailureReason == Some(a.reason))
  {
  }

  function Rank(s: ReceiptStatus): nat {
    match s
    case StatusPending => 0
    case StatusFailed => 1
    case StatusConfirmed => 2
    case StatusDisabled => 3
  }

  /**
   * Attempts of overlapping batches may write in any order: the status goes forward, pending, failed, confirmed,
   * disabled, except in one case: an attempt that fails with an empty message replaces an earlier reason.
   */
  lemma StatusGoesForwardIff(r: Row, a: Attempt)
    ensures Rank(Status(Settle(r, a))) >= Rank(Status(r)) <==> !(a == Failed("") && Status(r) == StatusFailed)
  {
  }

  /** What the scan skips and what the status calls pending differ in the same case only. */
  lemma ReportedPendingIsScannedIff(r: Row)
    ensures Pending(r) ==> Status(r) == StatusPending
    ensures Status(r) == StatusPending ==> (Pending(r) <==> r.receiptFailureReason != Some(""))
  {
  }

  // ------------------------------------------------------------------ overlapping batches and the chain

  /** The address a receipt lives at, derived from the notification; nothing says two notifications differ in it. */
  type Address = string

  /** How the chain ends a transaction: with a receipt, with the address occupied, or failed for another reason. */
  datatype Outcome = Accepted | AddressTaken | FailedOtherwise

  datatype Execution = Execution(id: Id, tx: Tx, outcome: Outcome)

  /** Every transaction the chain has executed, in order; the table; and the attempts that have not ended. */
  datatype World = World(log: seq<Execution>, rows: Table, attempts: multiset<Id>)

  /**
   * A scan hands a notification to a worker; the chain executes a transaction that a worker sent, maybe after the
   * worker gave up on it, and it may fail for a reason of its own; or a worker ends its attempt by writing the row. A
   * confirmation only says that the transaction was executed: the worker does not read its error.
   */
  datatype Step = Taken(id: Id) | Executed(id: Id, tx: Tx, fails: bool) | Written(id: Id, attempt: Attempt)

  ghost predicate HasReceipt(log: seq<Execution>, addressOf: Id -> Address, address: Address) {
    exists i | 0 <= i < |log| :: log[i].outcome == Accepted && addressOf(log[i].id) == address
  }

  ghost predicate Enabled(w: World, s: Step) {
    match s
    case Taken(id) => id in w.rows && Pending(w.rows[id])
    case Executed(id, tx, fails) => true
    case Written(id, attempt) =>
      id in w.rows && id in w.attempts
        && (attempt.Confirmed? ==> exists i | 0 <= i < |w.log| :: w.log[i].id == id && w.log[i].tx == attempt.tx)
  }

  ghost function Next(w: World, addressOf: Id -> Address, s: Step): World
    requires Enabled(w, s)
  {
    match s
    case Taken(id) => w.(attempts := w.attempts + multiset{id})
    case Executed(id, tx, fails) =>
      var outcome :=
        if fails then FailedOtherwise else if HasReceipt(w.log, addressOf, addressOf(id)) then AddressTaken
        else Accepted;
      w.(log := w.log + [Execution(id, tx, outcome)])
    case Written(id, attempt) =>
      w.(rows := w.rows[id := Settle(w.rows[id], attempt)], attempts := w.attempts - multiset{id})
  }

  ghost predicate IsRun(worlds: seq<World>, steps: seq<Step>, addressOf: Id -> Address) {
    && |worlds| == |steps| + 1
    && worlds[0].log == [] && worlds[0].attempts == multiset{}
      && (forall id | id in worlds[0].rows :: worlds[0].rows[id].receiptTx == None)
    && forall i | 0 <= i < |steps| ::
      Enabled(worlds[i], steps[i]) && worlds[i + 1] == Next(worlds[i], addressOf, steps[i])
  }

  ghost predicate OneEach(log: seq<Execution>, addressOf: Id -> Address) {
    forall i, j | 0 <= i < j < |log| && log[i].outcome == Accepted && log[j].outcome == Accepted ::
      addressOf(log[i].id) != addressOf(log[j].id)
  }

  /** A rejection for an occupied address has an earlier receipt at that address to show for it. */
  ghost predicate RejectionsFounded(log: seq<Execution>, addressOf: Id -> Address) {
    forall j | 0 <= j < |log| && log[j].outcome == AddressTaken :: HasReceipt(log, addressOf, addressOf(log[j].id))
  }

  /** The transaction in a row was executed for that row's notification. */
  ghost predicate TransactionsExecuted(w: World) {
    forall id | id in w.rows && w.rows[id].receiptTx.Some? ::
      exists i | 0 <= i < |w.log| :: w.log[i].id == id && w.log[i].tx == w.rows[id].receiptTx.value
  }

  lemma ReceiptStays(log: seq<Execution>, e: Execution, addressOf: Id -> Address, address: Address)
    ensures HasReceipt(log + [e], addressOf, address)
      <==> HasReceipt(log, addressOf, address) || (e.outcome == Accepted && addressOf(e.id) == address)
  {
    var longer := log + [e];
    assert longer[|log|] == e;
    assert forall i | 0 <= i < |log| :: longer[i] == log[i];
  }

  lemma ExecutionKeeps(log: seq<Execution>, addressOf: Id -> Address, id: Id, tx: Tx, fails: bool)
    requires OneEach(log, addressOf) && RejectionsFounded(log, addressOf)
    ensures var longer := Next(World(log, map[], multiset{}), addressOf, Executed(id, tx, fails)).log;
      OneEach(longer, addressOf) && RejectionsFounded(longer, addressOf)
  {
    var longer := Next(World(log, map[], multiset{}), addressOf, Executed(id, tx, fails)).log;
    var e := longer[|log|];
    forall address
      ensures HasReceipt(longer, addressOf, address)
      <==> HasReceipt(log, addressOf, address) || (e.outcome == Accepted && addressOf(e.id) == address) {
      ReceiptStays(log, e, addressOf, address);
    }
    assert forall i | 0 <= i < |log| && log[i].outcome == Accepted :: HasReceipt(log, addressOf, addressOf(log[i].id));
    hide HasReceipt;
  }

  lemma {:induction false} RunsAreSound(worlds: seq<World>, steps: seq<Step>, addressOf: Id -> Address, n: nat)
    requires IsRun(worlds, steps, addressOf) && n <= |steps|
    ensures OneEach(worlds[n].log, addressOf) && RejectionsFounded(worlds[n].log, addressOf)
    decreases n
  {
    if n > 0 {
      RunsAreSound(worlds, steps, addressOf, n - 1);
      var s := steps[n - 1];
      assert Enabled(worlds[n - 1], s) && worlds[n] == Next(worlds[n - 1], addressOf, s);
      if s.Executed? {
        ExecutionKeeps(worlds[n - 1].log, addressOf, s.id, s.tx, s.fails);
        hide OneEach, RejectionsFounded;
      }
    }
  }

  lemma {:induction false} RowsAreExecuted(worlds: seq<World>, steps: seq<Step>, addressOf: Id -> Address, n: nat)
    requires IsRun(worlds, steps, addressOf) && n <= |steps|
    ensures TransactionsExecuted(worlds[n])
    decreases n
  {
    if n > 0 {
      RowsAreExecuted(worlds, steps, addressOf, n - 1);
      var w, s := worlds[n - 1], steps[n - 1];
      assert Enabled(w, s) && worlds[n] == Next(w, addressOf, s);
      hide HasReceipt;
      if s.Executed? {
        assert forall i | 0 <= i < |w.log| :: worlds[n].log[i] == w.log[i];
      }
    }
  }

  /** However the batches overlap, the chain accepts at most one transaction per address. */
  lemma OneReceiptPerAddress(worlds: seq<World>, steps: seq<Step>, addressOf: Id -> Address, n: nat, i: nat, j: nat)
    requires IsRun(worlds, steps, addressOf) && n <= |steps| && i < |worlds[n].log| && j < |worlds[n].log|
    requires worlds[n].log[i].outcome == Accepted && worlds[n].log[j].outcome == Accepted
    requires addressOf(worlds[n].log[i].id) == addressOf(worlds[n].log[j].id)
    ensures i == j
  {
    RunsAreSound(worlds, steps, addressOf, n);
  }

  /**
   * A notification that is reported as confirmed has no receipt at its address if and only if every transaction that
   * was executed for that address failed for a reason other than the address being taken; and there was one.
   */
  lemma ConfirmedWithoutReceiptIff(worlds: seq<World>, steps: seq<Step>, addressOf: Id -> Address, n: nat, id: Id)
    requires IsRun(worlds, steps, addressOf) && n <= |steps| && id in worlds[n].rows
    requires Status(worlds[n].rows[id]) == StatusConfirmed
    ensures exists i | 0 <= i < |worlds[n].log| ::
      worlds[n].log[i].id == id && Some(worlds[n].log[i].tx) == worlds[n].rows[id].receiptTx
    ensures !HasReceipt(worlds[n].log, addressOf, addressOf(id)) <==>
      forall i | 0 <= i < |worlds[n].log| && addressOf(worlds[n].log[i].id) == addressOf(id) ::
        worlds[n].log[i].outcome == FailedOtherwise
  {
    RunsAreSound(worlds, steps, addressOf, n);
    RowsAreExecuted(worlds, steps, addressOf, n);
  }

  /** A notification that waits for its receipt. */
  function WaitingRow(): Row {
    Row(true, None, None)
  }

  lemma FirstExecution(rows: Table, attempts: multiset<Id>, addressOf: Id -> Address, id: Id, tx: Tx, fails: bool)
    ensures var outcome := if fails then FailedOtherwise else Accepted;
      Next(World([], rows, attempts), addressOf, Executed(id, tx, fails))
      == World([Execution(id, tx, outcome)], rows, attempts)
  {
  }

  lemma FirstAndOnlyWrite(log: seq<Execution>, addressOf: Id -> Address, id: Id, attempt: Attempt)
    requires attempt.Confirmed? ==> log != [] && log[0].id == id && log[0].tx == attempt.tx
    ensures var w := World(log, map[id := WaitingRow()], multiset{id});
      && Enabled(w, Written(id, attempt))
      && Next(w, addressOf, Written(id, attempt)) == World(log, map[id := Settle(WaitingRow(), attempt)], multiset{})
  {
    hide Settle;
    assert map[id := WaitingRow()][id := Settle(WaitingRow(), attempt)] == map[id := Settle(WaitingRow(), attempt)];
    assert multiset{id} - multiset{id} == multiset{};
  }

  /** This happens: one transaction is executed and fails, its confirmation arrives, and the row says confirmed. */
  lemma ConfirmedWithoutReceiptHappens(addressOf: Id -> Address, id: Id, tx: Tx)
      returns (worlds: seq<World>, steps: seq<Step>)
    ensures IsRun(worlds, steps, addressOf) && |steps| == 3
    ensures id in worlds[3].rows && Status(worlds[3].rows[id]) == StatusConfirmed
      && !HasReceipt(worlds[3].log, addressOf, addressOf(id))
  {
    var rows, log := map[id := WaitingRow()], [Execution(id, tx, FailedOtherwise)];
    steps := [Taken(id), Executed(id, tx, true), Written(id, Confirmed(tx))];
    worlds := [World([], rows, multiset{}), World([], rows, multiset{id}), World(log, rows, multiset{id}),
      World(log, map[id := Settle(WaitingRow(), Confirmed(tx))], multiset{})];
    FirstExecution(rows, multiset{id}, addressOf, id, tx, true);
    FirstAndOnlyWrite(log, addressOf, id, Confirmed(tx));
    assert !HasReceipt(log, addressOf, addressOf(id));
    hide HasReceipt;
  }

  // ------------------------------------------------------------------ failed, with a receipt

  /** An address has a receipt if and only if some transaction for it was executed and did not fail by itself. */
  lemma {:induction false} ReceiptIffExecuted(worlds: seq<World>, steps: seq<Step>, addressOf: Id -> Address, n: nat,
      address: Address)
    requires IsRun(worlds, steps, addressOf) && n <= |steps|
    ensures HasReceipt(worlds[n].log, addressOf, address) <==>
      exists i | 0 <= i < n :: steps[i].Executed? && !steps[i].fails && addressOf(steps[i].id) == address
    decreases n
  {
    if n > 0 {
      ReceiptIffExecuted(worlds, steps, addressOf, n - 1, address);
      var w, s := worlds[n - 1], steps[n - 1];
      assert Enabled(w, s) && worlds[n] == Next(w, addressOf, s);
      if s.Executed? {
        ReceiptStays(w.log, worlds[n].log[|w.log|], addressOf, address);
      }
      hide HasReceipt;
    }
  }

  ghost predicate Leads(worlds: seq<World>, steps: seq<Step>, addressOf: Id -> Address, w: World) {
    && |worlds| == |steps| + 1 && worlds[0] == w
    && forall i | 0 <= i < |steps| ::
      Enabled(worlds[i], steps[i]) && worlds[i + 1] == Next(worlds[i], addressOf, steps[i])
  }

  /** No scan takes a row that is reported failed, so without an attempt under way nothing is written to it any more. */
  lemma {:induction false} FailedStays(worlds: seq<World>, steps: seq<Step>, addressOf: Id -> Address, w: World,
      n: nat, id: Id)
    requires Leads(worlds, steps, addressOf, w) && n <= |steps|
    requires id in w.rows && Status(w.rows[id]) == StatusFailed && id !in w.attempts
    ensures id in worlds[n].rows && worlds[n].rows[id] == w.rows[id] && id !in worlds[n].attempts
    decreases n
  {
    if n > 0 {
      FailedStays(worlds, steps, addressOf, w, n - 1, id);
      assert Enabled(worlds[n - 1], steps[n - 1]) && worlds[n] == Next(worlds[n - 1], addressOf, steps[n - 1]);
      hide HasReceipt;
    }
  }

  ghost predicate CanBeConfirmed(w: World, addressOf: Id -> Address, id: Id) {
    exists worlds: seq<World>, steps: seq<Step> ::
      && Leads(worlds, steps, addressOf, w)
      && id in worlds[|steps|].rows && Status(worlds[|steps|].rows[id]) == StatusConfirmed
  }

  /** A row that is reported failed can still become confirmed if and only if another attempt for it is under way. */
  lemma FailedIsFinalIff(w: World, addressOf: Id -> Address, id: Id)
    requires id in w.rows && Status(w.rows[id]) == StatusFailed
    ensures CanBeConfirmed(w, addressOf, id) <==> id in w.attempts
  {
    if id in w.attempts {
      var steps := [Executed(id, "", false), Written(id, Confirmed(""))];
      var executed := Next(w, addressOf, steps[0]);
      assert executed.log[|w.log|].id == id && executed.log[|w.log|].tx == "";
      var worlds := [w, executed, Next(executed, addressOf, steps[1])];
      hide HasReceipt;
      assert Leads(worlds, steps, addressOf, w);
    } else {
      forall worlds: seq<World>, steps: seq<Step> | Leads(worlds, steps, addressOf, w)
        ensures id in worlds[|steps|].rows && worlds[|steps|].rows[id] == w.rows[id]
      {
        FailedStays(worlds, steps, addressOf, w, |steps|, id);
      }
    }
  }

  lemma {:induction false} RowUnwritten(worlds: seq<World>, steps: seq<Step>, addressOf: Id -> Address, a: nat,
      n: nat, id: Id)
    requires IsRun(worlds, steps, addressOf) && a <= n <= |steps| && id in worlds[a].rows
    requires forall i | a <= i < n && steps[i].Written? :: steps[i].id != id
    ensures id in worlds[n].rows && worlds[n].rows[id] == worlds[a].rows[id]
    decreases n
  {
    if a < n {
      RowUnwritten(worlds, steps, addressOf, a, n - 1, id);
      assert Enabled(worlds[n - 1], steps[n - 1]) && worlds[n] == Next(worlds[n - 1], addressOf, steps[n - 1]);
      hide HasReceipt;
    }
  }

  /** The writes that left the row as it is at moment n: the last one was at m, and it was a failure. */
  ghost predicate LastWrite(steps: seq<Step>, n: nat, m: nat, id: Id, reason: string) {
    && m < n <= |steps| && steps[m] == Written(id, Failed(reason))
    && forall i | m < i < n && steps[i].Written? :: steps[i].id != id
  }

  /**
   * When a notification that is reported failed has a receipt nevertheless: if and only if a transaction for its
   * address went through, either before the failure was written, unconfirmed in time, or after it. The second needs
   * no further attempt, and as long as none writes, the row goes on saying failed.
   */
  lemma FailedWithReceiptIff(worlds: seq<World>, steps: seq<Step>, addressOf: Id -> Address, m: nat, n: nat, id: Id,
      reason: string)
    requires IsRun(worlds, steps, addressOf) && LastWrite(steps, n, m, id, reason)
    requires id in worlds[m + 1].rows && Status(worlds[m + 1].rows[id]) == StatusFailed
    ensures id in worlds[n].rows && Status(worlds[n].rows[id]) == StatusFailed
    ensures HasReceipt(worlds[n].log, addressOf, addressOf(id)) <==>
      || HasReceipt(worlds[m].log, addressOf, addressOf(id))
      || exists i | m < i < n :: steps[i].Executed? && !steps[i].fails && addressOf(steps[i].id) == addressOf(id)
  {
    RowUnwritten(worlds, steps, addressOf, m + 1, n, id);
    ReceiptIffExecuted(worlds, steps, addressOf, m, addressOf(id));
    ReceiptIffExecuted(worlds, steps, addressOf, n, addressOf(id));
    hide HasReceipt;
  }

  lemma FailedLate(addressOf: Id -> Address, id: Id, tx: Tx, failure: Attempt)
      returns (worlds: seq<World>, steps: seq<Step>)
    requires failure.Failed?
    ensures IsRun(worlds, steps, addressOf) && steps == [Taken(id), Written(id, failure), Executed(id, tx, false)]
    ensures |worlds| == 4
    ensures worlds[3] == World([Execution(id, tx, Accepted)], map[id := Settle(WaitingRow(), failure)], multiset{})
  {
    hide HasReceipt;
    var rows, failed := map[id := WaitingRow()], map[id := Settle(WaitingRow(), failure)];
    var log := [Execution(id, tx, Accepted)];
    steps := [Taken(id), Written(id, failure), Executed(id, tx, false)];
    worlds := [World([], rows, multiset{}), World([], rows, multiset{id}), World([], failed, multiset{}),
      World(log, failed, multiset{})];
    FirstAndOnlyWrite([], addressOf, id, failure);
    FirstExecution(failed, multiset{}, addressOf, id, tx, false);
  }

  lemma FailedEarly(addressOf: Id -> Address, id: Id, tx: Tx, failure: Attempt)
      returns (worlds: seq<World>, steps: seq<Step>)
    requires failure.Failed?
    ensures IsRun(worlds, steps, addressOf) && steps == [Taken(id), Executed(id, tx, false), Written(id, failure)]
    ensures |worlds| == 4
    ensures worlds[3] == World([Execution(id, tx, Accepted)], map[id := Settle(WaitingRow(), failure)], multiset{})
  {
    hide HasReceipt;
    var rows, failed := map[id := WaitingRow()], map[id := Settle(WaitingRow(), failure)];
    var log := [Execution(id, tx, Accepted)];
    steps := [Taken(id), Executed(id, tx, false), Written(id, failure)];
    worlds := [World([], rows, multiset{}), World([], rows, multiset{id}), World(log, rows, multiset{id}),
      World(log, failed, multiset{})];
    FirstExecution(rows, multiset{id}, addressOf, id, tx, false);
    FirstAndOnlyWrite(log, addressOf, id, failure);
  }

  /** Both happen, and leave no attempt that could put the row right. */
  lemma FailedWithReceiptHappens(addressOf: Id -> Address, id: Id, tx: Tx, late: bool)
      returns (worlds: seq<World>, steps: seq<Step>)
    ensures IsRun(worlds, steps, addressOf) && |steps| == 3
    ensures steps[if late then 1 else 2] == Written(id, Failed("not confirmed in time"))
    ensures id in worlds[3].rows && Status(worlds[3].rows[id]) == StatusFailed
    ensures HasReceipt(worlds[3].log, addressOf, addressOf(id)) && id !in worlds[3].attempts
  {
    hide IsRun;
    var failure := Failed("not confirmed in time");
    if late {
      worlds, steps := FailedLate(addressOf, id, tx, failure);
    } else {
      worlds, steps := FailedEarly(addressOf, id, tx, failure);
    }
    assert worlds[3].log[0].outcome == Accepted && worlds[3].log[0].id == id;
  }

  lemma StatusStep(w: World, addressOf: Id -> Address, s: Step, id: Id)
    requires id in w.rows && Enabled(w, s) && s != Written(id, Failed(""))
    ensures id in Next(w, addressOf, s).rows
      && Rank(Status(Next(w, addressOf, s).rows[id])) >= Rank(Status(w.rows[id]))
  {
    if s.Written? && s.id == id {
      StatusGoesForwardIff(w.rows[id], s.attempt);
    }
    hide HasReceipt, Status, Settle;
  }

  /** Over a whole run without empty failure messages, every reported status only goes forward. */
  lemma {:induction false} StatusesGoForward(
      worlds: seq<World>, steps: seq<Step>, addressOf: Id -> Address, i: nat, j: nat, id: Id)
    requires IsRun(worlds, steps, addressOf) && i <= j < |worlds| && id in worlds[i].rows
    requires forall k | i <= k < j :: steps[k] != Written(id, Failed(""))
    ensures id in worlds[j].rows && Rank(Status(worlds[j].rows[id])) >= Rank(Status(worlds[i].rows[id]))
    decreases j
  {
    hide Enabled, Next, Status, Rank;
    if i < j {
      StatusesGoForward(worlds, steps, addressOf, i, j - 1, id);
      StepOfRun(worlds, steps, addressOf, j - 1);
      hide IsRun;
      StatusStep(worlds[j - 1], addressOf, steps[j - 1], id);
    }
  }

  lemma StepOfRun(worlds: seq<World>, steps: seq<Step>, addressOf: Id -> Address, n: nat)
    requires IsRun(worlds, steps, addressOf) && n < |steps|
    ensures Enabled(worlds[n], steps[n]) && worlds[n + 1] == Next(worlds[n], addressOf, steps[n])
  {
  }
}
