/**
 * Overlapping bounce reports (bounce.service.ts): the duplicate check and the insert are two awaited calls, and no
 * unique index on email_bounces catches what passes between them. How many rows one message can get, and for what.
 */
module BounceOverlap {
  import opened BounceStreak
  import opened Sets

  type Report = nat

  /** A report whose duplicate check found nothing and whose insert is still to come. */
  datatype Passed = Passed(wallet: Wallet, kind: Kind, msg: Msg)

  datatype World = World(rows: seq<BounceRow>, passed: map<Report, Passed>)

  const START := World([], map[])

  /** One awaited call each; the insert stamps the row, or throws. */
  datatype Step =
    | LookedUp(id: Report, report: Passed)
    | Inserted(id: Report, at: Time)
    | Threw(id: Report)

  /** The duplicate check of a report: a complaint looks for complaints, a bounce for any row of the message. */
  predicate Found(rows: seq<BounceRow>, report: Passed) {
    if report.kind == Complaint then HasComplaint(rows, report.msg) else HasRow(rows, report.msg)
  }

  /** At most `overlap` reports at a time are between their check and their insert. */
  predicate Enabled(w: World, s: Step, overlap: nat) {
    match s
    case LookedUp(id, report) => id !in w.passed && |w.passed| < overlap
    case Inserted(id, _) => id in w.passed
    case Threw(id) => id in w.passed
  }

  function Next(w: World, s: Step, overlap: nat): World
    requires Enabled(w, s, overlap)
  {
    match s
    case LookedUp(id, report) => if Found(w.rows, report) then w else w.(passed := w.passed[id := report])
    case Inserted(id, at) =>
      var p := w.passed[id];
      World(w.rows + [BounceRow(p.wallet, p.kind, p.msg, at)], w.passed - {id})
    case Threw(id) => w.(passed := w.passed - {id})
  }

  ghost predicate IsRun(worlds: seq<World>, steps: seq<Step>, overlap: nat) {
    && |worlds| == |steps| + 1 && worlds[0] == START
    && forall i | 0 <= i < |steps| ::
      Enabled(worlds[i], steps[i], overlap) && worlds[i + 1] == Next(worlds[i], steps[i], overlap)
  }

  predicate Same(kind: Kind, complaint: bool) {
    kind == Complaint <==> complaint
  }

  /** The message's rows that are complaints, or those that are not. */
  function RowsOf(rows: seq<BounceRow>, msg: Msg, complaint: bool): nat {
    if rows == [] then 0
    else
      var last := rows[|rows| - 1];
      RowsOf(rows[..|rows| - 1], msg, complaint) + if last.msg == msg && Same(last.kind, complaint) then 1 else 0
  }

  function PassedOf(passed: map<Report, Passed>, msg: Msg, complaint: bool): set<Report> {
    set id | id in passed && passed[id].msg == msg && Same(passed[id].kind, complaint)
  }

  // ------------------------------------------------------------------ the bound

  lemma {:induction false} NoRowsCounted(rows: seq<BounceRow>, msg: Msg)
    ensures !HasRow(rows, msg) ==> RowsOf(rows, msg, false) == 0
    ensures !HasComplaint(rows, msg) <==> RowsOf(rows, msg, true) == 0
  {
    if rows != [] {
      var init, last := rows[..|rows| - 1], rows[|rows| - 1];
      NoRowsCounted(init, msg);
      assert rows == init + [last];
      AppendedRow(init, last, msg);
    }
  }

  ghost predicate Bounded(w: World, msg: Msg, complaint: bool, overlap: nat) {
    RowsOf(w.rows, msg, complaint) + |PassedOf(w.passed, msg, complaint)| <= overlap
  }

  lemma LookupKeepsBound(w: World, s: Step, msg: Msg, complaint: bool, overlap: nat)
    requires s.LookedUp? && Enabled(w, s, overlap) && Bounded(w, msg, complaint, overlap)
    ensures Bounded(Next(w, s, overlap), msg, complaint, overlap)
  {
    var v := Next(w, s, overlap);
    if !Found(w.rows, s.report) && s.report.msg == msg && Same(s.report.kind, complaint) {
      NoRowsCounted(w.rows, msg);
      assert PassedOf(v.passed, msg, complaint) <= v.passed.Keys == w.passed.Keys + {s.id};
      SubsetCardinality(PassedOf(v.passed, msg, complaint), v.passed.Keys);
    } else {
      assert PassedOf(v.passed, msg, complaint) == PassedOf(w.passed, msg, complaint);
    }
  }

  lemma LeavingKeepsBound(w: World, s: Step, msg: Msg, complaint: bool, overlap: nat)
    requires !s.LookedUp? && Enabled(w, s, overlap) && Bounded(w, msg, complaint, overlap)
    ensures Bounded(Next(w, s, overlap), msg, complaint, overlap)
  {
    OneLeaves(w.passed, s.id, msg, complaint);
    if s.Inserted? {
      var p := w.passed[s.id];
      RowAdded(w.rows, BounceRow(p.wallet, p.kind, p.msg, s.at), msg, complaint);
    }
    hide PassedOf, RowsOf;
  }

  lemma OneLeaves(passed: map<Report, Passed>, id: Report, msg: Msg, complaint: bool)
    requires id in passed
    ensures |PassedOf(passed - {id}, msg, complaint)| ==
      |PassedOf(passed, msg, complaint)| - if passed[id].msg == msg && Same(passed[id].kind, complaint) then 1 else 0
  {
    hide Same;
    assert PassedOf(passed - {id}, msg, complaint) == PassedOf(passed, msg, complaint) - {id};
  }

  lemma RowAdded(rows: seq<BounceRow>, row: BounceRow, msg: Msg, complaint: bool)
    ensures RowsOf(rows + [row], msg, complaint) ==
      RowsOf(rows, msg, complaint) + if row.msg == msg && Same(row.kind, complaint) then 1 else 0
  {
    assert (rows + [row])[..|rows|] == rows;
  }

  /**
   * With at most k reports between their check and their insert, a message gets at most k bounce rows and at most k
   * complaint rows. One report at a time is the case k = 1.
   */
  lemma {:induction false} AtMostOverlapRows(worlds: seq<World>, steps: seq<Step>, overlap: nat, n: nat, msg: Msg,
      complaint: bool)
    requires IsRun(worlds, steps, overlap) && n <= |steps|
    ensures RowsOf(worlds[n].rows, msg, complaint) + |PassedOf(worlds[n].passed, msg, complaint)| <= overlap
    decreases n
  {
    if n == 0 {
      assert PassedOf(START.passed, msg, complaint) == {};
    } else {
      AtMostOverlapRows(worlds, steps, overlap, n - 1, msg, complaint);
      var w, s := worlds[n - 1], steps[n - 1];
      assert Enabled(w, s, overlap) && worlds[n] == Next(w, s, overlap);
      hide IsRun, Enabled, Next;
      if s.LookedUp? {
        LookupKeepsBound(w, s, msg, complaint, overlap);
      } else {
        LeavingKeepsBound(w, s, msg, complaint, overlap);
      }
    }
  }

  // ------------------------------------------------------------------ exactly when a report is recorded twice

  /** Step j inserts a row that the check of `report` looks for. */
  predicate Rivals(w: World, s: Step, report: Passed) {
    && s.Inserted? && s.id in w.passed && w.passed[s.id].msg == report.msg
    && (report.kind == Complaint ==> w.passed[s.id].kind == Complaint)
  }

  lemma StepFinds(w: World, s: Step, overlap: nat, report: Passed)
    requires Enabled(w, s, overlap)
    ensures Found(Next(w, s, overlap).rows, report) <==> Found(w.rows, report) || Rivals(w, s, report)
  {
    if s.Inserted? {
      var p := w.passed[s.id];
      AppendedRow(w.rows, BounceRow(p.wallet, p.kind, p.msg, s.at), report.msg);
    }
  }

  lemma {:induction false} FoundSince(worlds: seq<World>, steps: seq<Step>, overlap: nat, m: nat, n: nat,
      report: Passed)
    requires IsRun(worlds, steps, overlap) && m <= n <= |steps|
    requires !Found(worlds[m].rows, report)
    ensures Found(worlds[n].rows, report) <==> exists j | m <= j < n :: Rivals(worlds[j], steps[j], report)
    decreases n
  {
    hide Found, Rivals, Next, Enabled;
    if m < n {
      FoundSince(worlds, steps, overlap, m, n - 1, report);
      StepOfRun(worlds, steps, overlap, n - 1);
      StepFinds(worlds[n - 1], steps[n - 1], overlap, report);
      hide IsRun;
    }
  }

  lemma StepOfRun(worlds: seq<World>, steps: seq<Step>, overlap: nat, n: nat)
    requires IsRun(worlds, steps, overlap) && n < |steps|
    ensures Enabled(worlds[n], steps[n], overlap) && worlds[n + 1] == Next(worlds[n], steps[n], overlap)
  {
  }

  predicate Leaves(s: Step, id: Report) {
    !s.LookedUp? && s.id == id
  }

  lemma {:induction false} StaysPassed(worlds: seq<World>, steps: seq<Step>, overlap: nat, m: nat, n: nat, id: Report)
    requires IsRun(worlds, steps, overlap) && m <= n <= |steps| && id in worlds[m].passed
    requires forall j | m <= j < n :: !Leaves(steps[j], id)
    ensures id in worlds[n].passed && worlds[n].passed[id] == worlds[m].passed[id]
    decreases n
  {
    if m < n {
      StaysPassed(worlds, steps, overlap, m, n - 1, id);
      StepOfRun(worlds, steps, overlap, n - 1);
      hide Found, IsRun;
    }
  }

  /**
   * A report whose check at step m found nothing is inserted at step n. It becomes a second row, one that its own check
   * would have kept out, if and only if another report for the message was inserted in between.
   */
  lemma RecordedAgainIff(
    worlds: seq<World>, steps: seq<Step>, overlap: nat, m: nat, n: nat, id: Report, report: Passed, at: Time)
    requires IsRun(worlds, steps, overlap) && m < n < |steps|
    requires steps[m] == LookedUp(id, report) && !Found(worlds[m].rows, report) && steps[n] == Inserted(id, at)
    requires forall j | m < j < n :: !Leaves(steps[j], id)
    ensures worlds[n + 1].rows == worlds[n].rows + [BounceRow(report.wallet, report.kind, report.msg, at)]
    ensures Found(worlds[n].rows, report) <==> exists j | m < j < n :: Rivals(worlds[j], steps[j], report)
  {
    StepOfRun(worlds, steps, overlap, m);
    StepOfRun(worlds, steps, overlap, n);
    hide IsRun, Found, Rivals;
    StaysPassed(worlds, steps, overlap, m + 1, n, id);
    FoundSince(worlds, steps, overlap, m + 1, n, report);
  }

  // ------------------------------------------------------------------ the bound is reached

  ghost predicate Arrives(worlds: seq<World>, steps: seq<Step>, overlap: nat, w: World) {
    IsRun(worlds, steps, overlap) && worlds[|steps|] == w
  }

  lemma Go(worlds: seq<World>, steps: seq<Step>, overlap: nat, w: World, s: Step)
      returns (worlds': seq<World>, steps': seq<Step>)
    requires Arrives(worlds, steps, overlap, w) && Enabled(w, s, overlap)
    ensures Arrives(worlds', steps', overlap, Next(w, s, overlap))
  {
    hide Enabled, Next;
    worlds', steps' := worlds + [Next(w, s, overlap)], steps + [s];
    forall i | 0 <= i < |steps'|
      ensures Enabled(worlds'[i], steps'[i], overlap) && worlds'[i + 1] == Next(worlds'[i], steps'[i], overlap)
    {
      assert i < |steps| ==> worlds'[i] == worlds[i] && steps'[i] == steps[i] && worlds'[i + 1] == worlds[i + 1];
    }
  }

  function Waiting(lo: nat, hi: nat, report: Passed): map<Report, Passed> {
    map id | id in Ids(lo, hi) :: report
  }

  function Copies(n: nat, row: BounceRow): seq<BounceRow> {
    seq(n, _ => row)
  }

  lemma WaitingCount(n: nat, report: Passed)
    ensures |Waiting(0, n, report)| == n && n !in Waiting(0, n, report)
    ensures Waiting(0, n + 1, report) == Waiting(0, n, report)[n := report]
  {
    IdsAre(0, n);
    assert Waiting(0, n, report).Keys == Ids(0, n);
  }

  lemma {:induction false} CheckTogether(n: nat, overlap: nat, report: Passed)
      returns (worlds: seq<World>, steps: seq<Step>)
    requires n <= overlap
    ensures Arrives(worlds, steps, overlap, World([], Waiting(0, n, report)))
    decreases n
  {
    if n == 0 {
      worlds, steps := [START], [];
      assert Waiting(0, 0, report) == map[];
    } else {
      worlds, steps := CheckTogether(n - 1, overlap, report);
      WaitingCount(n - 1, report);
      var w := World([], Waiting(0, n - 1, report));
      hide Arrives, Waiting;
      worlds, steps := Go(worlds, steps, overlap, w, LookedUp(n - 1, report));
    }
  }

  lemma {:induction false} InsertTogether(n: nat, overlap: nat, report: Passed, at: Time)
    returns (worlds: seq<World>, steps: seq<Step>)
    requires n <= overlap
    ensures Arrives(worlds, steps, overlap,
      World(Copies(n, BounceRow(report.wallet, report.kind, report.msg, at)), Waiting(n, overlap, report)))
    decreases n
  {
    var row := BounceRow(report.wallet, report.kind, report.msg, at);
    if n == 0 {
      worlds, steps := CheckTogether(overlap, overlap, report);
      assert Copies(0, row) == [];
    } else {
      worlds, steps := InsertTogether(n - 1, overlap, report, at);
      var w := World(Copies(n - 1, row), Waiting(n - 1, overlap, report));
      assert Copies(n, row) == Copies(n - 1, row) + [row];
      IdsFront(n, overlap);
      assert Waiting(n - 1, overlap, report) - {n - 1} == Waiting(n, overlap, report);
      hide Arrives, Waiting, Copies;
      worlds, steps := Go(worlds, steps, overlap, w, Inserted(n - 1, at));
    }
  }

  lemma {:induction false} CopiesCount(n: nat, row: BounceRow, cutoff: Time)
    ensures RowsOf(Copies(n, row), row.msg, row.kind == Complaint) == n
    ensures CountSofts(Copies(n, row), row.wallet, cutoff)
      == if row.kind == Soft && row.bouncedAt > cutoff then n else 0
    decreases n
  {
    if n > 0 {
      CopiesCount(n - 1, row, cutoff);
      assert Copies(n, row)[..n - 1] == Copies(n - 1, row);
    }
  }

  /**
   * For every k some run has k rows of one kind for one message. If the kind is soft, the streak query takes the one
   * bounce for k; from three reports on, it suppresses the wallet.
   */
  lemma OverlapHappens(overlap: nat, report: Passed, at: Time, cutoff: Time)
      returns (worlds: seq<World>, steps: seq<Step>)
    requires cutoff < at
    ensures IsRun(worlds, steps, overlap)
    ensures var rows := worlds[|steps|].rows;
      && RowsOf(rows, report.msg, report.kind == Complaint) == overlap
      && (report.kind == Soft ==> CountSofts(rows, report.wallet, cutoff) == overlap)
  {
    worlds, steps := InsertTogether(overlap, overlap, report, at);
    CopiesCount(overlap, BounceRow(report.wallet, report.kind, report.msg, at), cutoff);
  }
}
