/**
  Fixed assets: straight-line plan, monthly depreciation postings and disposal
  (engines/asset_depreciation.go, engines/assets.go, the period rule of engines/accounting_periods.go).
  Money is paise; a month is year * 12 + (month - 1); a date is month * 32 + day.
 */
module Assets {
  import opened Text

  const FIXED := "1400"
  const ACCUMULATED := "1410"
  const EXPENSE := "5310"
  const LOSS := "5300"
  const GAIN := "4300"
  const CASH := "1100"
  const SUSPENSE := "2100"

  // ---- calendar --------------------------------------------------------------------

  predicate LeapYear(year: int) { year % 4 == 0 && (year % 100 != 0 || year % 400 == 0) }

  function DaysIn(month: int): (d: int)
    ensures 28 <= d <= 31
  {
    var m := month % 12 + 1;
    if m == 2 then (if LeapYear(month / 12) then 29 else 28) else if m in {4, 6, 9, 11} then 30 else 31
  }

  function MonthOf(date: int): int { date / 32 }

  function MonthEnd(month: int): (date: int)
    ensures MonthOf(date) == month
  {
    month * 32 + DaysIn(month)
  }

  // ---- the plan ----------------------------------------------------------------------

  /** assetDepPlan: month 1 is `start`. */
  datatype Plan = Plan(start: int, months: int, costPaise: int)
  {
    predicate Valid() { months > 0 && costPaise > 0 }

    function Month(i: int): int { start + i - 1 }

    /** Month i's charge; the last month takes the remainder. */
    function Amount(i: int): int
      requires Valid()
    {
      var per := costPaise / months;
      if i == months then costPaise - per * (months - 1) else per
    }

    /** How many of the plan's months have ended before now's month: exactly those that come before it. */
    function MonthsDue(now: int): (due: nat)
      requires Valid()
      ensures due <= months && forall i :: 1 <= i <= months ==> (i <= due <==> Month(i) < now)
    {
      if now - start < 0 then 0 else if now - start > months then months else now - start
    }

    /** The first n charges. */
    function Total(n: int): int
      requires Valid()
      decreases n
    {
      if n <= 0 then 0 else Total(n - 1) + Amount(n)
    }
  }

  lemma AmountNonNegative(p: Plan, i: int)
    requires p.Valid()
    ensures 0 <= p.Amount(i)
    ensures i == p.months ==> p.costPaise / p.months <= p.Amount(i)
  {
    var per := p.costPaise / p.months;
    assert per * p.months <= p.costPaise;
    assert per * (p.months - 1) == per * p.months - per;
  }

  lemma {:induction false} TotalBelowLast(p: Plan, n: nat)
    requires p.Valid() && n < p.months
    ensures p.Total(n) == p.costPaise / p.months * n
  {
    if n > 0 { TotalBelowLast(p, n - 1); }
  }

  /** The plan charges the cost exactly. */
  lemma PlanChargesCostExactly(p: Plan)
    requires p.Valid()
    ensures p.Total(p.months) == p.costPaise
  {
    TotalBelowLast(p, p.months - 1);
  }

  /** Every month but the last charges the cost divided over the life, to the paisa below; the last what is left. */
  lemma ChargesAreEven(p: Plan, i: int)
    requires p.Valid() && 1 <= i <= p.months
    ensures i < p.months ==> p.Amount(i) * p.months <= p.costPaise < (p.Amount(i) + 1) * p.months
    ensures i == p.months ==> p.Amount(i) == p.costPaise - p.Total(p.months - 1)
  {
    var per := p.costPaise / p.months;
    assert per * p.months <= p.costPaise < per * p.months + p.months;
    assert (per + 1) * p.months == per * p.months + p.months;
    if i == p.months { PlanChargesCostExactly(p); }
  }

  /** A month charges nothing exactly when the cost is smaller than the life in months and it is not the last. */
  lemma ZeroChargeExactlyWhenCostTooSmall(p: Plan, i: int)
    requires p.Valid() && 1 <= i <= p.months
    ensures p.Amount(i) == 0 <==> p.costPaise < p.months && i < p.months
  {
    var per := p.costPaise / p.months;
    assert per * p.months <= p.costPaise < per * p.months + p.months;
    assert per * (p.months - 1) == per * p.months - per;
    assert per * p.months == 0 <==> per == 0;
    assert per >= 1 ==> per * p.months >= p.months;
  }

  // ---- the ledger --------------------------------------------------------------------

  datatype Key = CapitaliseKey(asset: string) | DepKey(asset: string, month: int) | DisposeKey(asset: string)

  datatype Posting = Posting(account: string, debit: int, credit: int, docType: string, docId: string, key: Key)

  datatype Line = Line(account: string, debit: int, credit: int)

  /** What a balance is taken over. */
  datatype View =
    | Account(asset: string, account: string)   // one asset's rows on one account
    | Accumulation(asset: string)               // its 1410 rows of document type Asset, as the runs read them
    | MonthCharge(asset: string, month: int)    // the 1410 rows under one month's key
    | Entry(key: Key)                           // all rows of one journal entry

  predicate Selects(v: View, r: Posting)
  {
    match v
    case Account(asset, account) => r.docId == asset && r.account == account
    case Accumulation(asset) => r.docId == asset && r.account == ACCUMULATED && r.docType == "Asset"
    case MonthCharge(asset, month) =>
      r.docId == asset && r.account == ACCUMULATED && r.docType == "Asset" && r.key == DepKey(asset, month)
    case Entry(key) => r.key == key
  }

  /** Debits less credits. */
  function Net(ledger: seq<Posting>, v: View): int
  {
    if ledger == [] then 0
    else
      var r := ledger[|ledger| - 1];
      Net(ledger[..|ledger| - 1], v) + (if Selects(v, r) then r.debit - r.credit else 0)
  }

  lemma {:induction false} NetConcat(a: seq<Posting>, b: seq<Posting>, v: View)
    ensures Net(a + b, v) == Net(a, v) + Net(b, v)
  {
    if b == [] {
      assert a + b == a;
    } else {
      NetConcat(a, b[..|b| - 1], v);
      assert (a + b)[..|a + b| - 1] == a + b[..|b| - 1];
    }
  }

  function LinesNet(lines: seq<Line>): int
  {
    if lines == [] then 0 else LinesNet(lines[..|lines| - 1]) + lines[|lines| - 1].debit - lines[|lines| - 1].credit
  }

  /** The rows an entry inserts: lines that are not positive are skipped. */
  function Rows(lines: seq<Line>, docType: string, docId: string, key: Key): seq<Posting>
  {
    if lines == [] then []
    else
      var l := lines[|lines| - 1];
      Rows(lines[..|lines| - 1], docType, docId, key)
      + (if l.debit > 0 || l.credit > 0 then [Posting(l.account, l.debit, l.credit, docType, docId, key)] else [])
  }

  predicate Exists(ledger: seq<Posting>, key: Key)
  {
    exists i :: 0 <= i < |ledger| && ledger[i].key == key
  }

  // ---- the books ---------------------------------------------------------------------

  datatype Status = Draft | Capitalised | Disposed

  /** capMonth is the capitalisation month once capitalised (or as entered on the draft). */
  datatype Asset = Asset(status: Status, costPaise: int, life: real, capMonth: Option<int>)

  datatype Period = Period(start: int, end: int, closed: bool)

  datatype Books = Books(assets: map<string, Asset>, ledger: seq<Posting>, periods: seq<Period>,
                         approvals: set<(string, string, int)>, today: int, receipts: set<string>)

  /** math.Round for a non-negative value. */
  function Round(x: real): (n: int)
    ensures x - 0.5 < n as real <= x + 0.5
  {
    (x + 0.5).Floor
  }

  function PlanOf(a: Asset): Option<Plan>
  {
    if a.capMonth.None? then None
    else
      var p := Plan(a.capMonth.value, Round(a.life * 12.0), a.costPaise);
      if p.Valid() then Some(p) else None
  }

  /** rejectIfCurrentPeriodClosed: some closed period holds the date and no approved request lets it through. */
  predicate Refused(b: Books, docType: string, docId: string, date: int)
  {
    && (exists i :: 0 <= i < |b.periods| && b.periods[i].closed && b.periods[i].start <= date <= b.periods[i].end)
    && (docType, docId, date) !in b.approvals
  }

  datatype PostResult = PostOk(ledger: seq<Posting>) | PostClosed | PostUnbalanced

  /** PostDoubleEntryTx: balanced or refused, never into a closed period, once per key. */
  function PostEntry(b: Books, docType: string, docId: string, lines: seq<Line>, date: int, key: Key): PostResult
  {
    if LinesNet(lines) != 0 then PostUnbalanced
    else if Refused(b, docType, docId, date) then PostClosed
    else if Exists(b.ledger, key) then PostOk(b.ledger)
    else PostOk(b.ledger + Rows(lines, docType, docId, key))
  }

  // ---- capitalisation ------------------------------------------------------------------

  /** CapitalizeAssetWithLife; a life of zero or less keeps the asset's own. */
  function Capitalise(b: Books, id: string, life: real): Option<Books>
  {
    if id !in b.assets || b.assets[id].status != Draft || b.assets[id].costPaise <= 0 then None
    else
      var a := b.assets[id];
      var useful := if life > 0.0 then life else a.life;
      var cost := a.costPaise;
      var month := if a.capMonth.Some? then a.capMonth else Some(MonthOf(b.today));
      if useful <= 0.0 then None
      else match PostEntry(b, "Asset", id, [Line(FIXED, cost, 0), Line(SUSPENSE, 0, cost)], b.today, CapitaliseKey(id))
        case PostOk(ledger) =>
          Some(b.(ledger := ledger, assets := b.assets[id := Asset(Capitalised, cost, useful, month)]))
        case _ => None
  }

  // ---- one month ---------------------------------------------------------------------------

  datatype MonthResult = MonthPosted | MonthNotNeeded | MonthClosed

  function MonthLines(p: Plan, i: int): seq<Line>
    requires p.Valid()
  {
    [Line(EXPENSE, p.Amount(i), 0), Line(ACCUMULATED, 0, p.Amount(i))]
  }

  /** postAssetDepreciationMonth, holding the asset's row. */
  function PostMonth(b: Books, id: string, p: Plan, i: int): (Books, MonthResult)
    requires p.Valid()
  {
    var key := DepKey(id, p.Month(i));
    if id !in b.assets || b.assets[id].status != Capitalised || Exists(b.ledger, key) then (b, MonthNotNeeded)
    else match PostEntry(b, "Asset", id, MonthLines(p, i), MonthEnd(p.Month(i)), key)
      case PostOk(ledger) => (b.(ledger := ledger), MonthPosted)
      case _ => (b, MonthClosed)
  }

  /** What one asset's part of a run did. */
  datatype RunOutcome = RunOutcome(posted: seq<int>, skipped: seq<int>)

  /** depreciateAsset over months 1..n, nothing else stepping in between. */
  function PostMonths(b: Books, id: string, p: Plan, n: nat): (Books, RunOutcome)
    requires p.Valid()
    decreases n
  {
    if n == 0 then (b, RunOutcome([], []))
    else
      var (before, out) := PostMonths(b, id, p, n - 1);
      if Exists(before.ledger, DepKey(id, p.Month(n))) then (before, out)
      else
        var (after, result) := PostMonth(before, id, p, n);
        (after, match result
                case MonthPosted => out.(posted := out.posted + [p.Month(n)])
                case MonthNotNeeded => out
                case MonthClosed => out.(skipped := out.skipped + [p.Month(n)]))
  }

  /** The same when posting one of the months in fails goes wrong otherwise than on a closed period: the run stops there. */
  function PostUntilFailure(b: Books, id: string, p: Plan, n: nat, fails: set<int>): (Books, RunOutcome, bool)
    requires p.Valid()
    decreases n
  {
    if n == 0 then (b, RunOutcome([], []), true)
    else
      var (before, out, ok) := PostUntilFailure(b, id, p, n - 1, fails);
      if !ok || Exists(before.ledger, DepKey(id, p.Month(n))) then (before, out, ok)
      else if n in fails then (before, out.(skipped := out.skipped + [p.Month(n)]), false)
      else
        var (after, result) := PostMonth(before, id, p, n);
        (after, match result
                case MonthPosted => out.(posted := out.posted + [p.Month(n)])
                case MonthNotNeeded => out
                case MonthClosed => out.(skipped := out.skipped + [p.Month(n)]), true)
  }

  /** ok is false when the run stopped at a failure. */
  function Depreciate(b: Books, id: string, fails: set<int>): (Books, RunOutcome, bool)
    requires id in b.assets
  {
    match PlanOf(b.assets[id])
    case None => (b, RunOutcome([], []), true)
    case Some(p) => PostUntilFailure(b, id, p, p.MonthsDue(MonthOf(b.today)), fails)
  }

  // ---- disposal --------------------------------------------------------------------------------

  /** assetDisposalEntry, with its gain (positive) or loss (negative). */
  function DisposalGain(cost: int, accumulated: int, proceeds: int): int { proceeds - (cost - accumulated) }

  function DisposalLines(cost: int, accumulated: int, proceeds: int, into: string): seq<Line>
  {
    var gain := DisposalGain(cost, accumulated, proceeds);
    [Line(ACCUMULATED, accumulated, 0), Line(into, proceeds, 0), Line(LOSS, if gain < 0 then -gain else 0, 0),
     Line(FIXED, 0, cost), Line(GAIN, 0, if gain > 0 then gain else 0)]
  }

  function Accumulated(b: Books, id: string): int { -Net(b.ledger, Accumulation(id)) }

  /** The disposal transaction itself. */
  function DisposeTx(b: Books, id: string, proceeds: int, into: string): Option<Books>
  {
    if id !in b.assets || b.assets[id].status != Capitalised then None
    else
      var a := b.assets[id];
      match PostEntry(b, "Asset-Disposal", id, DisposalLines(a.costPaise, Accumulated(b, id), proceeds, into), b.today,
                      DisposeKey(id))
      case PostOk(ledger) => Some(b.(ledger := ledger, assets := b.assets[id := a.(status := Disposed)]))
      case _ => None
  }

  datatype Disposal = Disposal(months: RunOutcome, accumulated: int, gain: int, lines: seq<Line>)

  function ReceiptAccount(into: string): string { if into == "" then CASH else into }

  predicate InputsOk(b: Books, proceeds: int, into: string)
  {
    0 <= proceeds && ReceiptAccount(into) in b.receipts
  }

  /** DisposeAssetWithProceeds: the depreciation due first, unless that fails, then the disposal transaction. */
  function Dispose(b: Books, id: string, proceeds: int, into: string, fails: set<int>): (Books, Option<Disposal>)
  {
    if !InputsOk(b, proceeds, into) || id !in b.assets || b.assets[id].status != Capitalised then (b, None)
    else
      var (mid, out, ok) := Depreciate(b, id, fails);
      if !ok then (mid, None)
      else match DisposeTx(mid, id, proceeds, ReceiptAccount(into))
      case None => (mid, None)
      case Some(after) =>
        var cost, accumulated := b.assets[id].costPaise, Accumulated(mid, id);
        (after, Some(Disposal(out, accumulated, DisposalGain(cost, accumulated, proceeds),
                              DisposalLines(cost, accumulated, proceeds, ReceiptAccount(into)))))
  }

  /** The months PreviewAssetDisposal says would be posted first, with their sum, and those it says are closed. */
  function PreviewMonths(b: Books, id: string, p: Plan, n: nat): (RunOutcome, int)
    requires p.Valid()
    decreases n
  {
    if n == 0 then (RunOutcome([], []), 0)
    else
      var (out, sum) := PreviewMonths(b, id, p, n - 1);
      if Exists(b.ledger, DepKey(id, p.Month(n))) then (out, sum)
      else if Refused(b, "Asset", id, MonthEnd(p.Month(n))) then (out.(skipped := out.skipped + [p.Month(n)]), sum)
      else (out.(posted := out.posted + [p.Month(n)]), sum + p.Amount(n))
  }

  function Preview(b: Books, id: string, proceeds: int, into: string): Option<Disposal>
  {
    if !InputsOk(b, proceeds, into) || id !in b.assets || b.assets[id].status != Capitalised then None
    else
      var a := b.assets[id];
      var (out, sum) := match PlanOf(a)
        case None => (RunOutcome([], []), 0)
        case Some(p) => PreviewMonths(b, id, p, p.MonthsDue(MonthOf(b.today)));
      var accumulated := Accumulated(b, id) + sum;
      Some(Disposal(out, accumulated, DisposalGain(a.costPaise, accumulated, proceeds),
                    DisposalLines(a.costPaise, accumulated, proceeds, ReceiptAccount(into))))
  }
}
