/** The year-by-year schedule of one asset (engines/asset_lifecycle.go). */
module AssetSchedule {
  import opened Assets

  datatype YearLine = YearLine(year: int, first: int, last: int, opening: int, depreciation: int, closing: int,
                               posted: int, toCome: int, monthsPosted: int)

  /** What the ledger holds for the plan's months first..last, and for how many of them. */
  function PostedIn(posted: map<int, int>, p: Plan, first: int, last: int): int
    decreases last - first + 1
  {
    if last < first then 0
    else PostedIn(posted, p, first, last - 1) + (if p.Month(last) in posted then posted[p.Month(last)] else 0)
  }

  function CountIn(posted: map<int, int>, p: Plan, first: int, last: int): int
    decreases last - first + 1
  {
    if last < first then 0 else CountIn(posted, p, first, last - 1) + (if p.Month(last) in posted then 1 else 0)
  }

  function LastMonth(p: Plan, year: int): int { if year * 12 > p.months then p.months else year * 12 }

  /** Line k covers year k + 1 of the asset's life and says what the plan and the ledger say about it. */
  ghost predicate YearOk(p: Plan, posted: map<int, int>, disposed: bool, lines: seq<YearLine>, k: int)
    requires p.Valid() && 0 <= k < |lines|
  {
    var l := lines[k];
    && l.year == k + 1 && l.first == 12 * k + 1 && l.last == LastMonth(p, k + 1)
    && l.opening == p.costPaise - p.Total(12 * k) && l.depreciation == p.Total(l.last) - p.Total(12 * k)
    && l.closing == l.opening - l.depreciation
    && l.posted == PostedIn(posted, p, l.first, l.last) && l.monthsPosted == CountIn(posted, p, l.first, l.last)
    && l.toCome == (if disposed then 0 else l.depreciation - l.posted)
  }

  method YearTotals(p: Plan, posted: map<int, int>, first: int, last: int) returns (dep: int, done: int, count: int)
    requires p.Valid() && 1 <= first <= last + 1
    ensures dep == p.Total(last) - p.Total(first - 1)
    ensures done == PostedIn(posted, p, first, last) && count == CountIn(posted, p, first, last)
  {
    dep, done, count := 0, 0, 0;
    for i := first to last + 1
      invariant dep == p.Total(i - 1) - p.Total(first - 1)
      invariant done == PostedIn(posted, p, first, i - 1) && count == CountIn(posted, p, first, i - 1)
    {
      dep := dep + p.Amount(i);
      if p.Month(i) in posted {
        done, count := done + posted[p.Month(i)], count + 1;
      }
    }
  }

  method BuildSchedule(p: Plan, posted: map<int, int>, disposed: bool) returns (lines: seq<YearLine>)
    requires p.Valid()
    ensures |lines| == (p.months + 11) / 12
    ensures forall k :: 0 <= k < |lines| ==> YearOk(p, posted, disposed, lines, k)
  {
    lines := [];
    var opening, y := p.costPaise, 1;
    while (y - 1) * 12 < p.months
      invariant 1 <= y <= (p.months + 11) / 12 + 1 && |lines| == y - 1
      invariant opening == p.costPaise - p.Total(LastMonth(p, y - 1))
      invariant forall k :: 0 <= k < |lines| ==> YearOk(p, posted, disposed, lines, k)
    {
      var first, last := (y - 1) * 12 + 1, y * 12;
      if last > p.months { last := p.months; }
      var dep, done, count := YearTotals(p, posted, first, last);
      var toCome := dep - done;
      if disposed { toCome := 0; }
      ghost var before := lines;
      lines := lines + [YearLine(y, first, last, opening, dep, opening - dep, done, toCome, count)];
      assert forall k :: 0 <= k < |before| ==> lines[k] == before[k] && YearOk(p, posted, disposed, before, k);
      opening := opening - dep;
      y := y + 1;
    }
  }

  function SumDepreciation(lines: seq<YearLine>): int
  {
    if lines == [] then 0 else SumDepreciation(lines[..|lines| - 1]) + lines[|lines| - 1].depreciation
  }

  ghost predicate IsSchedule(p: Plan, posted: map<int, int>, disposed: bool, lines: seq<YearLine>)
  {
    p.Valid() && |lines| == (p.months + 11) / 12
    && forall k :: 0 <= k < |lines| ==> YearOk(p, posted, disposed, lines, k)
  }

  /**
    The years partition the plan: every month 1..months is in exactly one year, each closing is the
    next opening, the first opens at cost, the last closes at zero and the charges sum to the cost.
   */
  lemma SchedulePartitionsThePlan(p: Plan, posted: map<int, int>, disposed: bool, lines: seq<YearLine>)
    requires IsSchedule(p, posted, disposed, lines)
    ensures lines != [] && lines[0].first == 1 && lines[0].opening == p.costPaise
    ensures lines[|lines| - 1].last == p.months && lines[|lines| - 1].closing == 0
    ensures forall k :: 0 <= k < |lines| - 1 ==>
      lines[k + 1].first == lines[k].last + 1 && lines[k + 1].opening == lines[k].closing
    ensures SumDepreciation(lines) == p.costPaise
    ensures !disposed ==> forall k :: 0 <= k < |lines| ==> lines[k].posted + lines[k].toCome == lines[k].depreciation
  {
    var n := |lines|;
    assert YearOk(p, posted, disposed, lines, 0) && YearOk(p, posted, disposed, lines, n - 1);
    PlanChargesCostExactly(p);
    forall k | 0 <= k < n - 1
      ensures lines[k + 1].first == lines[k].last + 1 && lines[k + 1].opening == lines[k].closing
    {
      assert YearOk(p, posted, disposed, lines, k) && YearOk(p, posted, disposed, lines, k + 1);
    }
    forall k | 0 <= k < n && !disposed ensures lines[k].posted + lines[k].toCome == lines[k].depreciation {
      assert YearOk(p, posted, disposed, lines, k);
    }
    SumsToTotal(p, posted, disposed, lines, n);
    assert lines[..n] == lines;
  }

  lemma {:induction false} SumsToTotal(p: Plan, posted: map<int, int>, disposed: bool, lines: seq<YearLine>, n: nat)
    requires IsSchedule(p, posted, disposed, lines) && n <= |lines|
    ensures SumDepreciation(lines[..n]) == p.Total(LastMonth(p, n))
  {
    if n > 0 {
      SumsToTotal(p, posted, disposed, lines, n - 1);
      assert lines[..n][..n - 1] == lines[..n - 1];
      assert YearOk(p, posted, disposed, lines, n - 1);
    }
  }
}
