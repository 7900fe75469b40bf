/** Accounting periods never overlap, so a date is in at most one (engines/accounting_periods.go). */
module AccountingPeriods {
  import opened Assets

  predicate Overlaps(p: Period, start: int, end: int) { p.start <= end && p.end >= start }

  predicate Free(periods: seq<Period>, start: int, end: int)
  {
    forall i :: 0 <= i < |periods| ==> !Overlaps(periods[i], start, end)
  }

  /** Every period is a real range and no two share a date. */
  ghost predicate Disjoint(periods: seq<Period>)
  {
    && (forall i :: 0 <= i < |periods| ==> periods[i].start <= periods[i].end)
    && (forall i, j :: 0 <= i < j < |periods| ==> !Overlaps(periods[i], periods[j].start, periods[j].end))
  }

  predicate Holds(p: Period, date: int) { p.start <= date <= p.end }

  /** Disjoint is exactly what makes "the period of this date" unambiguous. */
  lemma DisjointMeansOnePeriodPerDate(periods: seq<Period>)
    requires forall i :: 0 <= i < |periods| ==> periods[i].start <= periods[i].end
    ensures Disjoint(periods) <==>
      forall i, j, d :: 0 <= i < |periods| && 0 <= j < |periods| && Holds(periods[i], d) && Holds(periods[j], d) ==> i == j
  {
    if !Disjoint(periods) {
      var i, j :| 0 <= i < j < |periods| && Overlaps(periods[i], periods[j].start, periods[j].end);
      var d := if periods[i].start >= periods[j].start then periods[i].start else periods[j].start;
      assert Holds(periods[i], d) && Holds(periods[j], d);
    }
  }

  /**
    Check and insert are two statements without a lock: a period inserted late keeps the periods apart exactly when
    its range is free in the table it meets.
   */
  lemma InsertKeepsDisjointExactlyWhenFree(periods: seq<Period>, start: int, end: int)
    requires Disjoint(periods) && start <= end
    ensures Disjoint(periods + [Period(start, end, false)]) <==> Free(periods, start, end)
  {
    var after := periods + [Period(start, end, false)];
    if Disjoint(after) {
      forall i | 0 <= i < |periods| ensures !Overlaps(periods[i], start, end) {
        assert after[i] == periods[i] && after[|periods|] == Period(start, end, false);
      }
    }
  }

  /** Two creations checked against the same empty table, then both inserted. */
  lemma RacingPeriodsOverlap()
    ensures Free([], 1, 10) && Free([], 5, 15) && !Disjoint([Period(1, 10, false), Period(5, 15, false)])
  {
    var both := [Period(1, 10, false), Period(5, 15, false)];
    assert Overlaps(both[0], both[1].start, both[1].end);
  }

  class PeriodBook {
    var periods: seq<Period>

    /** A new open period, refused when swapped or when any existing period, open or closed, shares a date. */
    method CreateAccountingPeriod(start: int, end: int) returns (ok: bool)
      requires Disjoint(periods)
      modifies this
      ensures Disjoint(periods)
      ensures ok <==> start <= end && Free(old(periods), start, end)
      ensures periods == (if ok then old(periods) + [Period(start, end, false)] else old(periods))
    {
      if start > end { return false; }
      for i := 0 to |periods|
        invariant periods == old(periods) && Free(periods[..i], start, end)
      {
        if Overlaps(periods[i], start, end) { return false; }
      }
      assert periods[..|periods|] == periods;
      periods := periods + [Period(start, end, false)];
      ok := true;
    }

    /** Open to Closed once every close task is signed and no till or offline sale is outstanding. */
    method CloseAccountingPeriod(i: nat, tasksSigned: bool, blockers: nat) returns (ok: bool)
      requires i < |periods| && Disjoint(periods)
      modifies this
      ensures Disjoint(periods)
      ensures ok <==> !old(periods)[i].closed && tasksSigned && blockers == 0
      ensures periods == (if ok then old(periods)[i := old(periods)[i].(closed := true)] else old(periods))
    {
      if periods[i].closed || !tasksSigned || blockers > 0 { return false; }
      periods := periods[i := periods[i].(closed := true)];
      ok := true;
    }
  }
}
