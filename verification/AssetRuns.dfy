/** Depreciation runs, disposal and its preview as the engine executes them, and what they promise. */
module AssetRuns {
  import opened Text
  import opened Assets
  import opened AssetLedger

  // ---- a run and its preview -------------------------------------------------------------

  /** Posting months 1..n changes nothing but the ledger, and no key but theirs. */
  lemma {:induction false} PostMonthsFrame(b: Books, id: string, p: Plan, n: nat)
    requires p.Valid() && n <= p.months
    ensures var (t, out) := PostMonths(b, id, p, n);
            && t == b.(ledger := t.ledger)
            && (forall i :: n < i ==> (IsPosted(t.ledger, id, p, i) <==> IsPosted(b.ledger, id, p, i)))
  {
    if n > 0 {
      PostMonthsFrame(b, id, p, n - 1);
      var (before, out) := PostMonths(b, id, p, n - 1);
      var key := DepKey(id, p.Month(n));
      if !Exists(before.ledger, key) && PostMonth(before, id, p, n).1.MonthPosted? {
        RowsShape(MonthLines(p, n), "Asset", id, key);
        forall i | n < i ensures IsPosted(PostMonths(b, id, p, n).0.ledger, id, p, i) <==> IsPosted(b.ledger, id, p, i) {
          ExistsConcat(before.ledger, Rows(MonthLines(p, n), "Asset", id, key), key, DepKey(id, p.Month(i)));
        }
      }
    }
  }

  /** A run posts exactly the months its preview lists, skips exactly those it calls closed, and adds their sum. */
  lemma {:induction false} RunFollowsPreview(b: Books, id: string, p: Plan, n: nat)
    requires p.Valid() && n <= p.months && id in b.assets && b.assets[id].status == Capitalised
    ensures var (t, out) := PostMonths(b, id, p, n);
            && out == PreviewMonths(b, id, p, n).0
            && Accumulated(t, id) == Accumulated(b, id) + PreviewMonths(b, id, p, n).1
  {
    if n > 0 {
      RunFollowsPreview(b, id, p, n - 1);
      PostMonthsFrame(b, id, p, n - 1);
      var (before, out) := PostMonths(b, id, p, n - 1);
      assert IsPosted(before.ledger, id, p, n) <==> IsPosted(b.ledger, id, p, n);
      if !Exists(before.ledger, DepKey(id, p.Month(n))) {
        MonthAccumulates(before, id, p, n);
      }
    }
  }

  lemma MonthAccumulates(b: Books, id: string, p: Plan, i: int)
    requires p.Valid() && id in b.assets && b.assets[id].status == Capitalised && !Exists(b.ledger, DepKey(id, p.Month(i)))
    ensures var (t, r) := PostMonth(b, id, p, i);
            && (r == MonthClosed <==> Refused(b, "Asset", id, MonthEnd(p.Month(i))))
            && (r == MonthPosted <==> !Refused(b, "Asset", id, MonthEnd(p.Month(i))))
            && Accumulated(t, id) == Accumulated(b, id) + (if r == MonthPosted then p.Amount(i) else 0)
  {
    var lines, key := MonthLines(p, i), DepKey(id, p.Month(i));
    assert LinesNet(lines) == 0 by { assert lines[..1][..0] == []; assert LinesNet(lines[..1]) == p.Amount(i); }
    var rows := Rows(lines, "Asset", id, key);
    NetConcat(b.ledger, rows, Accumulation(id));
    MonthRows(p, id, i);
    PairNet(rows, Accumulation(id));
    AmountNonNegative(p, i);
  }

  /**
    With nothing in between, a disposal that goes through posts first exactly the months its preview
    named, and its accumulated depreciation, gain or loss and every line are the preview's.
   */
  lemma PreviewPredictsDisposal(b: Books, id: string, proceeds: int, into: string, fails: set<int>)
    requires Dispose(b, id, proceeds, into, fails).1.Some?
    ensures Preview(b, id, proceeds, into) == Dispose(b, id, proceeds, into, fails).1
  {
    match PlanOf(b.assets[id])
    case None =>
    case Some(p) =>
      var n := p.MonthsDue(MonthOf(b.today));
      StopsAtTheFirstFailure(b, id, p, n, fails);
      RunFollowsPreview(b, id, p, n);
  }

  lemma DisposalBalances(cost: int, accumulated: int, proceeds: int, into: string)
    ensures LinesNet(DisposalLines(cost, accumulated, proceeds, into)) == 0
  {
    var lines := DisposalLines(cost, accumulated, proceeds, into);
    assert lines[..5] == lines && lines[..4][..3] == lines[..3] && lines[..3][..2] == lines[..2] && lines[..2][..1] == lines[..1];
    assert lines[..1][..0] == [];
    assert LinesNet(lines[..1]) == accumulated && LinesNet(lines[..2]) == accumulated + proceeds;
    assert LinesNet(lines[..3]) == accumulated + proceeds + lines[2].debit;
    assert LinesNet(lines[..4]) == accumulated + proceeds + lines[2].debit - cost;
  }

  /** A disposal goes through exactly when its inputs are allowed, the asset is capitalised, its months could be posted, and today is open. */
  lemma DisposesExactlyWhen(b: Books, id: string, proceeds: int, into: string, fails: set<int>)
    ensures Dispose(b, id, proceeds, into, fails).1.Some? <==>
              && 0 <= proceeds && (if into == "" then CASH else into) in b.receipts
              && id in b.assets && b.assets[id].status == Capitalised && Depreciate(b, id, fails).2
              && !Refused(b, "Asset-Disposal", id, b.today)
  {
    if InputsOk(b, proceeds, into) && id in b.assets && b.assets[id].status == Capitalised {
      DepreciateKeepsTables(b, id, fails);
      DisposalBalances(b.assets[id].costPaise, Accumulated(Depreciate(b, id, fails).0, id), proceeds, ReceiptAccount(into));
    }
  }

  // ---- a run that stops ------------------------------------------------------------------------

  /** The first month among the first n that is not posted yet and fails. */
  function FirstFailure(b: Books, id: string, p: Plan, n: nat, fails: set<int>): (k: Option<nat>)
    ensures k.Some? ==> 1 <= k.value <= n && k.value in fails && !IsPosted(b.ledger, id, p, k.value)
    ensures forall i :: 1 <= i <= n && i in fails && !IsPosted(b.ledger, id, p, i) ==> k.Some? && k.value <= i
  {
    if n == 0 then None
    else
      var before := FirstFailure(b, id, p, n - 1, fails);
      if before.None? && n in fails && !IsPosted(b.ledger, id, p, n) then Some(n) else before
  }

  /** A run stops at its first failing month, with everything before it posted as if it had been asked for no more. */
  lemma {:induction false} StopsAtTheFirstFailure(b: Books, id: string, p: Plan, n: nat, fails: set<int>)
    requires p.Valid() && n <= p.months
    ensures match FirstFailure(b, id, p, n, fails)
            case None => PostUntilFailure(b, id, p, n, fails) == (PostMonths(b, id, p, n).0, PostMonths(b, id, p, n).1, true)
            case Some(k) =>
              var (t, out) := PostMonths(b, id, p, k - 1);
              PostUntilFailure(b, id, p, n, fails) == (t, out.(skipped := out.skipped + [p.Month(k)]), false)
  {
    if n > 0 {
      StopsAtTheFirstFailure(b, id, p, n - 1, fails);
      PostMonthsFrame(b, id, p, n - 1);
      assert IsPosted(PostMonths(b, id, p, n - 1).0.ledger, id, p, n) <==> IsPosted(b.ledger, id, p, n);
    }
  }

  /** Running again once the failure is gone leaves the ledger a run without it would have left. */
  lemma RetryCompletesTheRun(b: Books, id: string, p: Plan, n: nat, fails: set<int>)
    requires p.Valid() && n <= p.months && id in b.assets && b.assets[id].status == Capitalised
    ensures PostMonths(PostUntilFailure(b, id, p, n, fails).0, id, p, n).0 == PostMonths(b, id, p, n).0
  {
    StopsAtTheFirstFailure(b, id, p, n, fails);
    match FirstFailure(b, id, p, n, fails)
    case None => RetryStep(b, id, p, n, n);
    case Some(k) => RetryStep(b, id, p, n, k - 1);
  }

  lemma {:induction false} RetryStep(b: Books, id: string, p: Plan, n: nat, k: nat)
    requires p.Valid() && k <= n <= p.months && id in b.assets && b.assets[id].status == Capitalised
    ensures PostMonths(PostMonths(b, id, p, k).0, id, p, n).0 == PostMonths(b, id, p, n).0
    decreases n
  {
    if n == k {
      PostMonthsFrame(b, id, p, k);
      SecondRunAddsNothing(b, id, p, k);
      var t := PostMonths(b, id, p, k).0;
      PostMonthsFrame(t, id, p, k);
    } else {
      RetryStep(b, id, p, n - 1, k);
    }
  }

  // ---- which months ----------------------------------------------------------------------------

  /** Month i of the plan ended before today's month, charges something, and its period takes entries. */
  predicate Chargeable(b: Books, id: string, p: Plan, i: int)
    requires p.Valid()
  {
    p.Month(i) < MonthOf(b.today) && p.Amount(i) > 0 && !Refused(b, "Asset", id, MonthEnd(p.Month(i)))
  }

  /** After a run that ends well, a month is posted exactly when it was before, or it has ended and can be charged. */
  lemma RunPostsWhatHasEnded(b: Books, id: string, p: Plan, fails: set<int>, i: int)
    requires id in b.assets && b.assets[id].status == Capitalised && PlanOf(b.assets[id]) == Some(p) && 1 <= i <= p.months
    requires Depreciate(b, id, fails).2
    ensures IsPosted(Depreciate(b, id, fails).0.ledger, id, p, i) <==> IsPosted(b.ledger, id, p, i) || Chargeable(b, id, p, i)
  {
    var due := p.MonthsDue(MonthOf(b.today));
    StopsAtTheFirstFailure(b, id, p, due, fails);
    if i <= due { RunLeavesOnlyClosed(b, id, p, due); } else { PostMonthsFrame(b, id, p, due); }
  }

  /** Month m is one of the plan's first n and not posted yet. */
  predicate Open(b: Books, id: string, p: Plan, n: nat, m: int)
  {
    var i := m - p.start + 1;
    1 <= i <= n && p.Month(i) == m && !IsPosted(b.ledger, id, p, i)
  }

  lemma {:induction false} PreviewListsMonths(b: Books, id: string, p: Plan, n: nat, m: int)
    requires p.Valid()
    ensures var out := PreviewMonths(b, id, p, n).0;
            && (m in out.posted <==> Open(b, id, p, n, m) && !Refused(b, "Asset", id, MonthEnd(m)))
            && (m in out.skipped <==> Open(b, id, p, n, m) && Refused(b, "Asset", id, MonthEnd(m)))
  {
    if n > 0 { PreviewListsMonths(b, id, p, n - 1, m); }
  }

  /** A preview lists exactly the ended months not posted yet: those whose period is closed as skipped, the others as posted. */
  lemma PreviewListsWhatHasEnded(b: Books, id: string, proceeds: int, into: string, p: Plan, m: int)
    requires Preview(b, id, proceeds, into).Some? && PlanOf(b.assets[id]) == Some(p)
    ensures var out, open := Preview(b, id, proceeds, into).value.months, Open(b, id, p, p.months, m) && m < MonthOf(b.today);
            && (m in out.posted <==> open && !Refused(b, "Asset", id, MonthEnd(m)))
            && (m in out.skipped <==> open && Refused(b, "Asset", id, MonthEnd(m)))
  {
    PreviewListsMonths(b, id, p, p.MonthsDue(MonthOf(b.today)), m);
  }

  // ---- running again ---------------------------------------------------------------------------

  /** Open months among the first n that charge nothing: they leave no row to recognise them by. */
  function ZeroMonths(b: Books, id: string, p: Plan, n: nat): seq<int>
    requires p.Valid()
  {
    if n == 0 then []
    else ZeroMonths(b, id, p, n - 1)
         + (if p.Amount(n) == 0 && !Exists(b.ledger, DepKey(id, p.Month(n)))
               && !Refused(b, "Asset", id, MonthEnd(p.Month(n)))
            then [p.Month(n)] else [])
  }

  /** After a run, a month among its first n is unposted only if its period is closed or it charges nothing. */
  lemma {:induction false} RunLeavesOnlyClosed(b: Books, id: string, p: Plan, n: nat)
    requires p.Valid() && n <= p.months && id in b.assets && b.assets[id].status == Capitalised
    ensures forall i :: 1 <= i <= n ==>
      var t := PostMonths(b, id, p, n).0;
      IsPosted(t.ledger, id, p, i) <==>
        IsPosted(b.ledger, id, p, i) || (p.Amount(i) > 0 && !Refused(b, "Asset", id, MonthEnd(p.Month(i))))
  {
    if n > 0 {
      RunLeavesOnlyClosed(b, id, p, n - 1);
      PostMonthsFrame(b, id, p, n - 1);
      var (before, out) := PostMonths(b, id, p, n - 1);
      var t := PostMonths(b, id, p, n).0;
      assert IsPosted(before.ledger, id, p, n) <==> IsPosted(b.ledger, id, p, n);
      if !Exists(before.ledger, DepKey(id, p.Month(n))) {
        MonthRecorded(before, id, p, n);
      }
    }
  }

  lemma MonthRecorded(b: Books, id: string, p: Plan, n: int)
    requires p.Valid() && id in b.assets && b.assets[id].status == Capitalised && !Exists(b.ledger, DepKey(id, p.Month(n)))
    ensures var t := PostMonth(b, id, p, n).0;
            forall i :: IsPosted(t.ledger, id, p, i) <==>
              IsPosted(b.ledger, id, p, i)
              || (i == n && p.Amount(n) > 0 && !Refused(b, "Asset", id, MonthEnd(p.Month(n))))
  {
    var key, rows := DepKey(id, p.Month(n)), Rows(MonthLines(p, n), "Asset", id, DepKey(id, p.Month(n)));
    MonthAccumulates(b, id, p, n);
    MonthRows(p, id, n);
    AmountNonNegative(p, n);
    forall i ensures Exists(b.ledger + rows, DepKey(id, p.Month(i))) <==>
      Exists(b.ledger, DepKey(id, p.Month(i))) || (i == n && rows != [])
    {
      ExistsConcat(b.ledger, rows, key, DepKey(id, p.Month(i)));
    }
  }

  /**
    Running again at once adds nothing to the ledger; what it reports as posted again is exactly the
    open months that charge nothing, so it reports none exactly when there is no such month.
   */
  lemma SecondRunAddsNothing(b: Books, id: string, p: Plan, n: nat)
    requires p.Valid() && n <= p.months && id in b.assets && b.assets[id].status == Capitalised
    ensures var t := PostMonths(b, id, p, n).0;
            var (u, again) := PostMonths(t, id, p, n);
            u.ledger == t.ledger && again.posted == ZeroMonths(b, id, p, n)
  {
    RunLeavesOnlyClosed(b, id, p, n);
    PostMonthsFrame(b, id, p, n);
    SecondRunStep(b, PostMonths(b, id, p, n).0, id, p, n, n);
  }

  lemma {:induction false} SecondRunStep(b: Books, t: Books, id: string, p: Plan, n: nat, k: nat)
    requires p.Valid() && k <= n <= p.months && id in t.assets && t.assets[id].status == Capitalised
    requires t == b.(ledger := t.ledger)
    requires forall i :: 1 <= i <= n ==>
      (IsPosted(t.ledger, id, p, i) <==>
         IsPosted(b.ledger, id, p, i) || (p.Amount(i) > 0 && !Refused(b, "Asset", id, MonthEnd(p.Month(i)))))
    ensures PostMonths(t, id, p, k).0 == t && PostMonths(t, id, p, k).1.posted == ZeroMonths(b, id, p, k)
  {
    if k > 0 {
      SecondRunStep(b, t, id, p, n, k - 1);
      AmountNonNegative(p, k);
      assert IsPosted(t.ledger, id, p, k) <==>
        IsPosted(b.ledger, id, p, k) || (p.Amount(k) > 0 && !Refused(b, "Asset", id, MonthEnd(p.Month(k))));
      if !Exists(t.ledger, DepKey(id, p.Month(k))) {
        MonthAccumulates(t, id, p, k);
        MonthRows(p, id, k);
        assert t.ledger + [] == t.ledger;
      }
    }
  }

  lemma {:induction false} NoZeroMonths(b: Books, id: string, p: Plan, n: nat)
    requires p.Valid() && n <= p.months && p.months <= p.costPaise
    ensures ZeroMonths(b, id, p, n) == []
  {
    if n > 0 {
      NoZeroMonths(b, id, p, n - 1);
      ZeroChargeExactlyWhenCostTooSmall(p, n);
    }
  }

  /** An asset that costs at least a paisa a month is never reported again. */
  lemma DearAssetIsNotReportedAgain(b: Books, id: string, p: Plan, n: nat)
    requires p.Valid() && n <= p.months && id in b.assets && b.assets[id].status == Capitalised
    requires p.months <= p.costPaise
    ensures PostMonths(PostMonths(b, id, p, n).0, id, p, n).1.posted == []
  {
    SecondRunAddsNothing(b, id, p, n);
    NoZeroMonths(b, id, p, n);
  }

  /** Five paise over twelve months, capitalised: the first month charges nothing and is reported by every run. */
  lemma CheapAssetIsReportedAgain()
    ensures var b := Apply(Apply(Books(map[], [], [], {}, 0, {}), EvAdd("a", 5, 1.0, None)), EvCapitalise("a", 1.0));
            var p := Plan(MonthOf(0), 12, 5);
            && "a" in b.assets && PlanOf(b.assets["a"]) == Some(p)
            && var (t, first) := PostMonths(b, "a", p, 1);
               first.posted == [p.Month(1)] && PostMonths(t, "a", p, 1).1.posted == [p.Month(1)]
  {
    var b1 := Apply(Books(map[], [], [], {}, 0, {}), EvAdd("a", 5, 1.0, None));
    TwoLinesNet(Line(FIXED, 5, 0), Line(SUSPENSE, 0, 5));
    var b := Apply(b1, EvCapitalise("a", 1.0));
    var p := Plan(MonthOf(0), 12, 5);
    assert b.assets["a"] == Asset(Capitalised, 5, 1.0, Some(MonthOf(0)));
    assert forall i :: 0 <= i < |b.ledger| ==> b.ledger[i].key == CapitaliseKey("a") by {
      RowsShape([Line(FIXED, 5, 0), Line(SUSPENSE, 0, 5)], "Asset", "a", CapitaliseKey("a"));
    }
    assert !Exists(b.ledger, DepKey("a", p.Month(1)));
    ZeroChargeExactlyWhenCostTooSmall(p, 1);
    SecondRunAddsNothing(b, "a", p, 1);
    MonthAccumulates(b, "a", p, 1);
    assert PostMonths(b, "a", p, 0) == (b, RunOutcome([], []));
    assert ZeroMonths(b, "a", p, 1) == [p.Month(1)];
  }

  // ---- fully depreciated ------------------------------------------------------------------------

  /** Once every month that charges anything is posted, 1410 holds exactly the cost. */
  lemma FullyDepreciated(b: Books, id: string, p: Plan)
    requires id in b.assets && b.assets[id].status == Capitalised && CapitalisedOk(b, id)
    requires PlanOf(b.assets[id]) == Some(p)
    requires forall i :: 1 <= i <= p.months && p.Amount(i) > 0 ==> IsPosted(b.ledger, id, p, i)
    ensures -Net(b.ledger, Account(id, ACCUMULATED)) == b.assets[id].costPaise
  {
    AllPostedTotal(b.ledger, id, p, p.months);
    PlanChargesCostExactly(p);
  }

  lemma {:induction false} AllPostedTotal(ledger: seq<Posting>, id: string, p: Plan, n: nat)
    requires p.Valid() && forall i :: 1 <= i <= n && p.Amount(i) > 0 ==> IsPosted(ledger, id, p, i)
    ensures PostedTotal(ledger, id, p, n) == p.Total(n)
  {
    if n > 0 {
      AllPostedTotal(ledger, id, p, n - 1);
      AmountNonNegative(p, n);
    }
  }

  // ---- the engine ---------------------------------------------------------------------------------

  class AssetStore {
    var assets: map<string, Asset>
    var ledger: seq<Posting>
    var periods: seq<Period>
    var approvals: set<(string, string, int)>
    var today: int
    var receipts: set<string>

    ghost function View(): Books
      reads this
    {
      Books(assets, ledger, periods, approvals, today, receipts)
    }

    method CapitalizeAssetWithLife(id: string, usefulLife: real) returns (ok: bool)
      modifies this`assets, this`ledger
      ensures ok <==> Capitalise(old(View()), id, usefulLife).Some?
      ensures View() == match Capitalise(old(View()), id, usefulLife) case Some(t) => t case None => old(View())
    {
      if id !in assets || assets[id].status != Draft { return false; }
      var a := assets[id];
      if a.costPaise <= 0 { return false; }
      var life := if usefulLife > 0.0 then usefulLife else a.life;
      if life <= 0.0 { return false; }
      var month := if a.capMonth.Some? then a.capMonth else Some(MonthOf(today));
      var posted := PostEntry(Books(assets, ledger, periods, approvals, today, receipts), "Asset", id,
                              [Line(FIXED, a.costPaise, 0), Line(SUSPENSE, 0, a.costPaise)], today, CapitaliseKey(id));
      if !posted.PostOk? { return false; }
      ledger := posted.ledger;
      assets := assets[id := Asset(Capitalised, a.costPaise, life, month)];
      ok := true;
    }

    method PostAssetDepreciationMonth(id: string, p: Plan, i: int) returns (r: MonthResult)
      requires p.Valid()
      modifies this`ledger
      ensures (View(), r) == PostMonth(old(View()), id, p, i)
    {
      if id !in assets || assets[id].status != Capitalised { return MonthNotNeeded; }
      var key := DepKey(id, p.Month(i));
      if Exists(ledger, key) { return MonthNotNeeded; }
      var amount := p.Amount(i);
      var posted := PostEntry(Books(assets, ledger, periods, approvals, today, receipts), "Asset", id,
                              [Line(EXPENSE, amount, 0), Line(ACCUMULATED, 0, amount)], MonthEnd(p.Month(i)), key);
      if !posted.PostOk? { return MonthClosed; }
      ledger := posted.ledger;
      r := MonthPosted;
    }

    /**
      Every ended, unposted month of one asset, in order; a month in a closed period is skipped, any other failure
      (a month in fails) ends the run.
     */
    method DepreciateAsset(id: string, fails: set<int>) returns (out: RunOutcome, ok: bool)
      requires id in assets
      modifies this`ledger
      ensures (View(), out, ok) == Depreciate(old(View()), id, fails)
      ensures ok && assets[id].status == Capitalised && PlanOf(assets[id]).Some? ==>
                var p := PlanOf(assets[id]).value;
                forall i :: 1 <= i <= p.months ==>
                  (IsPosted(ledger, id, p, i) <==> IsPosted(old(ledger), id, p, i) || Chargeable(old(View()), id, p, i))
    {
      ghost var before := View();
      var plan := PlanOf(assets[id]);
      if plan.None? { return RunOutcome([], []), true; }
      var p := plan.value;
      var due := p.MonthsDue(MonthOf(today));
      if before.assets[id].status == Capitalised && Depreciate(before, id, fails).2 {
        forall i | 1 <= i <= p.months
          ensures IsPosted(Depreciate(before, id, fails).0.ledger, id, p, i) <==>
            IsPosted(before.ledger, id, p, i) || Chargeable(before, id, p, i)
        {
          RunPostsWhatHasEnded(before, id, p, fails, i);
        }
      }
      out, ok := RunOutcome([], []), true;
      for i := 1 to due + 1
        invariant ok && (View(), out, ok) == PostUntilFailure(old(View()), id, p, i - 1, fails)
      {
        if !Exists(ledger, DepKey(id, p.Month(i))) {
          if i in fails {
            FailureStays(old(View()), id, p, i, due, fails);
            return out.(skipped := out.skipped + [p.Month(i)]), false;
          }
          var r := PostAssetDepreciationMonth(id, p, i);
          match r
          case MonthPosted => out := out.(posted := out.posted + [p.Month(i)]);
          case MonthNotNeeded =>
          case MonthClosed => out := out.(skipped := out.skipped + [p.Month(i)]);
        }
      }
    }

    method DisposeAssetWithProceeds(id: string, proceeds: int, receivedInto: string, fails: set<int>)
      returns (d: Option<Disposal>)
      modifies this`ledger, this`assets
      ensures (View(), d) == Dispose(old(View()), id, proceeds, receivedInto, fails)
    {
      var into := ReceiptAccount(receivedInto);
      if proceeds < 0 || into !in receipts { return None; }
      if id !in assets || assets[id].status != Capitalised { return None; }
      var outcome, depreciated := DepreciateAsset(id, fails);
      DepreciateKeepsTables(old(View()), id, fails);
      if !depreciated { return None; }
      var books := Books(assets, ledger, periods, approvals, today, receipts);
      var accumulated, cost := Accumulated(books, id), assets[id].costPaise;
      var lines := DisposalLines(cost, accumulated, proceeds, into);
      var posted := PostEntry(books, "Asset-Disposal", id, lines, today, DisposeKey(id));
      if !posted.PostOk? { return None; }
      ledger := posted.ledger;
      assets := assets[id := assets[id].(status := Disposed)];
      d := Some(Disposal(outcome, accumulated, DisposalGain(cost, accumulated, proceeds), lines));
    }

    /** What disposing now would post; nothing is posted. */
    method PreviewAssetDisposal(id: string, proceeds: int, receivedInto: string) returns (d: Option<Disposal>)
      ensures d == Preview(View(), id, proceeds, receivedInto)
    {
      var books := Books(assets, ledger, periods, approvals, today, receipts);
      var into := ReceiptAccount(receivedInto);
      if proceeds < 0 || into !in receipts { return None; }
      if id !in assets || assets[id].status != Capitalised { return None; }
      var a := assets[id];
      var out, sum := RunOutcome([], []), 0;
      var plan := PlanOf(a);
      if plan.Some? {
        var p := plan.value;
        var due := p.MonthsDue(MonthOf(today));
        for i := 1 to due + 1
          invariant (out, sum) == PreviewMonths(books, id, p, i - 1)
        {
          if !Exists(ledger, DepKey(id, p.Month(i))) {
            if Refused(books, "Asset", id, MonthEnd(p.Month(i))) {
              out := out.(skipped := out.skipped + [p.Month(i)]);
            } else {
              out, sum := out.(posted := out.posted + [p.Month(i)]), sum + p.Amount(i);
            }
          }
        }
      }
      var accumulated := Accumulated(books, id) + sum;
      d := Some(Disposal(out, accumulated, DisposalGain(a.costPaise, accumulated, proceeds),
                         DisposalLines(a.costPaise, accumulated, proceeds, into)));
    }
  }

  lemma DepreciateKeepsTables(b: Books, id: string, fails: set<int>)
    requires id in b.assets
    ensures var t := Depreciate(b, id, fails).0; t == b.(ledger := t.ledger)
  {
    match PlanOf(b.assets[id])
    case None =>
    case Some(p) => UntilFailureKeepsTables(b, id, p, p.MonthsDue(MonthOf(b.today)), fails);
  }

  lemma {:induction false} UntilFailureKeepsTables(b: Books, id: string, p: Plan, n: nat, fails: set<int>)
    requires p.Valid()
    ensures var t := PostUntilFailure(b, id, p, n, fails).0; t == b.(ledger := t.ledger)
  {
    if n > 0 { UntilFailureKeepsTables(b, id, p, n - 1, fails); }
  }

  /** Once stopped, nothing of the remaining months is done. */
  lemma {:induction false} FailureStays(b: Books, id: string, p: Plan, i: nat, n: nat, fails: set<int>)
    requires p.Valid() && 1 <= i <= n && i in fails
    requires PostUntilFailure(b, id, p, i - 1, fails).2
    requires !Exists(PostUntilFailure(b, id, p, i - 1, fails).0.ledger, DepKey(id, p.Month(i)))
    ensures var (t, out, ok) := PostUntilFailure(b, id, p, i - 1, fails);
            PostUntilFailure(b, id, p, n, fails) == (t, out.(skipped := out.skipped + [p.Month(i)]), false)
    decreases n
  {
    if i < n { FailureStays(b, id, p, i, n - 1, fails); }
  }
}
