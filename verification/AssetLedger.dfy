/** What every interleaving of depreciation runs, disposals and period changes keeps in the ledger. */
module AssetLedger {
  import opened Text
  import opened Assets

  // ---- the machine -------------------------------------------------------------------

  datatype Event =
    | EvAdd(id: string, costPaise: int, life: real, capMonth: Option<int>)
    | EvCapitalise(id: string, life: real)
    | EvMonth(id: string, i: int)                       // one month of any run, manual or scheduled
    | EvDispose(id: string, proceeds: int, into: string)
    | EvPeriods(periods: seq<Period>)                   // periods created, closed or reopened
    | EvApprove(docType: string, docId: string, date: int)
    | EvAdvance(date: int)
    | EvLateTransfer(id: string)                        // the write of a transfer that read the asset as capitalised

  function Apply(b: Books, e: Event): Books
  {
    match e
    case EvAdd(id, cost, life, month) =>
      if id in b.assets || (exists i :: 0 <= i < |b.ledger| && b.ledger[i].docId == id) then b
      else b.(assets := b.assets[id := Asset(Draft, cost, life, month)])
    case EvCapitalise(id, life) => (match Capitalise(b, id, life) case Some(t) => t case None => b)
    case EvMonth(id, i) =>
      if id !in b.assets || PlanOf(b.assets[id]).None? then b
      else
        var p := PlanOf(b.assets[id]).value;
        if 1 <= i <= p.MonthsDue(MonthOf(b.today)) then PostMonth(b, id, p, i).0 else b
    case EvDispose(id, proceeds, into) =>
      if proceeds < 0 then b else (match DisposeTx(b, id, proceeds, into) case Some(t) => t case None => b)
    case EvPeriods(periods) => b.(periods := periods)
    case EvApprove(docType, docId, date) => b.(approvals := b.approvals + {(docType, docId, date)})
    case EvAdvance(date) => if date < b.today then b else b.(today := date)
    case EvLateTransfer(id) =>
      if id !in b.assets || b.assets[id].status == Draft then b
      else b.(assets := b.assets[id := b.assets[id].(status := Capitalised)])
  }

  function Run(b: Books, events: seq<Event>): Books
    decreases |events|
  {
    if events == [] then b else Run(Apply(b, events[0]), events[1..])
  }

  // ---- what the ledger says about one asset ----------------------------------------------

  function KeyAsset(k: Key): string
  {
    match k case CapitaliseKey(a) => a case DepKey(a, _) => a case DisposeKey(a) => a
  }

  /** Keys and documents name the same asset. */
  ghost predicate KeysOk(ledger: seq<Posting>)
  {
    forall i :: 0 <= i < |ledger| ==> KeyAsset(ledger[i].key) == ledger[i].docId
  }

  ghost predicate EntriesBalance(ledger: seq<Posting>)
  {
    forall k :: Net(ledger, Entry(k)) == 0
  }

  predicate IsPosted(ledger: seq<Posting>, id: string, p: Plan, i: int) { Exists(ledger, DepKey(id, p.Month(i))) }

  /** The charges of the posted months among the first n. */
  function PostedTotal(ledger: seq<Posting>, id: string, p: Plan, n: nat): int
    requires p.Valid()
  {
    if n == 0 then 0
    else PostedTotal(ledger, id, p, n - 1) + (if IsPosted(ledger, id, p, n) then p.Amount(n) else 0)
  }

  /** Each posted month carries its planned charge once, no other month carries anything. */
  ghost predicate MonthsOk(b: Books, id: string, p: Plan)
    requires p.Valid()
  {
    && (forall i :: 1 <= i <= p.months ==>
          -Net(b.ledger, MonthCharge(id, p.Month(i))) == if IsPosted(b.ledger, id, p, i) then p.Amount(i) else 0)
    && (forall m :: Exists(b.ledger, DepKey(id, m)) ==>
          p.start <= m < p.start + p.months && m < MonthOf(b.today))
    && Accumulated(b, id) == PostedTotal(b.ledger, id, p, p.months)
  }

  ghost predicate CapitalisedOk(b: Books, id: string)
    requires id in b.assets
  {
    var a := b.assets[id];
    && a.costPaise > 0
    && Net(b.ledger, Account(id, FIXED)) == a.costPaise
    && Net(b.ledger, Account(id, ACCUMULATED)) == Net(b.ledger, Accumulation(id))
    && !Exists(b.ledger, DisposeKey(id))
    && match PlanOf(a)
       case Some(p) => MonthsOk(b, id, p)
       case None => Accumulated(b, id) == 0 && forall m :: !Exists(b.ledger, DepKey(id, m))
  }

  ghost predicate AssetOk(b: Books, id: string)
    requires id in b.assets
  {
    match b.assets[id].status
    case Draft => forall i :: 0 <= i < |b.ledger| ==> b.ledger[i].docId != id
    case Capitalised => CapitalisedOk(b, id)
    case Disposed => Net(b.ledger, Account(id, FIXED)) == 0 && Net(b.ledger, Account(id, ACCUMULATED)) == 0
  }

  ghost predicate Inv(b: Books)
  {
    KeysOk(b.ledger) && EntriesBalance(b.ledger) && forall id :: id in b.assets ==> AssetOk(b, id)
  }

  // ---- appending one entry -------------------------------------------------------------------

  lemma {:induction false} NoRowsNoNet(ledger: seq<Posting>, v: View)
    requires forall i :: 0 <= i < |ledger| ==> !Selects(v, ledger[i])
    ensures Net(ledger, v) == 0
  {
    if ledger != [] { NoRowsNoNet(ledger[..|ledger| - 1], v); }
  }

  lemma {:induction false} RowsShape(lines: seq<Line>, docType: string, docId: string, key: Key)
    ensures forall i :: 0 <= i < |Rows(lines, docType, docId, key)| ==>
      var r := Rows(lines, docType, docId, key)[i];
      r.docType == docType && r.docId == docId && r.key == key
  {
    if lines != [] { RowsShape(lines[..|lines| - 1], docType, docId, key); }
  }

  /** The lines of an entry on one account, positive ones only, as the insert does. */
  function LinesOn(lines: seq<Line>, account: string): int
  {
    if lines == [] then 0
    else
      var l := lines[|lines| - 1];
      LinesOn(lines[..|lines| - 1], account) + (if l.account == account then l.debit - l.credit else 0)
  }

  ghost predicate OneSided(lines: seq<Line>)
  {
    forall i :: 0 <= i < |lines| ==> lines[i].debit >= 0 && lines[i].credit >= 0
  }

  lemma {:induction false} RowsNetEntry(lines: seq<Line>, docType: string, docId: string, key: Key)
    requires OneSided(lines)
    ensures Net(Rows(lines, docType, docId, key), Entry(key)) == LinesNet(lines)
  {
    if lines != [] {
      RowsNetEntry(lines[..|lines| - 1], docType, docId, key);
      LastRow(lines, docType, docId, key, Entry(key));
    }
  }

  lemma {:induction false} RowsNetAccount(lines: seq<Line>, docType: string, docId: string, key: Key, account: string)
    requires OneSided(lines)
    ensures Net(Rows(lines, docType, docId, key), Account(docId, account)) == LinesOn(lines, account)
  {
    if lines != [] {
      RowsNetAccount(lines[..|lines| - 1], docType, docId, key, account);
      LastRow(lines, docType, docId, key, Account(docId, account));
    }
  }

  lemma LastRow(lines: seq<Line>, docType: string, docId: string, key: Key, v: View)
    requires lines != [] && OneSided(lines)
    ensures var l := lines[|lines| - 1];
            var r := Posting(l.account, l.debit, l.credit, docType, docId, key);
            Net(Rows(lines, docType, docId, key), v)
            == Net(Rows(lines[..|lines| - 1], docType, docId, key), v) + (if Selects(v, r) then l.debit - l.credit else 0)
  {
    var init := Rows(lines[..|lines| - 1], docType, docId, key);
    var l := lines[|lines| - 1];
    var r := Posting(l.account, l.debit, l.credit, docType, docId, key);
    if l.debit > 0 || l.credit > 0 { assert (init + [r])[..|init|] == init; } else { assert init + [] == init; }
  }

  lemma {:induction false} RowsPositive(lines: seq<Line>, docType: string, docId: string, key: Key)
    ensures Rows(lines, docType, docId, key) != [] <==>
      exists i :: 0 <= i < |lines| && (lines[i].debit > 0 || lines[i].credit > 0)
  {
    if lines != [] {
      var init := lines[..|lines| - 1];
      RowsPositive(init, docType, docId, key);
      forall i | 0 <= i < |lines| && (lines[i].debit > 0 || lines[i].credit > 0)
        ensures Rows(lines, docType, docId, key) != []
      {
        if i < |init| { assert init[i] == lines[i]; }
      }
    }
  }

  /** What one entry for document `docId` under a new key changes, and what it leaves alone. */
  lemma EntryAppended(ledger: seq<Posting>, lines: seq<Line>, docType: string, docId: string, key: Key)
    requires KeysOk(ledger) && EntriesBalance(ledger) && KeyAsset(key) == docId && !Exists(ledger, key)
    requires OneSided(lines) && LinesNet(lines) == 0
    ensures var t := ledger + Rows(lines, docType, docId, key);
            && KeysOk(t) && EntriesBalance(t)
            && (forall a :: Net(t, Account(docId, a)) == Net(ledger, Account(docId, a)) + LinesOn(lines, a))
            && (forall k :: k != key ==> (Exists(t, k) <==> Exists(ledger, k)))
            && (Exists(t, key) <==> exists i :: 0 <= i < |lines| && (lines[i].debit > 0 || lines[i].credit > 0))
  {
    var rows := Rows(lines, docType, docId, key);
    var t := ledger + rows;
    RowsShape(lines, docType, docId, key);
    RowsPositive(lines, docType, docId, key);
    forall k ensures Net(t, Entry(k)) == 0 {
      NetConcat(ledger, rows, Entry(k));
      if k == key { RowsNetEntry(lines, docType, docId, key); } else { NoRowsNoNet(rows, Entry(k)); }
    }
    forall a ensures Net(t, Account(docId, a)) == Net(ledger, Account(docId, a)) + LinesOn(lines, a) {
      NetConcat(ledger, rows, Account(docId, a));
      RowsNetAccount(lines, docType, docId, key, a);
    }
    ExistsConcat(ledger, rows, key, key);
    forall k | k != key ensures Exists(t, k) <==> Exists(ledger, k) { ExistsConcat(ledger, rows, key, k); }
  }

  lemma ExistsConcat(ledger: seq<Posting>, rows: seq<Posting>, key: Key, k: Key)
    requires forall i :: 0 <= i < |rows| ==> rows[i].key == key
    ensures Exists(ledger + rows, k) <==> Exists(ledger, k) || (k == key && rows != [])
  {
    var t := ledger + rows;
    assert forall i :: 0 <= i < |ledger| ==> t[i] == ledger[i];
    assert forall i :: 0 <= i < |rows| ==> t[|ledger| + i] == rows[i];
    if Exists(ledger, k) { var i :| 0 <= i < |ledger| && ledger[i].key == k; assert t[i].key == k; }
    if k == key && rows != [] { assert t[|ledger|].key == k; }
    if Exists(t, k) {
      var i :| 0 <= i < |t| && t[i].key == k;
      if i >= |ledger| { assert rows[i - |ledger|].key == k; }
    }
  }

  /** Rows of another document do not touch this asset's part of the ledger. */
  ghost predicate SameFor(b: Books, t: Books, id: string)
  {
    && (forall a :: Net(t.ledger, Account(id, a)) == Net(b.ledger, Account(id, a)))
    && Net(t.ledger, Accumulation(id)) == Net(b.ledger, Accumulation(id))
    && (forall m :: Net(t.ledger, MonthCharge(id, m)) == Net(b.ledger, MonthCharge(id, m)))
    && (forall k :: KeyAsset(k) == id ==> (Exists(t.ledger, k) <==> Exists(b.ledger, k)))
    && ((forall i :: 0 <= i < |b.ledger| ==> b.ledger[i].docId != id) ==>
          forall i :: 0 <= i < |t.ledger| ==> t.ledger[i].docId != id)
  }

  lemma ForeignRows(b: Books, t: Books, rows: seq<Posting>, key: Key, id: string)
    requires t.ledger == b.ledger + rows && KeyAsset(key) != id
    requires forall i :: 0 <= i < |rows| ==> rows[i].docId != id && rows[i].key == key
    ensures SameFor(b, t, id)
  {
    forall a ensures Net(t.ledger, Account(id, a)) == Net(b.ledger, Account(id, a)) {
      ForeignNet(b.ledger, rows, Account(id, a));
    }
    ForeignNet(b.ledger, rows, Accumulation(id));
    forall m ensures Net(t.ledger, MonthCharge(id, m)) == Net(b.ledger, MonthCharge(id, m)) {
      ForeignNet(b.ledger, rows, MonthCharge(id, m));
    }
    forall k | KeyAsset(k) == id ensures Exists(t.ledger, k) <==> Exists(b.ledger, k) {
      ExistsConcat(b.ledger, rows, key, k);
    }
  }

  lemma ForeignNet(ledger: seq<Posting>, rows: seq<Posting>, v: View)
    requires forall i :: 0 <= i < |rows| ==> !Selects(v, rows[i])
    ensures Net(ledger + rows, v) == Net(ledger, v)
  {
    NetConcat(ledger, rows, v);
    NoRowsNoNet(rows, v);
  }

  lemma {:induction false} PostedTotalSame(a: seq<Posting>, b: seq<Posting>, id: string, p: Plan, n: nat)
    requires p.Valid() && forall k :: KeyAsset(k) == id ==> (Exists(a, k) <==> Exists(b, k))
    ensures PostedTotal(a, id, p, n) == PostedTotal(b, id, p, n)
  {
    if n > 0 {
      PostedTotalSame(a, b, id, p, n - 1);
      assert KeyAsset(DepKey(id, p.Month(n))) == id;
    }
  }

  lemma SameForKeepsAsset(b: Books, t: Books, id: string)
    requires id in b.assets && AssetOk(b, id) && SameFor(b, t, id)
    requires id in t.assets && t.assets[id] == b.assets[id] && b.today <= t.today
    ensures AssetOk(t, id)
  {
    var a := b.assets[id];
    if a.status == Capitalised {
      assert forall m :: KeyAsset(DepKey(id, m)) == id;
      assert KeyAsset(DisposeKey(id)) == id;
      match PlanOf(a)
      case Some(p) => PostedTotalSame(b.ledger, t.ledger, id, p, p.months);
      case None =>
    }
  }

  lemma SameLedgerSameFor(b: Books, t: Books, id: string)
    requires t.ledger == b.ledger
    ensures SameFor(b, t, id)
  {
  }

  // ---- the three posting steps ------------------------------------------------------------------

  lemma EntryKeepsOthers(b: Books, t: Books, lines: seq<Line>, docType: string, docId: string, key: Key)
    requires KeyAsset(key) == docId && t.ledger == b.ledger + Rows(lines, docType, docId, key) && b.today <= t.today
    requires forall id :: id in b.assets ==> AssetOk(b, id)
    requires t.assets.Keys == b.assets.Keys && forall id :: id in b.assets && id != docId ==> t.assets[id] == b.assets[id]
    ensures forall id :: id in t.assets && id != docId ==> AssetOk(t, id)
  {
    RowsShape(lines, docType, docId, key);
    forall id | id in t.assets && id != docId ensures AssetOk(t, id) {
      ForeignRows(b, t, Rows(lines, docType, docId, key), key, id);
      SameForKeepsAsset(b, t, id);
    }
  }

  lemma CapitaliseKeepsInv(b: Books, id: string, life: real)
    requires Inv(b)
    ensures Inv(Apply(b, EvCapitalise(id, life)))
  {
    if Capitalise(b, id, life).Some? {
      var t := Capitalise(b, id, life).value;
      var cost := b.assets[id].costPaise;
      var lines := [Line(FIXED, cost, 0), Line(SUSPENSE, 0, cost)];
      NoKeysOnDraft(b, id);
      EntryAppended(b.ledger, lines, "Asset", id, CapitaliseKey(id));
      EntryKeepsOthers(b, t, lines, "Asset", id, CapitaliseKey(id));
      CapitalisedFresh(b, t, id, lines);
    }
  }

  lemma NoKeysOnDraft(b: Books, id: string)
    requires KeysOk(b.ledger) && forall i :: 0 <= i < |b.ledger| ==> b.ledger[i].docId != id
    ensures forall k :: KeyAsset(k) == id ==> !Exists(b.ledger, k)
    ensures forall a :: Net(b.ledger, Account(id, a)) == 0
    ensures Net(b.ledger, Accumulation(id)) == 0
    ensures forall m :: Net(b.ledger, MonthCharge(id, m)) == 0
  {
    forall a ensures Net(b.ledger, Account(id, a)) == 0 { NoRowsNoNet(b.ledger, Account(id, a)); }
    NoRowsNoNet(b.ledger, Accumulation(id));
    forall m ensures Net(b.ledger, MonthCharge(id, m)) == 0 { NoRowsNoNet(b.ledger, MonthCharge(id, m)); }
  }

  lemma CapitalisedFresh(b: Books, t: Books, id: string, lines: seq<Line>)
    requires KeysOk(b.ledger) && forall i :: 0 <= i < |b.ledger| ==> b.ledger[i].docId != id
    requires id in t.assets && t.assets[id].status == Capitalised && t.assets[id].costPaise > 0
    requires lines == [Line(FIXED, t.assets[id].costPaise, 0), Line(SUSPENSE, 0, t.assets[id].costPaise)]
    requires t.ledger == b.ledger + Rows(lines, "Asset", id, CapitaliseKey(id))
    requires forall a :: Net(t.ledger, Account(id, a)) == Net(b.ledger, Account(id, a)) + LinesOn(lines, a)
    requires forall k :: k != CapitaliseKey(id) ==> (Exists(t.ledger, k) <==> Exists(b.ledger, k))
    ensures AssetOk(t, id)
  {
    NoKeysOnDraft(b, id);
    TwoLinesOn(lines, FIXED);
    TwoLinesOn(lines, ACCUMULATED);
    var rows := Rows(lines, "Asset", id, CapitaliseKey(id));
    TwoRows(lines, "Asset", id, CapitaliseKey(id));
    ForeignNet(b.ledger, rows, Accumulation(id));
    forall m ensures Net(t.ledger, MonthCharge(id, m)) == 0 && !Exists(t.ledger, DepKey(id, m)) {
      ForeignNet(b.ledger, rows, MonthCharge(id, m));
      assert KeyAsset(DepKey(id, m)) == id;
    }
    assert KeyAsset(DisposeKey(id)) == id;
    match PlanOf(t.assets[id])
    case Some(p) => NothingPostedTotal(t.ledger, id, p, p.months);
    case None =>
  }

  lemma {:induction false} NothingPostedTotal(ledger: seq<Posting>, id: string, p: Plan, n: nat)
    requires p.Valid() && forall m :: !Exists(ledger, DepKey(id, m))
    ensures PostedTotal(ledger, id, p, n) == 0
  {
    if n > 0 { NothingPostedTotal(ledger, id, p, n - 1); }
  }

  lemma TwoLinesOn(lines: seq<Line>, account: string)
    requires |lines| == 2
    ensures LinesOn(lines, account) == (if lines[0].account == account then lines[0].debit - lines[0].credit else 0)
                                       + (if lines[1].account == account then lines[1].debit - lines[1].credit else 0)
  {
    assert lines[..1][..0] == [];
    assert LinesOn(lines[..1], account) == (if lines[0].account == account then lines[0].debit - lines[0].credit else 0);
  }

  lemma TwoRows(lines: seq<Line>, docType: string, docId: string, key: Key)
    requires |lines| == 2 && forall i :: 0 <= i < 2 ==> lines[i].debit > 0 || lines[i].credit > 0
    ensures Rows(lines, docType, docId, key)
            == [Posting(lines[0].account, lines[0].debit, lines[0].credit, docType, docId, key),
                Posting(lines[1].account, lines[1].debit, lines[1].credit, docType, docId, key)]
  {
    assert lines[..1][..0] == [];
    assert Rows(lines[..1], docType, docId, key)
           == [Posting(lines[0].account, lines[0].debit, lines[0].credit, docType, docId, key)];
  }

  /** The two rows of a month's charge, or none when it charges nothing. */
  lemma MonthRows(p: Plan, id: string, i: int)
    requires p.Valid()
    ensures var key, c := DepKey(id, p.Month(i)), p.Amount(i);
            Rows(MonthLines(p, i), "Asset", id, key)
            == (if c > 0 then [Posting(EXPENSE, c, 0, "Asset", id, key), Posting(ACCUMULATED, 0, c, "Asset", id, key)]
                else [])
  {
    AmountNonNegative(p, i);
    var lines := MonthLines(p, i);
    if p.Amount(i) > 0 { TwoRows(lines, "Asset", id, DepKey(id, p.Month(i))); }
    else { RowsPositive(lines, "Asset", id, DepKey(id, p.Month(i))); }
  }

  /** What posting month i does to this asset's part of the ledger. */
  lemma MonthEffect(b: Books, id: string, p: Plan, i: int)
    requires p.Valid() && KeysOk(b.ledger) && EntriesBalance(b.ledger) && !Exists(b.ledger, DepKey(id, p.Month(i)))
    ensures var key, c := DepKey(id, p.Month(i)), p.Amount(i);
            var t := b.ledger + Rows(MonthLines(p, i), "Asset", id, key);
            && KeysOk(t) && EntriesBalance(t)
            && (forall a :: a != EXPENSE && a != ACCUMULATED ==> Net(t, Account(id, a)) == Net(b.ledger, Account(id, a)))
            && Net(t, Account(id, ACCUMULATED)) == Net(b.ledger, Account(id, ACCUMULATED)) - c
            && Net(t, Accumulation(id)) == Net(b.ledger, Accumulation(id)) - c
            && (forall m :: Net(t, MonthCharge(id, m))
                            == Net(b.ledger, MonthCharge(id, m)) - (if m == p.Month(i) then c else 0))
            && (forall k :: k != key ==> (Exists(t, k) <==> Exists(b.ledger, k)))
            && (Exists(t, key) <==> c > 0)
  {
    MonthOnAccounts(b, id, p, i);
    MonthInViews(b.ledger, id, p, i);
  }

  lemma TwoLinesNet(x: Line, y: Line)
    ensures LinesNet([x, y]) == x.debit - x.credit + y.debit - y.credit
  {
    var lines := [x, y];
    assert lines[..1] == [x] && lines[..1][..0] == [];
    assert LinesNet(lines[..1]) == x.debit - x.credit;
  }

  lemma MonthOnAccounts(b: Books, id: string, p: Plan, i: int)
    requires p.Valid() && KeysOk(b.ledger) && EntriesBalance(b.ledger) && !Exists(b.ledger, DepKey(id, p.Month(i)))
    ensures var key, c := DepKey(id, p.Month(i)), p.Amount(i);
            var t := b.ledger + Rows(MonthLines(p, i), "Asset", id, key);
            && KeysOk(t) && EntriesBalance(t)
            && (forall a :: Net(t, Account(id, a))
                            == Net(b.ledger, Account(id, a)) + (if a == EXPENSE then c else 0) - (if a == ACCUMULATED then c else 0))
            && (forall k :: k != key ==> (Exists(t, k) <==> Exists(b.ledger, k)))
            && (Exists(t, key) <==> c > 0)
  {
    var key, c, lines := DepKey(id, p.Month(i)), p.Amount(i), MonthLines(p, i);
    AmountNonNegative(p, i);
    TwoLinesNet(lines[0], lines[1]);
    EntryAppended(b.ledger, lines, "Asset", id, key);
    forall a ensures LinesOn(lines, a) == (if a == EXPENSE then c else 0) - (if a == ACCUMULATED then c else 0) {
      TwoLinesOn(lines, a);
    }
    assert c > 0 <==> exists j :: 0 <= j < |lines| && (lines[j].debit > 0 || lines[j].credit > 0) by {
      if c > 0 { assert lines[0].debit > 0; }
    }
  }

  lemma MonthInViews(ledger: seq<Posting>, id: string, p: Plan, i: int)
    requires p.Valid()
    ensures var c := p.Amount(i);
            var t := ledger + Rows(MonthLines(p, i), "Asset", id, DepKey(id, p.Month(i)));
            && Net(t, Accumulation(id)) == Net(ledger, Accumulation(id)) - c
            && (forall m :: Net(t, MonthCharge(id, m)) == Net(ledger, MonthCharge(id, m)) - (if m == p.Month(i) then c else 0))
  {
    var c, rows := p.Amount(i), Rows(MonthLines(p, i), "Asset", id, DepKey(id, p.Month(i)));
    AmountNonNegative(p, i);
    MonthRows(p, id, i);
    NetConcat(ledger, rows, Accumulation(id));
    PairNet(rows, Accumulation(id));
    forall m ensures Net(ledger + rows, MonthCharge(id, m)) == Net(ledger, MonthCharge(id, m)) - (if m == p.Month(i) then c else 0) {
      NetConcat(ledger, rows, MonthCharge(id, m));
      PairNet(rows, MonthCharge(id, m));
    }
  }

  lemma PairNet(rows: seq<Posting>, v: View)
    requires |rows| == 2 || rows == []
    ensures |rows| == 2 ==> Net(rows, v) == (if Selects(v, rows[0]) then rows[0].debit - rows[0].credit else 0)
                                            + (if Selects(v, rows[1]) then rows[1].debit - rows[1].credit else 0)
    ensures rows == [] ==> Net(rows, v) == 0
  {
    if |rows| == 2 {
      assert rows[..1][..0] == [];
      assert Net(rows[..1], v) == (if Selects(v, rows[0]) then rows[0].debit - rows[0].credit else 0);
    }
  }

  /** Marking month i posted adds its charge to the posted total. */
  lemma {:induction false} PostedTotalStep(a: seq<Posting>, t: seq<Posting>, id: string, p: Plan, i: int, n: nat)
    requires p.Valid() && 1 <= i && !Exists(a, DepKey(id, p.Month(i)))
    requires forall k :: k != DepKey(id, p.Month(i)) ==> (Exists(t, k) <==> Exists(a, k))
    requires Exists(t, DepKey(id, p.Month(i))) <==> p.Amount(i) > 0
    ensures PostedTotal(t, id, p, n) == PostedTotal(a, id, p, n) + (if i <= n then p.Amount(i) else 0)
  {
    AmountNonNegative(p, i);
    if n > 0 { PostedTotalStep(a, t, id, p, i, n - 1); }
  }

  lemma MonthKeepsInv(b: Books, id: string, i: int)
    requires Inv(b)
    ensures Inv(Apply(b, EvMonth(id, i)))
  {
    if id in b.assets && PlanOf(b.assets[id]).Some? {
      var p := PlanOf(b.assets[id]).value;
      if 1 <= i <= p.MonthsDue(MonthOf(b.today)) && PostMonth(b, id, p, i).1.MonthPosted? {
        PostedMonthKeepsInv(b, id, p, i);
      }
    }
  }

  lemma PostedMonthKeepsInv(b: Books, id: string, p: Plan, i: int)
    requires Inv(b) && id in b.assets && PlanOf(b.assets[id]) == Some(p)
    requires 1 <= i <= p.MonthsDue(MonthOf(b.today)) && PostMonth(b, id, p, i).1.MonthPosted?
    ensures Inv(PostMonth(b, id, p, i).0)
  {
    var t := PostMonth(b, id, p, i).0;
    MonthEffect(b, id, p, i);
    EntryKeepsOthers(b, t, MonthLines(p, i), "Asset", id, DepKey(id, p.Month(i)));
    assert AssetOk(b, id);
    MonthKeepsCapitalised(b, t, id, p, i);
    assert AssetOk(t, id);
  }

  /** t is b with the rows of month i. */
  ghost predicate MonthAppended(b: Books, t: Books, id: string, p: Plan, i: int)
    requires p.Valid()
  {
    && KeysOk(b.ledger) && EntriesBalance(b.ledger) && !Exists(b.ledger, DepKey(id, p.Month(i)))
    && t == b.(ledger := b.ledger + Rows(MonthLines(p, i), "Asset", id, DepKey(id, p.Month(i))))
    && 1 <= i <= p.MonthsDue(MonthOf(b.today))
  }

  lemma MonthKeepsMonthsOk(b: Books, t: Books, id: string, p: Plan, i: int)
    requires p.Valid() && MonthAppended(b, t, id, p, i) && MonthsOk(b, id, p)
    ensures MonthsOk(t, id, p)
  {
    MonthEffect(b, id, p, i);
    PostedTotalStep(b.ledger, t.ledger, id, p, i, p.months);
    forall j | 1 <= j <= p.months
      ensures -Net(t.ledger, MonthCharge(id, p.Month(j))) == if IsPosted(t.ledger, id, p, j) then p.Amount(j) else 0
    {
      MonthChargeOk(b, t, id, p, i, j);
    }
    assert p.start <= p.Month(i) < p.start + p.months && p.Month(i) < MonthOf(t.today);
  }

  lemma MonthChargeOk(b: Books, t: Books, id: string, p: Plan, i: int, j: int)
    requires p.Valid() && MonthAppended(b, t, id, p, i) && 1 <= j
    requires -Net(b.ledger, MonthCharge(id, p.Month(j))) == if IsPosted(b.ledger, id, p, j) then p.Amount(j) else 0
    ensures -Net(t.ledger, MonthCharge(id, p.Month(j))) == if IsPosted(t.ledger, id, p, j) then p.Amount(j) else 0
  {
    MonthEffect(b, id, p, i);
    AmountNonNegative(p, i);
    assert p.Month(j) == p.Month(i) <==> j == i;
  }

  lemma MonthKeepsCapitalised(b: Books, t: Books, id: string, p: Plan, i: int)
    requires p.Valid() && MonthAppended(b, t, id, p, i)
    requires id in b.assets && CapitalisedOk(b, id) && PlanOf(b.assets[id]) == Some(p)
    ensures CapitalisedOk(t, id)
  {
    MonthKeepsMonthsOk(b, t, id, p, i);
    MonthEffect(b, id, p, i);
    assert DisposeKey(id) != DepKey(id, p.Month(i));
  }

  lemma DisposalLinesNet(cost: int, accumulated: int, proceeds: int, into: string)
    requires 0 <= accumulated && 0 <= cost && 0 <= proceeds
    ensures var lines := DisposalLines(cost, accumulated, proceeds, into);
            && OneSided(lines) && LinesNet(lines) == 0
            && forall a :: LinesOn(lines, a) ==
                 (if a == ACCUMULATED then accumulated else 0) + (if a == into then proceeds else 0)
                 + (if a == LOSS && proceeds < cost - accumulated then cost - accumulated - proceeds else 0)
                 - (if a == FIXED then cost else 0)
                 - (if a == GAIN && proceeds > cost - accumulated then proceeds - (cost - accumulated) else 0)
  {
    var lines := DisposalLines(cost, accumulated, proceeds, into);
    assert lines[..4][..3] == lines[..3] && lines[..3][..2] == lines[..2] && lines[..2][..1] == lines[..1];
    assert lines[..1][..0] == [] && lines[..5] == lines;
    assert LinesNet(lines[..1]) == accumulated;
    assert LinesNet(lines[..2]) == accumulated + proceeds;
    assert LinesNet(lines[..3]) == accumulated + proceeds + lines[2].debit;
    assert LinesNet(lines[..4]) == accumulated + proceeds + lines[2].debit - cost;
    forall a ensures LinesOn(lines, a) == LinesOn(lines[..3], a) + (if a == FIXED then -cost else 0)
                                          - (if a == GAIN then lines[4].credit else 0)
    {
      assert LinesOn(lines, a) == LinesOn(lines[..4], a) - (if a == GAIN then lines[4].credit else 0);
      assert LinesOn(lines[..4], a) == LinesOn(lines[..3], a) - (if a == FIXED then cost else 0);
    }
    forall a ensures LinesOn(lines[..3], a) == (if a == ACCUMULATED then accumulated else 0)
                                               + (if a == into then proceeds else 0)
                                               + (if a == LOSS then lines[2].debit else 0)
    {
      assert LinesOn(lines[..3], a) == LinesOn(lines[..2], a) + (if a == LOSS then lines[2].debit else 0);
      TwoLinesOn(lines[..2], a);
    }
  }

  /** The accumulated charge of a capitalised asset lies between nothing and its cost. */
  lemma AccumulatedWithinCost(b: Books, id: string)
    requires id in b.assets && b.assets[id].status == Capitalised && CapitalisedOk(b, id)
    ensures 0 <= Accumulated(b, id) <= b.assets[id].costPaise
  {
    match PlanOf(b.assets[id])
    case Some(p) => PostedTotalWithin(b.ledger, id, p, p.months); PlanChargesCostExactly(p);
    case None =>
  }

  lemma {:induction false} PostedTotalWithin(ledger: seq<Posting>, id: string, p: Plan, n: nat)
    requires p.Valid()
    ensures 0 <= PostedTotal(ledger, id, p, n) <= p.Total(n)
  {
    if n > 0 {
      PostedTotalWithin(ledger, id, p, n - 1);
      AmountNonNegative(p, n);
    }
  }

  /** What a disposal leaves on the asset's two accounts. */
  lemma DisposalEffect(b: Books, id: string, proceeds: int, into: string)
    requires Inv(b) && 0 <= proceeds && DisposeTx(b, id, proceeds, into).Some?
    ensures var t := DisposeTx(b, id, proceeds, into).value;
            && KeysOk(t.ledger) && EntriesBalance(t.ledger)
            && (forall o :: o in t.assets && o != id ==> AssetOk(t, o))
            && Net(t.ledger, Account(id, FIXED)) == (if into == FIXED then proceeds else 0)
            && Net(t.ledger, Account(id, ACCUMULATED)) == (if into == ACCUMULATED then proceeds else 0)
            && t.assets == b.assets[id := b.assets[id].(status := Disposed)]
  {
    var t := DisposeTx(b, id, proceeds, into).value;
    var a := b.assets[id];
    assert CapitalisedOk(b, id);
    AccumulatedWithinCost(b, id);
    var lines := DisposalLines(a.costPaise, Accumulated(b, id), proceeds, into);
    DisposalLinesNet(a.costPaise, Accumulated(b, id), proceeds, into);
    EntryAppended(b.ledger, lines, "Asset-Disposal", id, DisposeKey(id));
    EntryKeepsOthers(b, t, lines, "Asset-Disposal", id, DisposeKey(id));
  }

  /**
    Disposal clears the asset from 1400 and 1410 exactly when the proceeds, if any, are not received
    into one of those two accounts themselves.
   */
  lemma DisposalClearsExactlyWhenReceiptElsewhere(b: Books, id: string, proceeds: int, into: string)
    requires Inv(b) && 0 <= proceeds && DisposeTx(b, id, proceeds, into).Some?
    ensures var t := DisposeTx(b, id, proceeds, into).value;
            Net(t.ledger, Account(id, FIXED)) == 0 && Net(t.ledger, Account(id, ACCUMULATED)) == 0
            <==> proceeds == 0 || (into != FIXED && into != ACCUMULATED)
  {
    DisposalEffect(b, id, proceeds, into);
  }

  /**
    And it books the outcome: the receipt account takes the proceeds, and what they bring above or below the book value
    is the gain or the loss, on their own accounts.
   */
  lemma DisposalBooksTheOutcome(b: Books, id: string, proceeds: int, into: string, account: string)
    requires Inv(b) && 0 <= proceeds && DisposeTx(b, id, proceeds, into).Some?
    requires into !in {FIXED, ACCUMULATED, LOSS, GAIN} && account in {into, LOSS, GAIN}
    ensures var t := DisposeTx(b, id, proceeds, into).value;
            var bookValue := b.assets[id].costPaise - Accumulated(b, id);
            Net(t.ledger, Account(id, account)) - Net(b.ledger, Account(id, account))
            == if account == into then proceeds
               else if account == LOSS && proceeds < bookValue then bookValue - proceeds
               else if account == GAIN && proceeds > bookValue then bookValue - proceeds
               else 0
  {
    var a := b.assets[id];
    assert AssetOk(b, id);
    AccumulatedWithinCost(b, id);
    DisposalLinesNet(a.costPaise, Accumulated(b, id), proceeds, into);
    EntryAppended(b.ledger, DisposalLines(a.costPaise, Accumulated(b, id), proceeds, into), "Asset-Disposal", id, DisposeKey(id));
    assert LOSS != GAIN && LOSS != FIXED && LOSS != ACCUMULATED && GAIN != FIXED && GAIN != ACCUMULATED;
  }

  /** An asset of 100, capitalised; a bank account is kept on 1400 itself. */
  ghost function CapitalisedHundred(): Books
  {
    Apply(Apply(Books(map[], [], [], {}, 0, {FIXED}), EvAdd("a", 100, 1.0, None)), EvCapitalise("a", 1.0))
  }

  lemma HundredIsCapitalised()
    ensures var b := CapitalisedHundred();
            && Inv(b) && "a" in b.assets && b.assets["a"] == Asset(Capitalised, 100, 1.0, Some(MonthOf(0)))
            && b.today == 0 && b.receipts == {FIXED} && b.periods == [] && CapitalisedOk(b, "a")
  {
    var b0 := Books(map[], [], [], {}, 0, {FIXED});
    var b1 := Apply(b0, EvAdd("a", 100, 1.0, None));
    assert EntriesBalance(b0.ledger) && Inv(b0);
    StepKeepsInv(b0, EvAdd("a", 100, 1.0, None));
    StepKeepsInv(b1, EvCapitalise("a", 1.0));
    TwoLinesNet(Line(FIXED, 100, 0), Line(SUSPENSE, 0, 100));
    assert Capitalise(b1, "a", 1.0).Some?;
  }

  /** Nothing is due yet on it, so disposing is the disposal transaction alone. */
  lemma HundredIsDisposed(proceeds: int)
    requires 0 <= proceeds
    ensures var b := CapitalisedHundred();
            var (t, d) := Dispose(b, "a", proceeds, FIXED, {});
            d.Some? && DisposeTx(b, "a", proceeds, FIXED) == Some(t)
  {
    var b := CapitalisedHundred();
    HundredIsCapitalised();
    AccumulatedWithinCost(b, "a");
    DisposalLinesNet(100, Accumulated(b, "a"), proceeds, FIXED);
    assert Depreciate(b, "a", {}) == (b, RunOutcome([], []), true);
  }

  /** Disposed of for 40 received into 1400. */
  lemma ProceedsIntoFixedAssetsStay()
    ensures var b := CapitalisedHundred();
            var (t, d) := Dispose(b, "a", 40, FIXED, {});
            && InputsOk(b, 40, FIXED) && d.Some? && Net(t.ledger, Account("a", FIXED)) == 40
  {
    HundredIsCapitalised();
    HundredIsDisposed(40);
    DisposalEffect(CapitalisedHundred(), "a", 40, FIXED);
  }

  // ---- a transfer that writes late ------------------------------------------------------------

  /** A transfer reads the asset and writes it back, status included, without a lock; this one finds it not disposed of. */
  ghost predicate TransferOnTime(b: Books, e: Event)
  {
    e.EvLateTransfer? && e.id in b.assets ==> b.assets[e.id].status != Disposed
  }

  /** Its write keeps the books in order exactly when the asset was not disposed of in between. */
  lemma LateTransferKeepsInvExactlyWhenNotDisposed(b: Books, id: string)
    requires Inv(b) && id in b.assets
    ensures Inv(Apply(b, EvLateTransfer(id))) <==> b.assets[id].status != Disposed
  {
    var t := Apply(b, EvLateTransfer(id));
    assert AssetOk(b, id);
    if b.assets[id].status == Disposed {
      assert t.ledger == b.ledger && !AssetOk(t, id);
    } else {
      assert t.assets == b.assets;
    }
  }

  /** The asset of 100, disposed of for nothing between a transfer's read and its write, is capitalised again. */
  lemma LateTransferUndoesADisposal()
    ensures var t := Apply(Dispose(CapitalisedHundred(), "a", 0, FIXED, {}).0, EvLateTransfer("a"));
            && "a" in t.assets && t.assets["a"].status == Capitalised
            && Net(t.ledger, Account("a", FIXED)) == 0 && !Inv(t)
  {
    HundredIsCapitalised();
    HundredIsDisposed(0);
    DisposedThenTransferred(CapitalisedHundred(), Dispose(CapitalisedHundred(), "a", 0, FIXED, {}).0, "a", FIXED);
  }

  lemma DisposedThenTransferred(b: Books, t: Books, id: string, into: string)
    requires Inv(b) && DisposeTx(b, id, 0, into) == Some(t)
    ensures var u := Apply(t, EvLateTransfer(id));
            id in u.assets && u.assets[id].status == Capitalised && Net(u.ledger, Account(id, FIXED)) == 0 && !Inv(u)
  {
    DisposalEffect(b, id, 0, into);
    assert t == Apply(b, EvDispose(id, 0, into));
    StepKeepsInv(b, EvDispose(id, 0, into));
    LateTransferKeepsInvExactlyWhenNotDisposed(t, id);
  }

  // ---- over whole runs -------------------------------------------------------------------------

  ghost predicate ReceiptElsewhere(e: Event)
  {
    e.EvDispose? ==> e.proceeds == 0 || (e.into != FIXED && e.into != ACCUMULATED)
  }

  lemma StepKeepsInv(b: Books, e: Event)
    requires Inv(b) && ReceiptElsewhere(e) && TransferOnTime(b, e)
    ensures Inv(Apply(b, e))
  {
    match e
    case EvAdd(id, cost, life, month) => QuietStep(b, e);
    case EvCapitalise(id, life) => CapitaliseKeepsInv(b, id, life);
    case EvMonth(id, i) => MonthKeepsInv(b, id, i);
    case EvDispose(id, proceeds, into) =>
      if 0 <= proceeds && DisposeTx(b, id, proceeds, into).Some? { DisposalEffect(b, id, proceeds, into); }
    case EvPeriods(periods) => QuietStep(b, e);
    case EvApprove(docType, docId, date) => QuietStep(b, e);
    case EvAdvance(date) => QuietStep(b, e);
    case EvLateTransfer(id) => if id in b.assets { LateTransferKeepsInvExactlyWhenNotDisposed(b, id); }
  }

  lemma QuietStep(b: Books, e: Event)
    requires Inv(b) && (e.EvAdd? || e.EvPeriods? || e.EvApprove? || e.EvAdvance?)
    ensures Inv(Apply(b, e))
  {
    var t := Apply(b, e);
    forall id | id in t.assets ensures AssetOk(t, id) {
      if id in b.assets {
        SameLedgerSameFor(b, t, id);
        SameForKeepsAsset(b, t, id);
      } else {
        assert forall i :: 0 <= i < |b.ledger| ==> b.ledger[i].docId != id;
      }
    }
  }

  ghost predicate ReceiptsElsewhere(events: seq<Event>)
  {
    forall i :: 0 <= i < |events| ==> ReceiptElsewhere(events[i])
  }

  ghost predicate TransfersOnTime(b: Books, events: seq<Event>)
    decreases |events|
  {
    events == [] || (TransferOnTime(b, events[0]) && TransfersOnTime(Apply(b, events[0]), events[1..]))
  }

  /**
    Over any interleaving of capitalisations, single months of any number of runs, disposals, transfers, period
    changes and the passing of time: every entry balances, each month carries its planned charge at
    most once, 1410 is the sum of the posted months, and a disposed asset holds nothing on 1400 or 1410.
   */
  lemma {:induction false} RunKeepsInv(b: Books, events: seq<Event>)
    requires Inv(b) && ReceiptsElsewhere(events) && TransfersOnTime(b, events)
    ensures Inv(Run(b, events))
    decreases |events|
  {
    if events != [] {
      assert ReceiptElsewhere(events[0]);
      StepKeepsInv(b, events[0]);
      RunKeepsInv(Apply(b, events[0]), events[1..]);
    }
  }

  /** Once an asset is disposed, no step of anyone posts anything more for it. */
  lemma {:induction false} NothingPostsAfterDisposal(b: Books, events: seq<Event>, id: string, account: string)
    requires id in b.assets && b.assets[id].status == Disposed && TransfersOnTime(b, events)
    ensures id in Run(b, events).assets && Run(b, events).assets[id].status == Disposed
    ensures Net(Run(b, events).ledger, Account(id, account)) == Net(b.ledger, Account(id, account))
    decreases |events|
  {
    if events != [] {
      StepSkipsDisposed(b, events[0], id, account);
      NothingPostsAfterDisposal(Apply(b, events[0]), events[1..], id, account);
    }
  }

  lemma StepSkipsDisposed(b: Books, e: Event, id: string, account: string)
    requires id in b.assets && b.assets[id].status == Disposed && TransferOnTime(b, e)
    ensures var t := Apply(b, e);
            && id in t.assets && t.assets[id].status == Disposed
            && Net(t.ledger, Account(id, account)) == Net(b.ledger, Account(id, account))
  {
    var t := Apply(b, e);
    if t.ledger != b.ledger {
      match e
      case EvCapitalise(o, life) =>
        var cost := b.assets[o].costPaise;
        OtherEntry(b.ledger, [Line(FIXED, cost, 0), Line(SUSPENSE, 0, cost)], "Asset", o, CapitaliseKey(o), id, account);
      case EvMonth(o, i) =>
        var p := PlanOf(b.assets[o]).value;
        OtherEntry(b.ledger, MonthLines(p, i), "Asset", o, DepKey(o, p.Month(i)), id, account);
      case EvDispose(o, proceeds, into) =>
        OtherEntry(b.ledger, DisposalLines(b.assets[o].costPaise, Accumulated(b, o), proceeds, into), "Asset-Disposal", o,
                   DisposeKey(o), id, account);
    }
  }

  lemma OtherEntry(ledger: seq<Posting>, lines: seq<Line>, docType: string, docId: string, key: Key, id: string,
                   account: string)
    requires docId != id
    ensures Net(ledger + Rows(lines, docType, docId, key), Account(id, account)) == Net(ledger, Account(id, account))
  {
    RowsShape(lines, docType, docId, key);
    ForeignNet(ledger, Rows(lines, docType, docId, key), Account(id, account));
  }
}
