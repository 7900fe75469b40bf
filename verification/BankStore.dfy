/** The reconciliation workbench as the engine executes it: each call is one of the machine's steps. */
module BankStore {
  import opened Text
  import opened BankBooks
  import opened BankInvariant
  import opened BankTheorems
  import RuleMatch

  /** BankRuleMatchResult. */
  datatype Report = Report(matched: nat, withDifference: nat, ambiguous: seq<(string, nat)>, noCandidate: seq<string>,
                           skipped: seq<string>)

  function AddToReport(r: Report, d: RuleMatch.Decision): Report
  {
    match d.outcome
    case Matched(_, _, difference) =>
      r.(matched := r.matched + 1, withDifference := r.withDifference + (if difference != 0 then 1 else 0))
    case Ambiguous(count) => r.(ambiguous := r.ambiguous + [(d.line, count)])
    case NoCandidate => r.(noCandidate := r.noCandidate + [d.line])
    case Skipped => r.(skipped := r.skipped + [d.line])
  }

  function ReportOf(ds: seq<RuleMatch.Decision>): Report
  {
    if ds == [] then Report(0, 0, [], [], []) else AddToReport(ReportOf(ds[..|ds| - 1]), ds[|ds| - 1])
  }

  /** The report accounts for every line once, and names exactly the lines with each outcome. */
  lemma {:induction false} ReportSplitsTheLines(ds: seq<RuleMatch.Decision>)
    ensures var r := ReportOf(ds);
            && r.matched + |r.ambiguous| + |r.noCandidate| + |r.skipped| == |ds|
            && (forall id :: id in r.noCandidate <==> RuleMatch.Decision(id, RuleMatch.NoCandidate) in ds)
            && (forall id :: id in r.skipped <==> RuleMatch.Decision(id, RuleMatch.Skipped) in ds)
            && (forall id, n: nat :: (id, n) in r.ambiguous <==> RuleMatch.Decision(id, RuleMatch.Ambiguous(n)) in ds)
            && r.matched == |PairsOf(ds)|
  {
    if ds != [] {
      var init, d := ds[..|ds| - 1], ds[|ds| - 1];
      ReportSplitsTheLines(init);
      assert ds == init + [d];
    }
  }

  lemma LinkPairsSnoc(b: Books, pairs: seq<Pair>, p: Pair)
    requires PairsInRange(b, pairs) && p.posting < |b.postings| && p.line in b.lines
    ensures PairsInRange(b, pairs + [p]) && LinkPairs(b, pairs + [p]) == LinkPair(LinkPairs(b, pairs), p)
  {
    assert (pairs + [p])[..|pairs|] == pairs;
  }

  lemma PairsStep(ds: seq<RuleMatch.Decision>, k: nat)
    requires k < |ds|
    ensures ReportOf(ds[..k + 1]) == AddToReport(ReportOf(ds[..k]), ds[k])
    ensures !ds[k].outcome.Matched? ==> PairsOf(ds[..k + 1]) == PairsOf(ds[..k])
    ensures ds[k].outcome.Matched? ==> PairsOf(ds[..k + 1]) == PairsOf(ds[..k]) + [PairOf(ds[k])]
  {
    assert ds[..k + 1][..k] == ds[..k];
  }

  lemma DecisionStep(b: Books, ds: seq<RuleMatch.Decision>, k: nat)
    requires k < |ds| && DecisionsOk(b, ds) && PairsInRange(b, PairsOf(ds[..k])) && ds[k].outcome.Matched?
    ensures PairOf(ds[k]).posting < |b.postings| && PairOf(ds[k]).line in b.lines
    ensures PairsInRange(b, PairsOf(ds[..k + 1]))
    ensures LinkPairs(b, PairsOf(ds[..k + 1])) == LinkPair(LinkPairs(b, PairsOf(ds[..k])), PairOf(ds[k]))
  {
    PairsStep(ds, k);
    assert PairOk(b, PairOf(ds[k]));
    LinkPairsSnoc(b, PairsOf(ds[..k]), PairOf(ds[k]));
  }

  lemma GreedyStep(b: Books, order: seq<string>, free: seq<nat>, k: nat)
    requires forall i :: 0 <= i < |order| ==> order[i] in b.lines
    requires forall i :: 0 <= i < |free| ==> free[i] < |b.postings|
    requires k < |order| && PairsInRange(b, ExactPairs(b, order[..k], free).0)
    ensures var (pairs, used) := ExactPairs(b, order[..k], free);
            var (after, usedAfter) := ExactPairs(b, order[..k + 1], free);
            match FirstFit(b, b.lines[order[k]], free, used)
            case None => after == pairs && usedAfter == used && ExactMisses(b, order[..k + 1], free) == ExactMisses(b, order[..k], free) + [order[k]]
            case Some(p) =>
              && PairsInRange(b, after) && |after| == |pairs| + 1 && usedAfter == used + {p}
              && ExactMisses(b, order[..k + 1], free) == ExactMisses(b, order[..k], free)
              && LinkPairs(b, after) == LinkPair(LinkPairs(b, pairs), Pair(order[k], p, "auto:exact", 0))
  {
    assert order[..k + 1][..k] == order[..k];
    var (pairs, used) := ExactPairs(b, order[..k], free);
    match FirstFit(b, b.lines[order[k]], free, used)
    case None =>
    case Some(p) => LinkPairsSnoc(b, pairs, Pair(order[k], p, "auto:exact", 0));
  }

  class Workbench {
    var lines: map<string, BankLine>
    var postings: seq<Posting>
    var accounts: map<string, string>
    var closed: seq<(int, int)>
    var batchOf: map<string, string>

    ghost function View(): Books
      reads this
    {
      Books(lines, postings, accounts, closed, batchOf)
    }

    constructor (accounts: map<string, string>, batchOf: map<string, string>)
      ensures View() == Books(map[], [], accounts, [], batchOf) && Inv(View())
    {
      lines, postings, closed := map[], [], [];
      this.accounts, this.batchOf := accounts, batchOf;
    }

    static method LinkPostings(ps: seq<Posting>, ks: seq<nat>, id: string) returns (t: seq<Posting>)
      requires forall i :: 0 <= i < |ks| ==> ks[i] < |ps|
      ensures t == LinkAll(ps, ks, id)
    {
      t := ps;
      for i := 0 to |ks|
        invariant t == LinkAll(ps, ks[..i], id)
      {
        assert ks[..i + 1][..i] == ks[..i];
        t := Link(t, ks[i], id);
      }
      assert ks[..|ks|] == ks;
    }

    /** The chosen postings' total, unless one of them may not be chosen. */
    static method TotalChosen(b: Books, l: BankLine, ks: seq<nat>) returns (r: Option<int>)
      ensures r.Some? <==> forall i :: 0 <= i < |ks| ==> Choosable(b, l, ks[i])
      ensures r.Some? ==> r.value == SideSum(b.postings, l.drCr, ks)
    {
      var total := 0;
      for i := 0 to |ks|
        invariant forall j :: 0 <= j < i ==> Choosable(b, l, ks[j])
        invariant total == SideSum(b.postings, l.drCr, ks[..i])
      {
        assert ks[..i + 1][..i] == ks[..i];
        var k := ks[i];
        if k >= |b.postings| || b.postings[k].account != GL(b, l.bankAccount) || b.postings[k].linked.Some? {
          assert !Choosable(b, l, ks[i]);
          return None;
        }
        var side := Side(l.drCr, b.postings[k]);
        if side == 0 {
          assert !Choosable(b, l, ks[i]);
          return None;
        }
        total := total + side;
      }
      assert ks[..|ks|] == ks;
      r := Some(total);
    }

    method MatchBankLine(id: string, ks: seq<nat>) returns (ok: bool)
      modifies this
      ensures ok <==> MatchLine(old(View()), id, ks).Some?
      ensures View() == Or(MatchLine(old(View()), id, ks), old(View()))
    {
      var b := Books(lines, postings, accounts, closed, batchOf);
      if ks == [] { return false; }
      var found := Lock(b, id);
      if found.None? { return false; }
      var l := found.value;
      if l.status == Matched || l.status == Explained { return false; }
      var total := TotalChosen(b, l, ks);
      if total.None? || total.value != l.amount { return false; }
      postings := LinkPostings(b.postings, ks, id);
      lines := lines[id := MarkMatched(l, "manual", 0)];
      ok := true;
    }

    method UnmatchBankLine(id: string, reason: string) returns (ok: bool)
      modifies this
      ensures ok <==> Trim(reason) != "" && UnmatchLine(old(View()), id).Some?
      ensures View() == if ok then UnmatchLine(old(View()), id).value else old(View())
    {
      if Trim(reason) == "" { return false; }
      var found := Lock(Books(lines, postings, accounts, closed, batchOf), id);
      if found.None? || (found.value.status != Matched && found.value.status != Explained) { return false; }
      postings := UnlinkAll(postings, id);
      lines := lines[id := found.value.(status := Unmatched, how := "", difference := 0)];
      ok := true;
    }

    method RaiseBankException(id: string, owner: string, reason: string, active: set<string>) returns (ok: bool)
      modifies this
      ensures ok <==> Trim(owner) != "" && Trim(reason) != "" && Trim(owner) in active
                      && RaiseException(old(View()), id).Some?
      ensures View() == if ok then RaiseException(old(View()), id).value else old(View())
    {
      if Trim(owner) == "" || Trim(reason) == "" || Trim(owner) !in active { return false; }
      var found := Lock(Books(lines, postings, accounts, closed, batchOf), id);
      if found.None? || found.value.status == Matched || found.value.status == Explained { return false; }
      lines := lines[id := found.value.(status := Exception)];
      ok := true;
    }

    method ExplainBankException(id: string, note: string, managesPeriodClose: bool) returns (ok: bool)
      modifies this
      ensures ok <==> managesPeriodClose && |Trim(note)| >= 10 && ExplainException(old(View()), id).Some?
      ensures View() == if ok then ExplainException(old(View()), id).value else old(View())
    {
      if !managesPeriodClose || |Trim(note)| < 10 { return false; }
      var found := Lock(Books(lines, postings, accounts, closed, batchOf), id);
      if found.None? || found.value.status != Exception { return false; }
      lines := lines[id := found.value.(status := Explained, how := "explained", difference := found.value.amount)];
      ok := true;
    }

    /** marketplaceBatchPostings: the batch's free payout postings and their total. */
    static method BatchTotal(b: Books, gl: string, batch: string) returns (ks: seq<nat>, total: int)
      ensures ks == BatchPostings(b, gl, batch, |b.postings|)
      ensures total == SideSum(b.postings, "Credit", ks)
    {
      ks, total := [], 0;
      for n := 0 to |b.postings|
        invariant ks == BatchPostings(b, gl, batch, n)
        invariant total == SideSum(b.postings, "Credit", ks)
      {
        if InBatch(b, gl, batch, b.postings[n]) {
          var longer := ks + [n];
          assert longer[..|ks|] == ks;
          ks, total := longer, total + b.postings[n].debit;
        }
      }
    }

    method MatchMarketplacePayout(id: string, batch: string) returns (ok: bool)
      modifies this
      ensures ok <==> MatchMarketplace(old(View()), id, batch).Some?
      ensures View() == Or(MatchMarketplace(old(View()), id, batch), old(View()))
    {
      var b := Books(lines, postings, accounts, closed, batchOf);
      var found := Lock(b, id);
      if found.None? { return false; }
      var l := found.value;
      if !Open(l) || l.drCr != "Credit" { return false; }
      var ks, total := BatchTotal(b, GL(b, l.bankAccount), batch);
      if ks == [] || total != l.amount { return false; }
      postings := LinkPostings(b.postings, ks, id);
      lines := lines[id := MarkMatched(l, "payout:marketplace:" + batch, 0)];
      ok := true;
    }

    /** The clearing account's balance. */
    static method ClearingBalance(ps: seq<Posting>, account: string) returns (net: int)
      ensures net == AccountNet(ps, account)
    {
      net := 0;
      for n := 0 to |ps|
        invariant net == AccountNet(ps[..n], account)
      {
        assert ps[..n + 1][..n] == ps[..n];
        if ps[n].account == account { net := net + ps[n].debit - ps[n].credit; }
      }
      assert ps[..|ps|] == ps;
    }

    static method IsPayoutPosted(ps: seq<Posting>, id: string) returns (posted: bool)
      ensures posted <==> PayoutPosted(ps, id)
    {
      for n := 0 to |ps|
        invariant forall i :: 0 <= i < n ==> ps[i].payoutOf != Some(id)
      {
        if ps[n].payoutOf == Some(id) { return true; }
      }
      posted := false;
    }

    static method PayoutRow(ps: seq<Posting>, id: string, gl: string) returns (r: Option<nat>)
      ensures r == FindPayoutRow(ps, id, gl, |ps|)
    {
      r := None;
      for n := 0 to |ps|
        invariant r == FindPayoutRow(ps, id, gl, n)
      {
        if r.None? && ps[n].payoutOf == Some(id) && ps[n].account == gl && ps[n].debit > 0 { r := Some(n); }
      }
    }

    method MatchPOSPayout(id: string, clearing: string, fee: int, at: int) returns (ok: bool)
      modifies this
      ensures ok <==> BankBooks.MatchPayout(old(View()), id, clearing, fee, at).Some?
      ensures View() == Or(BankBooks.MatchPayout(old(View()), id, clearing, fee, at), old(View()))
    {
      var b := Books(lines, postings, accounts, closed, batchOf);
      if (clearing != "1101" && clearing != "1102") || fee < 0 { return false; }
      var found := Lock(b, id);
      if found.None? { return false; }
      var l := found.value;
      var gl := GL(b, l.bankAccount);
      if l.status == Matched || l.status == Explained || l.drCr != "Credit" { return false; }
      var posted := IsPayoutPosted(b.postings, id);
      var inClearing := ClearingBalance(b.postings, clearing);
      if !posted && l.amount + fee > inClearing { return false; }
      if !PayoutBalances(gl, l.amount, fee) { return false; }
      var ps := if posted then b.postings else b.postings + PayoutRows(id, gl, clearing, l.amount, fee, at);
      assert PayoutAllowed(b, id, l, clearing, fee) && ps == AfterPayoutEntry(b, id, l, clearing, fee, at);
      var row := PayoutRow(ps, id, gl);
      if row.None? { return false; }
      assert BankBooks.MatchPayout(b, id, clearing, fee, at).Some?;
      postings := Link(ps, row.value, id);
      lines := lines[id := MarkMatched(l, if clearing == "1101" then "payout:card" else "payout:upi", 0)];
      ok := true;
    }

    /** Carry the decisions out one by one, and count them. */
    static method CarryOut(b: Books, ds: seq<RuleMatch.Decision>) returns (t: Books, report: Report)
      requires DecisionsOk(b, ds)
      ensures PairsInRange(b, PairsOf(ds)) && t == LinkPairs(b, PairsOf(ds))
      ensures report == ReportOf(ds)
    {
      t, report := b, Report(0, 0, [], [], []);
      for k := 0 to |ds|
        invariant PairsInRange(b, PairsOf(ds[..k])) && t == LinkPairs(b, PairsOf(ds[..k]))
        invariant report == ReportOf(ds[..k])
      {
        PairsStep(ds, k);
        var d := ds[k];
        if d.outcome.Matched? {
          DecisionStep(b, ds, k);
          t := LinkPair(t, Pair(d.line, d.outcome.posting, d.outcome.how, d.outcome.difference));
        }
        report := AddToReport(report, d);
      }
      assert ds[..|ds|] == ds;
    }

    /** order and free are what the two queries answer. */
    method RuleMatchBankStatement(account: string, rule: RuleMatch.Rule, order: seq<string>, free: seq<nat>)
      returns (r: Option<Report>)
      requires OpenListing(View(), account, order) && FreeListing(View(), GL(View(), account), free)
      modifies this
      ensures r.Some? <==> 0 <= rule.tolerance <= 1_000_000 && 0 <= rule.window <= 31 && GL(old(View()), account) != ""
      ensures r.Some? ==> View() == Apply(old(View()), EvRule(account, rule, order, free))
      ensures r.Some? ==> r.value == ReportOf(RuleMatch.Pass(rule, LineRows(old(View()), order), BookRows(old(View()), free)).0)
      ensures r.None? ==> View() == old(View())
    {
      if rule.tolerance < 0 || rule.tolerance > 1_000_000 || rule.window < 0 || rule.window > 31 { return None; }
      var b := Books(lines, postings, accounts, closed, batchOf);
      if GL(b, account) == "" { return None; }
      var rows, book := LineRows(b, order), BookRows(b, free);
      var ds := RuleMatch.RulePass(rule, rows, book);
      RuleDecisionsOk(b, account, rule, order, free);
      var t, report := CarryOut(b, ds);
      postings, lines := t.postings, t.lines;
      LinkPairsOnlyRows(b, PairsOf(ds));
      r := Some(report);
    }

    /** The first free posting that fits the line. */
    static method FindFit(b: Books, l: BankLine, free: seq<nat>, used: set<nat>) returns (r: Option<nat>)
      requires forall i :: 0 <= i < |free| ==> free[i] < |b.postings|
      ensures r == FirstFit(b, l, free, used)
    {
      for i := 0 to |free|
        invariant FirstFit(b, l, free[i..], used) == FirstFit(b, l, free, used)
      {
        var p := b.postings[free[i]];
        if free[i] in used { continue; }
        var side := Side(l.drCr, p);
        if side == 0 || RuleMatch.Abs(side - l.amount) > 1 { continue; }
        if l.day.Some? {
          var apart := p.at - l.day.value * DAY;
          if apart < -3 * DAY || apart > 3 * DAY { continue; }
        }
        return Some(free[i]);
      }
      r := None;
    }

    static method GreedyPass(b: Books, order: seq<string>, free: seq<nat>)
      returns (t: Books, matched: nat, unmatched: seq<string>, used: set<nat>)
      requires forall i :: 0 <= i < |order| ==> order[i] in b.lines
      requires forall i :: 0 <= i < |free| ==> free[i] < |b.postings|
      ensures PairsInRange(b, ExactPairs(b, order, free).0)
      ensures t == LinkPairs(b, ExactPairs(b, order, free).0) && used == ExactPairs(b, order, free).1
      ensures matched == |ExactPairs(b, order, free).0| && unmatched == ExactMisses(b, order, free)
    {
      t, matched, unmatched, used := b, 0, [], {};
      for k := 0 to |order|
        invariant PairsInRange(b, ExactPairs(b, order[..k], free).0)
        invariant t == LinkPairs(b, ExactPairs(b, order[..k], free).0) && used == ExactPairs(b, order[..k], free).1
        invariant matched == |ExactPairs(b, order[..k], free).0| && unmatched == ExactMisses(b, order[..k], free)
      {
        GreedyStep(b, order, free, k);
        ghost var (pairs, taken) := ExactPairs(b, order[..k], free);
        var id := order[k];
        var fit := FindFit(b, b.lines[id], free, used);
        assert fit == FirstFit(b, b.lines[id], free, taken);
        if fit.None? {
          assert ExactPairs(b, order[..k + 1], free) == (pairs, taken);
          unmatched := unmatched + [id];
        } else {
          t := LinkPair(t, Pair(id, fit.value, "auto:exact", 0));
          matched, used := matched + 1, used + {fit.value};
        }
      }
      assert order[..|order|] == order;
    }

    static method Unused(free: seq<nat>, used: set<nat>) returns (left: seq<nat>)
      ensures forall k :: k in left <==> k in free && k !in used
    {
      left := [];
      for i := 0 to |free|
        invariant forall k :: k in left <==> k in free[..i] && k !in used
      {
        assert free[..i + 1] == free[..i] + [free[i]];
        if free[i] !in used { left := left + [free[i]]; }
      }
      assert free[..|free|] == free;
    }

    method ReconcileBankStatement(account: string, order: seq<string>, free: seq<nat>)
      returns (r: Option<(nat, seq<string>, seq<nat>)>)
      requires OpenListing(View(), account, order) && FreeListing(View(), GL(View(), account), free)
      modifies this
      ensures r.Some? <==> GL(old(View()), account) != ""
      ensures r.Some? ==> View() == Apply(old(View()), EvExact(account, order, free))
      ensures r.None? ==> View() == old(View())
      ensures r.Some? ==> r.value.0 == |ExactPairs(old(View()), order, free).0| && r.value.1 == ExactMisses(old(View()), order, free)
      ensures r.Some? ==> forall k :: k in r.value.2 <==> k in free && View().postings[k].linked.None?
    {
      var b := Books(lines, postings, accounts, closed, batchOf);
      if GL(b, account) == "" { return None; }
      var t, matched, unmatched, used := GreedyPass(b, order, free);
      postings, lines := t.postings, t.lines;
      var left := Unused(free, used);
      LinkPairsOnlyRows(b, ExactPairs(b, order, free).0);
      UsedIsLinked(b, account, order, free);
      r := Some((matched, unmatched, left));
    }
  }

  /** Each open line is either in a pair of the pass or in its list of misses. */
  lemma {:induction false} MissedExactlyWhenUnpaired(b: Books, account: string, order: seq<string>, free: seq<nat>, id: string)
    requires OpenListing(b, account, order) && FreeListing(b, GL(b, account), free) && id in order
    ensures id in ExactMisses(b, order, free) <==> forall p :: p in ExactPairs(b, order, free).0 ==> p.line != id
  {
    var n := |order| - 1;
    assert order == order[..n] + [order[n]];
    LineNotListed(b, order[..n], free, order[n]);
    if id != order[n] { MissedExactlyWhenUnpaired(b, account, order[..n], free, id); }
    PassStep(b, order, free);
  }

  lemma PassStep(b: Books, order: seq<string>, free: seq<nat>)
    requires (forall i :: 0 <= i < |order| ==> order[i] in b.lines) && (forall i :: 0 <= i < |free| ==> free[i] < |b.postings|)
    requires order != []
    ensures var n := |order| - 1;
            match FirstFit(b, b.lines[order[n]], free, ExactPairs(b, order[..n], free).1)
            case None =>
              && ExactPairs(b, order, free).0 == ExactPairs(b, order[..n], free).0
              && ExactMisses(b, order, free) == ExactMisses(b, order[..n], free) + [order[n]]
            case Some(k) =>
              && ExactPairs(b, order, free).0 == ExactPairs(b, order[..n], free).0 + [Pair(order[n], k, "auto:exact", 0)]
              && ExactMisses(b, order, free) == ExactMisses(b, order[..n], free)
  {
  }

  lemma {:induction false} LineNotListed(b: Books, order: seq<string>, free: seq<nat>, id: string)
    requires (forall i :: 0 <= i < |order| ==> order[i] in b.lines) && (forall i :: 0 <= i < |free| ==> free[i] < |b.postings|)
    requires id !in order
    ensures id !in ExactMisses(b, order, free) && forall p :: p in ExactPairs(b, order, free).0 ==> p.line != id
  {
    if order != [] { LineNotListed(b, order[..|order| - 1], free, id); }
  }

  lemma {:induction false} LinkPairsOnlyRows(b: Books, pairs: seq<Pair>)
    requires PairsInRange(b, pairs)
    ensures LinkPairs(b, pairs) == b.(postings := LinkPairs(b, pairs).postings, lines := LinkPairs(b, pairs).lines)
  {
    if pairs != [] { LinkPairsOnlyRows(b, pairs[..|pairs| - 1]); }
  }

  /** A posting of the listing is free after the pass exactly when the pass did not use it. */
  lemma UsedIsLinked(b: Books, account: string, order: seq<string>, free: seq<nat>)
    requires OpenListing(b, account, order) && FreeListing(b, GL(b, account), free)
    requires PairsInRange(b, ExactPairs(b, order, free).0)
    ensures forall k :: k in free ==>
              (k in ExactPairs(b, order, free).1 <==> LinkPairs(b, ExactPairs(b, order, free).0).postings[k].linked.Some?)
  {
    var (pairs, used) := ExactPairs(b, order, free);
    ExactPairsSound(b, account, order, free);
    LinkPairsMarks(b, pairs);
    LinkPairsOnlyPaired(b, pairs);
    forall k | k in free ensures k in used <==> LinkPairs(b, pairs).postings[k].linked.Some? {
      if k in used {
        var i :| 0 <= i < |pairs| && pairs[i].posting == k;
      } else {
        assert forall i :: 0 <= i < |pairs| ==> pairs[i].posting != k;
        assert LinkPairs(b, pairs).postings[k] == b.postings[k];
      }
    }
  }
}
