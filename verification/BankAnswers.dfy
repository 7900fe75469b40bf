/**
  Which calls of the workbench go through and what each changes, said of the rows themselves
  (engines/bank_reconciliation_workbench.go).
 */
module BankAnswers {
  import opened Text
  import opened BankBooks
  import opened BankInvariant
  import RuleMatch

  // ---- what every call asks first ------------------------------------------------------------

  /** The line is there, its bank account has a GL code, and no closed period holds its date. */
  ghost predicate MayTouch(b: Books, id: string)
  {
    && id in b.lines && b.lines[id].bankAccount in b.accounts && b.accounts[b.lines[id].bankAccount] != ""
    && (b.lines[id].day.Some? ==>
          forall i :: 0 <= i < |b.closed| ==> b.lines[id].day.value < b.closed[i].0 || b.closed[i].1 < b.lines[id].day.value)
  }

  ghost predicate Waiting(b: Books, id: string)
  {
    MayTouch(b, id) && (b.lines[id].status == Unmatched || b.lines[id].status == Exception)
  }

  /** The books with one line's row replaced and the listed postings linked to it, all else as it was. */
  ghost predicate OnlyLinks(b: Books, t: Books, id: string, row: BankLine, ks: seq<nat>)
  {
    && t.lines == b.lines[id := row] && t.accounts == b.accounts && t.closed == b.closed && t.batchOf == b.batchOf
    && |t.postings| == |b.postings|
    && (forall k :: 0 <= k < |b.postings| ==>
          t.postings[k] == if k in ks then b.postings[k].(linked := Some(id)) else b.postings[k])
  }

  // ---- manual match and unmatch --------------------------------------------------------------------

  /**
    A manual match goes through exactly when the line waits and the postings named, at least one, are on its GL
    account, unlinked, not zero on the side the line takes, and sum to it there; it links exactly them.
   */
  lemma ManualMatchGoesThroughExactlyWhen(b: Books, id: string, ks: seq<nat>)
    ensures MatchLine(b, id, ks).Some? <==>
            && Waiting(b, id) && ks != []
            && (forall i :: 0 <= i < |ks| ==>
                  && ks[i] < |b.postings| && b.postings[ks[i]].account == b.accounts[b.lines[id].bankAccount]
                  && b.postings[ks[i]].linked == None
                  && (if b.lines[id].drCr == "Credit" then b.postings[ks[i]].debit else b.postings[ks[i]].credit) != 0)
            && SideSum(b.postings, b.lines[id].drCr, ks) == b.lines[id].amount
    ensures MatchLine(b, id, ks).Some? ==>
              OnlyLinks(b, MatchLine(b, id, ks).value, id, b.lines[id].(status := Matched, how := "manual", difference := 0), ks)
  {
    if MatchLine(b, id, ks).Some? { LinkAllRows(b.postings, ks, id); }
  }

  /** An unmatch goes through exactly for a line no longer waiting; it reopens the line and frees its postings. */
  lemma UnmatchGoesThroughExactlyWhen(b: Books, id: string)
    ensures UnmatchLine(b, id).Some? <==> MayTouch(b, id) && (b.lines[id].status == Matched || b.lines[id].status == Explained)
    ensures UnmatchLine(b, id).Some? ==>
              var t := UnmatchLine(b, id).value;
              && t == b.(lines := t.lines, postings := t.postings) && |t.postings| == |b.postings|
              && t.lines == b.lines[id := b.lines[id].(status := Unmatched, how := "", difference := 0)]
              && forall k :: 0 <= k < |b.postings| ==>
                   t.postings[k] == if b.postings[k].linked == Some(id) then b.postings[k].(linked := None) else b.postings[k]
  {
  }

  /** A waiting line can be queued, a queued one explained; either changes that line alone. */
  lemma ExceptionsGoThroughExactlyWhen(b: Books, id: string)
    ensures RaiseException(b, id).Some? <==> Waiting(b, id)
    ensures RaiseException(b, id).Some? ==>
              RaiseException(b, id).value == b.(lines := b.lines[id := b.lines[id].(status := Exception)])
    ensures ExplainException(b, id).Some? <==> MayTouch(b, id) && b.lines[id].status == Exception
    ensures ExplainException(b, id).Some? ==>
              ExplainException(b, id).value
              == b.(lines := b.lines[id := b.lines[id].(status := Explained, how := "explained", difference := b.lines[id].amount)])
  {
  }

  // ---- settlement batches ------------------------------------------------------------------------------

  /** An unlinked payout posting of the batch on the line's GL account. */
  ghost predicate PaysOut(b: Books, id: string, batch: string, k: int)
    requires id in b.lines && 0 <= k < |b.postings|
  {
    var p := b.postings[k];
    && p.docType == "MarketplaceSettlementLine" && p.linked == None && p.debit > 0
    && b.lines[id].bankAccount in b.accounts && p.account == b.accounts[b.lines[id].bankAccount]
    && p.docId in b.batchOf && b.batchOf[p.docId] == batch
  }

  lemma {:induction false} BatchIs(b: Books, gl: string, batch: string, n: nat)
    requires n <= |b.postings|
    ensures forall k: nat :: k in BatchPostings(b, gl, batch, n) <==> k < n && InBatch(b, gl, batch, b.postings[k])
  {
    if n > 0 { BatchIs(b, gl, batch, n - 1); }
  }

  /** The postings a marketplace match takes are exactly the batch's unlinked payouts, each once. */
  lemma BatchIsWhatPaysOut(b: Books, id: string, batch: string)
    requires id in b.lines && b.lines[id].bankAccount in b.accounts
    ensures var ks := BatchPostings(b, b.accounts[b.lines[id].bankAccount], batch, |b.postings|);
            && (forall k: nat :: k in ks <==> k < |b.postings| && PaysOut(b, id, batch, k))
            && (forall i, j :: 0 <= i < j < |ks| ==> ks[i] < ks[j])
  {
    BatchIs(b, b.accounts[b.lines[id].bankAccount], batch, |b.postings|);
  }

  /**
    A marketplace match goes through exactly for a waiting credit line that the batch's payout postings, at least
    one, sum to.
   */
  lemma MarketplaceGoesThroughExactlyWhen(b: Books, id: string, batch: string)
    requires id in b.lines && b.lines[id].bankAccount in b.accounts
    ensures var ks := BatchPostings(b, b.accounts[b.lines[id].bankAccount], batch, |b.postings|);
            MatchMarketplace(b, id, batch).Some? <==>
              Waiting(b, id) && b.lines[id].drCr == "Credit" && ks != []
              && SideSum(b.postings, "Credit", ks) == b.lines[id].amount
  {
  }

  /** It links all of them and nothing else. */
  lemma MarketplaceLinksTheBatch(b: Books, id: string, batch: string)
    requires MatchMarketplace(b, id, batch).Some?
    ensures OnlyLinks(b, MatchMarketplace(b, id, batch).value, id,
                      b.lines[id].(status := Matched, how := "payout:marketplace:" + batch, difference := 0),
                      BatchPostings(b, b.accounts[b.lines[id].bankAccount], batch, |b.postings|))
  {
    var ks := BatchPostings(b, b.accounts[b.lines[id].bankAccount], batch, |b.postings|);
    LinkAllRows(b.postings, ks, id);
  }

  // ---- POS payouts -------------------------------------------------------------------------------------------

  lemma {:induction false} NetOfMore(ps: seq<Posting>, rows: seq<Posting>, account: string)
    ensures AccountNet(ps + rows, account) == AccountNet(ps, account) + AccountNet(rows, account)
  {
    if rows == [] {
      assert ps + rows == ps;
    } else {
      var n := |rows| - 1;
      assert (ps + rows)[..|ps + rows| - 1] == ps + rows[..n] && (ps + rows)[|ps + rows| - 1] == rows[n];
      NetOfMore(ps, rows[..n], account);
    }
  }

  lemma {:induction false} NetIgnoresLinks(ps: seq<Posting>, k: nat, id: string, account: string)
    requires k < |ps|
    ensures AccountNet(Link(ps, k, id), account) == AccountNet(ps, account)
  {
    var n := |ps| - 1;
    if k == n {
      assert Link(ps, k, id)[..n] == ps[..n];
    } else {
      assert Link(ps, k, id)[..n] == Link(ps[..n], k, id);
      NetIgnoresLinks(ps[..n], k, id, account);
    }
  }

  /** The total of one account's debits less its credits. */
  ghost function Moves(account: string, gl: string, clearing: string, amount: int, fee: int): int
  {
    (if account == gl then amount else 0) + (if account == "5230" then fee else 0)
    - (if account == clearing then amount + fee else 0)
  }

  lemma OneRowNet(p: Posting, account: string)
    ensures AccountNet([p], account) == if p.account == account then p.debit - p.credit else 0
    ensures AccountNet([], account) == 0
  {
    assert [p][..0] == [];
  }

  lemma EntryNet(id: string, gl: string, clearing: string, amount: int, fee: int, at: int, account: string)
    requires 0 <= fee && 0 <= amount && (fee > 0 && gl == "5230" ==> amount == 0)
    ensures AccountNet(PayoutRows(id, gl, clearing, amount, fee, at), account) == Moves(account, gl, clearing, amount, fee)
  {
    var p := (a: string, debit: int, credit: int) => Posting(a, debit, credit, "BankStatementLine", id, at, Some(id), None);
    var bank := if (fee > 0 && gl == FEES) || amount <= 0 then [] else [p(gl, amount, 0)];
    var fees := if fee > 0 then [p(FEES, fee, 0)] else [];
    var credit := if amount + fee > 0 then [p(clearing, 0, amount + fee)] else [];
    assert PayoutRows(id, gl, clearing, amount, fee, at) == bank + fees + credit;
    NetOfMore(bank + fees, credit, account);
    NetOfMore(bank, fees, account);
    OneRowNet(p(gl, amount, 0), account);
    OneRowNet(p(FEES, fee, 0), account);
    OneRowNet(p(clearing, 0, amount + fee), account);
  }

  ghost predicate EntryPosted(b: Books, id: string)
  {
    exists i :: 0 <= i < |b.postings| && b.postings[i].payoutOf == Some(id)
  }

  /** What MatchPOSPayout asks of the line, the clearing account and the fee. */
  ghost predicate PayoutAnswers(b: Books, id: string, clearing: string, fee: int)
  {
    && Waiting(b, id) && b.lines[id].drCr == "Credit" && clearing in {"1101", "1102"} && fee >= 0
    && (fee > 0 && b.accounts[b.lines[id].bankAccount] == "5230" ==> b.lines[id].amount == 0)
    && (!EntryPosted(b, id) ==> b.lines[id].amount + fee <= AccountNet(b.postings, clearing))
  }

  lemma PayoutAllowedIs(b: Books, id: string, clearing: string, fee: int)
    ensures PayoutAnswers(b, id, clearing, fee)
            <==> Lock(b, id).Some? && PayoutAllowed(b, id, b.lines[id], clearing, fee)
  {
  }

  /**
    A POS payout that goes through for the first time moves the amount from clearing to the bank account and charges
    the fee to 5230, so that clearing pays both and never more than it holds: the entry balances on every account.
    Later it posts nothing.
   */
  lemma PayoutMovesTheMoney(b: Books, id: string, clearing: string, fee: int, at: int, account: string)
    requires MatchPayout(b, id, clearing, fee, at).Some?
    ensures var t, l := MatchPayout(b, id, clearing, fee, at).value, b.lines[id];
            && PayoutAnswers(b, id, clearing, fee)
            && t.lines == b.lines[id := l.(status := Matched, difference := 0,
                                           how := if clearing == "1101" then "payout:card" else "payout:upi")]
            && (if EntryPosted(b, id) then |t.postings| == |b.postings| && AccountNet(t.postings, account) == AccountNet(b.postings, account)
                else AccountNet(t.postings, account) - AccountNet(b.postings, account)
                     == Moves(account, b.accounts[l.bankAccount], clearing, l.amount, fee))
  {
    PayoutAllowedIs(b, id, clearing, fee);
    var l := b.lines[id];
    var gl := GL(b, l.bankAccount);
    var ps := AfterPayoutEntry(b, id, l, clearing, fee, at);
    var k := FindPayoutRow(ps, id, gl, |ps|).value;
    NetIgnoresLinks(ps, k, id, account);
    if !EntryPosted(b, id) {
      FoundRowPaysTheBank(b, id, clearing, fee, at, k);
      var rows := PayoutRows(id, gl, clearing, l.amount, fee, at);
      NetOfMore(b.postings, rows, account);
      EntryNet(id, gl, clearing, l.amount, fee, at, account);
    }
  }

  /** A row found of the entry just posted is a debit of the bank account, so the amount is not negative. */
  lemma FoundRowPaysTheBank(b: Books, id: string, clearing: string, fee: int, at: int, k: nat)
    requires id in b.lines && PayoutAllowed(b, id, b.lines[id], clearing, fee) && !PayoutPosted(b.postings, id)
    requires var ps := AfterPayoutEntry(b, id, b.lines[id], clearing, fee, at);
             FindPayoutRow(ps, id, GL(b, b.lines[id].bankAccount), |ps|) == Some(k)
    ensures b.lines[id].amount >= 0
  {
  }
}
