/**
  What every way of matching keeps: a matched line's linked postings sum, on the line's side, to its amount
  less the recorded difference; nothing is linked to a line that is not matched; and a line dated in a closed
  period keeps its row and its links.
 */
module BankInvariant {
  import opened Text
  import opened BankBooks
  import RuleMatch

  ghost function LinkedSum(ps: seq<Posting>, drCr: string, id: string): int
  {
    if ps == [] then 0
    else
      var p := ps[|ps| - 1];
      LinkedSum(ps[..|ps| - 1], drCr, id)
      + (if p.linked != Some(id) then 0 else if drCr == "Credit" then p.debit else p.credit)
  }

  ghost predicate LinkedAt(ps: seq<Posting>, k: int, id: string)
  {
    0 <= k < |ps| && ps[k].linked == Some(id)
  }

  /** Only the exact pass rounds, and by one paisa at most. */
  ghost function Slack(how: string): int { if how == "auto:exact" then 1 else 0 }

  /** A linked posting belongs to a matched line, sits on its bank account and is on its side. */
  ghost predicate PostingOk(b: Books, k: int)
    requires 0 <= k < |b.postings|
  {
    var p := b.postings[k];
    && 0 <= p.debit && 0 <= p.credit
    && (p.linked.Some? ==>
          && p.linked.value in b.lines && b.lines[p.linked.value].status == Matched
          && p.account == GL(b, b.lines[p.linked.value].bankAccount) && Side(b.lines[p.linked.value].drCr, p) != 0)
  }

  ghost predicate PostingsOk(b: Books) { forall k :: 0 <= k < |b.postings| ==> PostingOk(b, k) }

  /** A payout entry's bank row carries its line's amount. */
  ghost predicate PayoutRowOk(b: Books, p: Posting)
  {
    p.payoutOf.Some? ==>
      && p.payoutOf.value in b.lines
      && (p.account == GL(b, b.lines[p.payoutOf.value].bankAccount) && p.debit > 0 ==>
            p.debit == b.lines[p.payoutOf.value].amount)
  }

  ghost predicate PayoutsOk(b: Books) { forall k :: 0 <= k < |b.postings| ==> PayoutRowOk(b, b.postings[k]) }

  ghost predicate Balanced(ps: seq<Posting>, l: BankLine, id: string)
  {
    RuleMatch.Abs(LinkedSum(ps, l.drCr, id) + l.difference - l.amount) <= Slack(l.how)
  }

  ghost predicate LineOk(b: Books, id: string)
    requires id in b.lines
  {
    var l := b.lines[id];
    l.status == Matched ==>
      && Balanced(b.postings, l, id)
      && (exists k :: LinkedAt(b.postings, k, id))
      && (l.how == "auto:exact" ==> forall j, k :: LinkedAt(b.postings, j, id) && LinkedAt(b.postings, k, id) ==> j == k)
  }

  ghost predicate LinesOk(b: Books) { forall id :: id in b.lines ==> LineOk(b, id) }

  ghost predicate Inv(b: Books) { PostingsOk(b) && PayoutsOk(b) && LinesOk(b) }

  // ---- sums over linked postings ---------------------------------------------------------------

  /** Two books' links to one line agree on the first n postings, and later rows are not linked to it. */
  ghost predicate SameLinks(ps: seq<Posting>, qs: seq<Posting>, id: string)
  {
    && |ps| <= |qs|
    && (forall k :: 0 <= k < |ps| ==> SameRow(ps[k], qs[k]) && (ps[k].linked == Some(id) <==> qs[k].linked == Some(id)))
    && (forall k :: |ps| <= k < |qs| ==> qs[k].linked != Some(id))
  }

  /** Apart from its link the posting is the same. */
  ghost predicate SameRow(p: Posting, q: Posting) { p.(linked := None) == q.(linked := None) }

  lemma {:induction false} SameLinksSameSum(ps: seq<Posting>, qs: seq<Posting>, drCr: string, id: string)
    requires SameLinks(ps, qs, id)
    ensures LinkedSum(ps, drCr, id) == LinkedSum(qs, drCr, id)
    decreases |qs|
  {
    if qs != [] {
      var n := |qs| - 1;
      if |ps| == |qs| {
        SameLinksSameSum(ps[..n], qs[..n], drCr, id);
      } else {
        assert qs[n].linked != Some(id);
        SameLinksSameSum(ps, qs[..n], drCr, id);
      }
    }
  }

  lemma {:induction false} NothingLinkedSumsToZero(ps: seq<Posting>, drCr: string, id: string)
    requires forall k :: 0 <= k < |ps| ==> ps[k].linked != Some(id)
    ensures LinkedSum(ps, drCr, id) == 0
  {
    if ps != [] { NothingLinkedSumsToZero(ps[..|ps| - 1], drCr, id); }
  }

  lemma {:induction false} LinkSum(ps: seq<Posting>, k: nat, id: string, drCr: string)
    requires k < |ps|
    ensures LinkedSum(Link(ps, k, id), drCr, id) ==
            LinkedSum(ps, drCr, id) + (if ps[k].linked == Some(id) then 0 else Side(drCr, ps[k]))
  {
    var n := |ps| - 1;
    var t := Link(ps, k, id);
    if k == n {
      assert t[..n] == ps[..n];
    } else {
      assert t[..n] == Link(ps[..n], k, id);
      LinkSum(ps[..n], k, id, drCr);
    }
  }

  /** Taking one posting away from a line, whatever it is linked to now. */
  lemma {:induction false} RelinkSum(ps: seq<Posting>, k: nat, id: string, other: string, drCr: string)
    requires k < |ps| && ps[k].linked == Some(other) && other != id
    ensures LinkedSum(Link(ps, k, id), drCr, other) == LinkedSum(ps, drCr, other) - Side(drCr, ps[k])
  {
    var n := |ps| - 1;
    var t := Link(ps, k, id);
    if k == n {
      assert t[..n] == ps[..n];
    } else {
      assert t[..n] == Link(ps[..n], k, id);
      RelinkSum(ps[..n], k, id, other, drCr);
    }
  }

  ghost predicate Distinct(ks: seq<nat>) { forall i, j :: 0 <= i < j < |ks| ==> ks[i] != ks[j] }

  /** The postings after linking a list of ids: exactly the listed ones now point at the line. */
  lemma {:induction false} LinkAllRows(ps: seq<Posting>, ks: seq<nat>, id: string)
    requires forall i :: 0 <= i < |ks| ==> ks[i] < |ps|
    ensures forall k :: 0 <= k < |ps| ==>
              LinkAll(ps, ks, id)[k] == (if k in ks then ps[k].(linked := Some(id)) else ps[k])
  {
    if ks != [] {
      var init, last := ks[..|ks| - 1], ks[|ks| - 1];
      LinkAllRows(ps, init, id);
      assert ks == init + [last];
    }
  }

  ghost predicate AllFree(ps: seq<Posting>, ks: seq<nat>, drCr: string)
  {
    forall i :: 0 <= i < |ks| ==> ks[i] < |ps| && ps[ks[i]].linked.None? && Side(drCr, ps[ks[i]]) > 0
  }

  /** Linking a list adds its sum once per different posting: all of it exactly when no posting is listed twice. */
  lemma {:induction false} LinkAllSum(ps: seq<Posting>, ks: seq<nat>, id: string, drCr: string)
    requires AllFree(ps, ks, drCr)
    ensures LinkedSum(LinkAll(ps, ks, id), drCr, id) <= LinkedSum(ps, drCr, id) + SideSum(ps, drCr, ks)
    ensures LinkedSum(LinkAll(ps, ks, id), drCr, id) == LinkedSum(ps, drCr, id) + SideSum(ps, drCr, ks) <==> Distinct(ks)
  {
    if ks != [] {
      var init, last := ks[..|ks| - 1], ks[|ks| - 1];
      assert ks[|ks| - 1] == last;
      LinkAllSum(ps, init, id, drCr);
      LinkAllRows(ps, init, id);
      LinkSum(LinkAll(ps, init, id), last, id, drCr);
      DistinctStep(ks);
    }
  }

  lemma DistinctStep(ks: seq<nat>)
    requires ks != []
    ensures Distinct(ks) <==> Distinct(ks[..|ks| - 1]) && ks[|ks| - 1] !in ks[..|ks| - 1]
  {
    var n := |ks| - 1;
    if Distinct(ks[..n]) && ks[n] !in ks[..n] {
      forall i, j | 0 <= i < j < |ks| ensures ks[i] != ks[j] {
        assert ks[i] == ks[..n][i];
      }
    }
    if Distinct(ks) {
      assert forall i, j :: 0 <= i < j < n ==> ks[..n][i] == ks[i] && ks[..n][j] == ks[j];
    }
  }

  // ---- linking free postings to an open line -----------------------------------------------------

  ghost predicate Linkable(b: Books, id: string, ks: seq<nat>)
  {
    && id in b.lines && Open(b.lines[id]) && ks != []
    && (forall i :: 0 <= i < |ks| ==>
          && ks[i] < |b.postings| && b.postings[ks[i]].account == GL(b, b.lines[id].bankAccount)
          && b.postings[ks[i]].linked.None? && Side(b.lines[id].drCr, b.postings[ks[i]]) != 0)
  }

  ghost function Linked(b: Books, id: string, ks: seq<nat>, how: string, difference: int): Books
    requires Linkable(b, id, ks)
  {
    b.(postings := LinkAll(b.postings, ks, id), lines := b.lines[id := MarkMatched(b.lines[id], how, difference)])
  }

  lemma NothingLinkedToOpen(b: Books, id: string)
    requires PostingsOk(b) && id in b.lines && b.lines[id].status != Matched
    ensures forall k :: 0 <= k < |b.postings| ==> b.postings[k].linked != Some(id)
    ensures LinkedSum(b.postings, b.lines[id].drCr, id) == 0
  {
    forall k | 0 <= k < |b.postings| ensures b.postings[k].linked != Some(id) { assert PostingOk(b, k); }
    NothingLinkedSumsToZero(b.postings, b.lines[id].drCr, id);
  }

  lemma LinkableIsFree(b: Books, id: string, ks: seq<nat>)
    requires PostingsOk(b) && Linkable(b, id, ks)
    ensures AllFree(b.postings, ks, b.lines[id].drCr)
  {
    forall i | 0 <= i < |ks| ensures Side(b.lines[id].drCr, b.postings[ks[i]]) > 0 { assert PostingOk(b, ks[i]); }
  }

  lemma LinkedPostingsOk(b: Books, id: string, ks: seq<nat>, how: string, difference: int)
    requires PostingsOk(b) && PayoutsOk(b) && Linkable(b, id, ks)
    ensures PostingsOk(Linked(b, id, ks, how, difference)) && PayoutsOk(Linked(b, id, ks, how, difference))
  {
    var t := Linked(b, id, ks, how, difference);
    LinkAllRows(b.postings, ks, id);
    forall k | 0 <= k < |t.postings| ensures PostingOk(t, k) && PayoutRowOk(t, t.postings[k]) {
      assert PostingOk(b, k) && PayoutRowOk(b, b.postings[k]);
    }
  }

  lemma OtherLineOk(b: Books, t: Books, other: string)
    requires other in b.lines && other in t.lines && t.lines[other] == b.lines[other]
    requires LineOk(b, other) && SameLinks(b.postings, t.postings, other)
    ensures LineOk(t, other)
  {
    SameLinksSameSum(b.postings, t.postings, b.lines[other].drCr, other);
    if b.lines[other].status == Matched {
      var k :| LinkedAt(b.postings, k, other);
      assert LinkedAt(t.postings, k, other);
      forall j | LinkedAt(t.postings, j, other) ensures LinkedAt(b.postings, j, other) { }
    }
  }

  lemma LinkedOthersOk(b: Books, id: string, ks: seq<nat>, how: string, difference: int)
    requires Inv(b) && Linkable(b, id, ks)
    ensures var t := Linked(b, id, ks, how, difference); forall other :: other in t.lines && other != id ==> LineOk(t, other)
  {
    var t := Linked(b, id, ks, how, difference);
    LinkAllRows(b.postings, ks, id);
    forall other | other in t.lines && other != id ensures LineOk(t, other) {
      assert LineOk(b, other);
      forall k | 0 <= k < |b.postings|
        ensures SameRow(b.postings[k], t.postings[k])
        ensures b.postings[k].linked == Some(other) <==> t.postings[k].linked == Some(other)
      { }
      OtherLineOk(b, t, other);
    }
  }

  /** The line itself is in order exactly when the listed postings really are different ones. */
  lemma LinkedLineOkExactlyWhen(b: Books, id: string, ks: seq<nat>, how: string, difference: int)
    requires Inv(b) && Linkable(b, id, ks)
    requires how == "auto:exact" ==> |ks| == 1
    requires how != "auto:exact" ==> SideSum(b.postings, b.lines[id].drCr, ks) + difference == b.lines[id].amount
    requires how == "auto:exact" ==>
               RuleMatch.Abs(SideSum(b.postings, b.lines[id].drCr, ks) + difference - b.lines[id].amount) <= 1
    ensures LineOk(Linked(b, id, ks, how, difference), id) <==> Distinct(ks)
  {
    var t := Linked(b, id, ks, how, difference);
    LinkableIsFree(b, id, ks);
    LinkAllSum(b.postings, ks, id, b.lines[id].drCr);
    NothingLinkedToOpen(b, id);
    LinkedAre(b, id, ks);
    assert LinkedAt(t.postings, ks[0], id);
    if |ks| == 1 { assert Distinct(ks); }
  }

  /** The postings at the line are exactly the listed ones. */
  lemma LinkedAre(b: Books, id: string, ks: seq<nat>)
    requires PostingsOk(b) && Linkable(b, id, ks)
    ensures forall j :: LinkedAt(LinkAll(b.postings, ks, id), j, id) <==> 0 <= j < |b.postings| && j in ks
    ensures ks[0] in ks
  {
    LinkAllRows(b.postings, ks, id);
    NothingLinkedToOpen(b, id);
  }

  lemma LinkedKeepsInvExactlyWhen(b: Books, id: string, ks: seq<nat>, how: string, difference: int)
    requires Inv(b) && Linkable(b, id, ks)
    requires how == "auto:exact" ==> |ks| == 1
    requires how != "auto:exact" ==> SideSum(b.postings, b.lines[id].drCr, ks) + difference == b.lines[id].amount
    requires how == "auto:exact" ==>
               RuleMatch.Abs(SideSum(b.postings, b.lines[id].drCr, ks) + difference - b.lines[id].amount) <= 1
    ensures Inv(Linked(b, id, ks, how, difference)) <==> Distinct(ks)
  {
    LinkedPostingsOk(b, id, ks, how, difference);
    LinkedOthersOk(b, id, ks, how, difference);
    LinkedLineOkExactlyWhen(b, id, ks, how, difference);
    assert id in Linked(b, id, ks, how, difference).lines;
  }

  // ---- the manual match, the unmatch and the exception queue -----------------------------------------

  lemma MatchIsLinking(b: Books, id: string, ks: seq<nat>)
    requires MatchLine(b, id, ks).Some?
    ensures Linkable(b, id, ks) && MatchLine(b, id, ks).value == Linked(b, id, ks, "manual", 0)
    ensures SideSum(b.postings, b.lines[id].drCr, ks) == b.lines[id].amount
  {
    var l := b.lines[id];
    forall i | 0 <= i < |ks|
      ensures ks[i] < |b.postings| && b.postings[ks[i]].account == GL(b, l.bankAccount)
      ensures b.postings[ks[i]].linked.None? && Side(l.drCr, b.postings[ks[i]]) != 0
    { assert Choosable(b, l, ks[i]); }
  }

  /**
    A manual match adds its id list up before it links anything, so a list naming one posting twice
    counts it twice: the match keeps the books in order exactly when the ids differ.
   */
  lemma ManualMatchKeepsInvExactlyWhenIdsDiffer(b: Books, id: string, ks: seq<nat>)
    requires Inv(b) && MatchLine(b, id, ks).Some?
    ensures Inv(MatchLine(b, id, ks).value) <==> Distinct(ks)
  {
    MatchIsLinking(b, id, ks);
    LinkedKeepsInvExactlyWhen(b, id, ks, "manual", 0);
  }

  /** An unmatch frees exactly the line's own postings. */
  lemma UnmatchKeepsInv(b: Books, id: string)
    requires Inv(b) && UnmatchLine(b, id).Some?
    ensures Inv(UnmatchLine(b, id).value)
  {
    var t := UnmatchLine(b, id).value;
    forall k | 0 <= k < |t.postings| ensures PostingOk(t, k) && PayoutRowOk(t, t.postings[k]) {
      assert PostingOk(b, k) && PayoutRowOk(b, b.postings[k]);
    }
    forall other | other in t.lines ensures LineOk(t, other) {
      if other != id {
        assert LineOk(b, other);
        OtherLineOk(b, t, other);
      }
    }
  }

  /** The line's row may change as long as it is not matched before or after. */
  lemma OpenRowKeepsInv(b: Books, t: Books, id: string, l: BankLine)
    requires Inv(b) && id in b.lines && b.lines[id].status != Matched && l.status != Matched
    requires l.bankAccount == b.lines[id].bankAccount && l.amount == b.lines[id].amount
    requires t == b.(lines := b.lines[id := l])
    ensures Inv(t)
  {
    NothingLinkedToOpen(b, id);
    forall k | 0 <= k < |t.postings| ensures PostingOk(t, k) && PayoutRowOk(t, t.postings[k]) {
      assert PostingOk(b, k) && PayoutRowOk(b, b.postings[k]);
    }
    forall other | other in t.lines ensures LineOk(t, other) {
      if other != id { assert LineOk(b, other); }
    }
  }

  // ---- payouts --------------------------------------------------------------------------------------

  lemma MarketplaceKeepsInv(b: Books, id: string, batch: string)
    requires Inv(b) && MatchMarketplace(b, id, batch).Some?
    ensures Inv(MatchMarketplace(b, id, batch).value)
  {
    var l := b.lines[id];
    var ks := BatchPostings(b, GL(b, l.bankAccount), batch, |b.postings|);
    var how := "payout:marketplace:" + batch;
    assert how[0] == 'p' && "auto:exact"[0] == 'a';
    LinkedKeepsInvExactlyWhen(b, id, ks, how, 0);
  }

  lemma PayoutRowsAre(id: string, gl: string, clearing: string, amount: int, fee: int, at: int)
    requires 0 <= fee && PayoutBalances(gl, amount, fee)
    ensures var rows := PayoutRows(id, gl, clearing, amount, fee, at);
            forall i :: 0 <= i < |rows| ==>
              && 0 <= rows[i].debit && 0 <= rows[i].credit && rows[i].linked.None? && rows[i].payoutOf == Some(id)
              && (rows[i].account == gl && rows[i].debit > 0 ==> rows[i].debit == (if fee > 0 && gl == FEES then fee else amount))
  {
  }

  /** Adding unlinked rows leaves every line's links as they were. */
  lemma AddedRowsKeepInv(b: Books, rows: seq<Posting>)
    requires Inv(b)
    requires forall i :: 0 <= i < |rows| ==>
               0 <= rows[i].debit && 0 <= rows[i].credit && rows[i].linked.None? && PayoutRowOk(b, rows[i])
    ensures Inv(b.(postings := b.postings + rows))
  {
    var t := b.(postings := b.postings + rows);
    forall k | 0 <= k < |t.postings| ensures PostingOk(t, k) && PayoutRowOk(t, t.postings[k]) {
      if k < |b.postings| { assert PostingOk(b, k) && PayoutRowOk(b, b.postings[k]); }
      else { assert t.postings[k] == rows[k - |b.postings|]; }
    }
    forall other | other in t.lines ensures LineOk(t, other) {
      assert LineOk(b, other);
      OtherLineOk(b, t, other);
    }
  }

  /** What a caller can look up before booking a POS payout. */
  ghost predicate PayoutIsSafe(b: Books, id: string, fee: int)
    requires id in b.lines
  {
    var gl := GL(b, b.lines[id].bankAccount);
    && !(fee > 0 && gl == FEES)
    && (forall r :: FindPayoutRow(b.postings, id, gl, |b.postings|) == Some(r) ==> b.postings[r].linked.None?)
  }

  /** The posting the payout finds: an old one, or a row of the entry it has just posted. */
  lemma PayoutRowFound(b: Books, id: string, clearing: string, fee: int, at: int, k: nat)
    requires id in b.lines && PayoutAllowed(b, id, b.lines[id], clearing, fee)
    requires var l := b.lines[id]; var ps := AfterPayoutEntry(b, id, l, clearing, fee, at);
             FindPayoutRow(ps, id, GL(b, l.bankAccount), |ps|) == Some(k)
    ensures PayoutPosted(b.postings, id) ==>
              k < |b.postings| && FindPayoutRow(b.postings, id, GL(b, b.lines[id].bankAccount), |b.postings|) == Some(k)
    ensures !PayoutPosted(b.postings, id) ==>
              k >= |b.postings| && FindPayoutRow(b.postings, id, GL(b, b.lines[id].bankAccount), |b.postings|) == None
  {
    if !PayoutPosted(b.postings, id) {
      assert forall i :: 0 <= i < |b.postings| ==> b.postings[i].payoutOf != Some(id);
    }
  }

  ghost function AfterEntry(b: Books, id: string, clearing: string, fee: int, at: int): Books
    requires id in b.lines
  {
    b.(postings := AfterPayoutEntry(b, id, b.lines[id], clearing, fee, at))
  }

  lemma EntryKeepsInv(b: Books, id: string, clearing: string, fee: int, at: int)
    requires Inv(b) && id in b.lines && PayoutAllowed(b, id, b.lines[id], clearing, fee)
    requires !(fee > 0 && GL(b, b.lines[id].bankAccount) == FEES)
    ensures Inv(AfterEntry(b, id, clearing, fee, at))
  {
    var l := b.lines[id];
    if !PayoutPosted(b.postings, id) {
      PayoutRowsAre(id, GL(b, l.bankAccount), clearing, l.amount, fee, at);
      AddedRowsKeepInv(b, PayoutRows(id, GL(b, l.bankAccount), clearing, l.amount, fee, at));
    }
  }

  /** A safe payout: its own row is free, on the bank account, and carries the line's amount. */
  lemma SafePayoutKeepsInv(b: Books, id: string, clearing: string, fee: int, at: int)
    requires Inv(b) && MatchPayout(b, id, clearing, fee, at).Some? && PayoutIsSafe(b, id, fee)
    ensures Inv(MatchPayout(b, id, clearing, fee, at).value)
  {
    var l := b.lines[id];
    var e := AfterEntry(b, id, clearing, fee, at);
    var gl := GL(b, l.bankAccount);
    var k := FindPayoutRow(e.postings, id, gl, |e.postings|).value;
    EntryKeepsInv(b, id, clearing, fee, at);
    PayoutRowFound(b, id, clearing, fee, at, k);
    PayoutRowsAre(id, gl, clearing, l.amount, fee, at);
    assert PayoutRowOk(e, e.postings[k]);
    assert e.postings[k].linked.None?;
    SingleLink(e, id, k, if clearing == "1101" then "payout:card" else "payout:upi", 0);
  }

  lemma SingleLink(b: Books, id: string, k: nat, how: string, difference: int)
    requires Inv(b) && Linkable(b, id, [k]) && k < |b.postings|
    requires RuleMatch.Abs(Side(b.lines[id].drCr, b.postings[k]) + difference - b.lines[id].amount) <= Slack(how)
    ensures Inv(LinkPair(b, Pair(id, k, how, difference)))
  {
    assert SideSum(b.postings, b.lines[id].drCr, [k]) == Side(b.lines[id].drCr, b.postings[k]) by {
      assert [k][..0] == [];
    }
    LinkedKeepsInvExactlyWhen(b, id, [k], how, difference);
    assert LinkAll(b.postings, [k], id) == Link(b.postings, k, id) by { assert [k][..0] == []; }
  }

  /** Relinking a posting that another line holds leaves that line short. */
  lemma RelinkBreaksInv(b: Books, t: Books, k: nat, id: string, other: string)
    requires Inv(b) && k < |b.postings| && b.postings[k].linked == Some(other) && other != id
    requires t.postings == Link(b.postings, k, id)
    requires other in b.lines && other in t.lines && t.lines[other] == b.lines[other]
    ensures !Inv(t)
  {
    assert PostingOk(b, k) && LineOk(b, other);
    var l := b.lines[other];
    RelinkSum(b.postings, k, id, other, l.drCr);
    assert LinkedAt(b.postings, k, other);
    if Inv(t) {
      assert LineOk(t, other);
      var j :| LinkedAt(t.postings, j, other);
      assert LinkedAt(b.postings, j, other) && j != k;
    }
  }

  /** A payout charged to the bank's own fee account: the row found carries the fee, not the amount. */
  lemma FeeAccountPayoutBreaksInv(b: Books, id: string, clearing: string, fee: int, at: int)
    requires Inv(b) && MatchPayout(b, id, clearing, fee, at).Some?
    requires fee > 0 && GL(b, b.lines[id].bankAccount) == FEES
    ensures !Inv(MatchPayout(b, id, clearing, fee, at).value)
  {
    var l := b.lines[id];
    var e := AfterEntry(b, id, clearing, fee, at);
    var k := FindPayoutRow(e.postings, id, FEES, |e.postings|).value;
    FeeRowFound(b, id, clearing, fee, at, k);
    NothingLinkedSumsToZero(e.postings, l.drCr, id);
    LinkSum(e.postings, k, id, l.drCr);
    var t := MatchPayout(b, id, clearing, fee, at).value;
    assert LinkedSum(t.postings, l.drCr, id) == fee;
    assert !LineOk(t, id);
  }

  lemma FeeRowFound(b: Books, id: string, clearing: string, fee: int, at: int, k: nat)
    requires Inv(b) && MatchPayout(b, id, clearing, fee, at).Some?
    requires fee > 0 && GL(b, b.lines[id].bankAccount) == FEES
    requires var e := AfterEntry(b, id, clearing, fee, at); FindPayoutRow(e.postings, id, FEES, |e.postings|) == Some(k)
    ensures var e := AfterEntry(b, id, clearing, fee, at);
            && k < |e.postings| && e.postings[k].debit == fee && b.lines[id].amount == 0
            && forall j :: 0 <= j < |e.postings| ==> e.postings[j].linked != Some(id)
  {
    var l := b.lines[id];
    PayoutRowFound(b, id, clearing, fee, at, k);
    assert !PayoutPosted(b.postings, id) by { assert forall i :: 0 <= i < |b.postings| ==> PayoutRowOk(b, b.postings[i]); }
    PayoutRowsAre(id, FEES, clearing, l.amount, fee, at);
    NothingLinkedToOpen(b, id);
  }

  /**
    MatchPOSPayout relinks the row it finds whatever it was linked to, and it charges the fee to 5230 even when
    that is the bank's own account: it keeps the books in order exactly when neither happens.
   */
  lemma PayoutKeepsInvExactlyWhenSafe(b: Books, id: string, clearing: string, fee: int, at: int)
    requires Inv(b) && MatchPayout(b, id, clearing, fee, at).Some?
    ensures Inv(MatchPayout(b, id, clearing, fee, at).value) <==> PayoutIsSafe(b, id, fee)
  {
    var gl := GL(b, b.lines[id].bankAccount);
    if PayoutIsSafe(b, id, fee) {
      SafePayoutKeepsInv(b, id, clearing, fee, at);
    } else if fee > 0 && gl == FEES {
      FeeAccountPayoutBreaksInv(b, id, clearing, fee, at);
    } else {
      var e := AfterEntry(b, id, clearing, fee, at);
      var k := FindPayoutRow(e.postings, id, gl, |e.postings|).value;
      PayoutRowFound(b, id, clearing, fee, at, k);
      EntryKeepsInv(b, id, clearing, fee, at);
      NothingLinkedToOpen(b, id);
      assert PostingOk(b, k);
      RelinkBreaksInv(e, MatchPayout(b, id, clearing, fee, at).value, k, id, b.postings[k].linked.value);
    }
  }

  // ---- books the three steps break ---------------------------------------------------------------------

  const CREDIT_LINE := BankLine("acc", "Credit", "", None, 200, Unmatched, "", 0)

  /** A line of 200 matched by naming one posting of 100 twice. */
  lemma RepeatedIdBreaksTheBooks()
    ensures var b := Books(map["l" := CREDIT_LINE], [Posting("1001", 100, 0, "", "", 0, None, None)], map["acc" := "1001"], [], map[]);
            Inv(b) && MatchLine(b, "l", [0, 0]).Some? && !Inv(MatchLine(b, "l", [0, 0]).value)
  {
    var b := Books(map["l" := CREDIT_LINE], [Posting("1001", 100, 0, "", "", 0, None, None)], map["acc" := "1001"], [], map[]);
    var ks: seq<nat> := [0, 0];
    assert ks[..1] == [0] && ks[..1][..0] == [];
    assert Side("Credit", b.postings[0]) == 100;
    assert SideSum(b.postings, "Credit", []) == 0;
    assert SideSum(b.postings, "Credit", [0]) == 100;
    assert SideSum(b.postings, "Credit", ks) == SideSum(b.postings, "Credit", ks[..1]) + 100;
    assert MatchLine(b, "l", ks).Some?;
    ManualMatchKeepsInvExactlyWhenIdsDiffer(b, "l", ks);
    assert ks[0] == ks[1];
  }

  /** A payout of nothing but a fee, on a bank account kept on the fee account itself. */
  lemma FeeOnItsOwnAccountBreaksTheBooks()
    ensures var b := Books(map["l" := CREDIT_LINE.(amount := 0)], [Posting("1101", 5, 0, "", "", 0, None, None)], map["acc" := FEES], [], map[]);
            var r := MatchPayout(b, "l", "1101", 5, 0);
            Inv(b) && r.Some? && !Inv(r.value)
  {
    var b := Books(map["l" := CREDIT_LINE.(amount := 0)], [Posting("1101", 5, 0, "", "", 0, None, None)], map["acc" := FEES], [], map[]);
    var l := b.lines["l"];
    assert b.postings[..0] == [] && AccountNet(b.postings, "1101") == 5;
    var ps := AfterPayoutEntry(b, "l", l, "1101", 5, 0);
    var n := |ps|;
    assert ps[1] == Posting(FEES, 5, 0, "BankStatementLine", "l", 0, Some("l"), None) && ps[2].account == "1101";
    assert FindPayoutRow(ps, "l", FEES, 1) == None && FindPayoutRow(ps, "l", FEES, 2) == Some(1);
    assert FindPayoutRow(ps, "l", FEES, n) == Some(1);
    PayoutKeepsInvExactlyWhenSafe(b, "l", "1101", 5, 0);
  }

  /** A payout whose bank row was freed and then matched to another line of the same amount takes it away again. */
  lemma PayoutTakesAMatchedRow()
    ensures var b := Books(map["l" := CREDIT_LINE, "m" := CREDIT_LINE.(status := Matched, how := "manual")],
                           [Posting("1001", 200, 0, "", "", 0, Some("l"), Some("m"))], map["acc" := "1001"], [], map[]);
            var r := MatchPayout(b, "l", "1101", 0, 0);
            Inv(b) && r.Some? && !Inv(r.value)
  {
    var b := Books(map["l" := CREDIT_LINE, "m" := CREDIT_LINE.(status := Matched, how := "manual")],
                   [Posting("1001", 200, 0, "", "", 0, Some("l"), Some("m"))], map["acc" := "1001"], [], map[]);
    assert b.postings[..0] == [] && LinkedSum(b.postings, "Credit", "m") == 200 && LinkedAt(b.postings, 0, "m");
    assert b.postings[0].payoutOf == Some("l");
    assert FindPayoutRow(b.postings, "l", "1001", 1) == Some(0);
    PayoutKeepsInvExactlyWhenSafe(b, "l", "1101", 0, 0);
  }
}
