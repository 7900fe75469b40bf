/** The automatic passes, whole runs, and the lines a closed period freezes. */
module BankTheorems {
  import opened Text
  import opened BankBooks
  import opened BankInvariant
  import RuleMatch

  // ---- a list of pairs, applied one by one ---------------------------------------------------------

  /** The pair joins an open line and a free posting of its bank account that leaves exactly the recorded difference. */
  ghost predicate PairOk(b: Books, p: Pair)
  {
    && Linkable(b, p.line, [p.posting]) && p.posting < |b.postings| && !Frozen(b.closed, b.lines[p.line].day)
    && RuleMatch.Abs(Side(b.lines[p.line].drCr, b.postings[p.posting]) + p.difference - b.lines[p.line].amount) <= Slack(p.how)
  }

  ghost predicate PairsOk(b: Books, pairs: seq<Pair>)
  {
    && (forall i :: 0 <= i < |pairs| ==> PairOk(b, pairs[i]))
    && (forall i, j :: 0 <= i < j < |pairs| ==> pairs[i].line != pairs[j].line && pairs[i].posting != pairs[j].posting)
  }

  /** What the pairs do not mention stays as it was. */
  ghost predicate OnlyPaired(b: Books, t: Books, pairs: seq<Pair>)
    requires |t.postings| == |b.postings| && t.lines.Keys == b.lines.Keys
  {
    && t.accounts == b.accounts && t.closed == b.closed
    && (forall k :: 0 <= k < |b.postings| && (forall i :: 0 <= i < |pairs| ==> pairs[i].posting != k) ==>
          t.postings[k] == b.postings[k])
    && (forall id :: id in b.lines && (forall i :: 0 <= i < |pairs| ==> pairs[i].line != id) ==> t.lines[id] == b.lines[id])
  }

  lemma {:induction false} LinkPairsOnlyPaired(b: Books, pairs: seq<Pair>)
    requires PairsInRange(b, pairs)
    ensures OnlyPaired(b, LinkPairs(b, pairs), pairs)
  {
    if pairs != [] {
      var init, p := pairs[..|pairs| - 1], pairs[|pairs| - 1];
      LinkPairsOnlyPaired(b, init);
      assert forall i :: 0 <= i < |init| ==> pairs[i] == init[i];
    }
  }

  lemma {:induction false} LinkPairsKeepsInv(b: Books, pairs: seq<Pair>)
    requires Inv(b) && PairsOk(b, pairs)
    ensures PairsInRange(b, pairs) && Inv(LinkPairs(b, pairs))
  {
    forall i | 0 <= i < |pairs| ensures pairs[i].posting < |b.postings| && pairs[i].line in b.lines { assert PairOk(b, pairs[i]); }
    if pairs != [] {
      var init, p := pairs[..|pairs| - 1], pairs[|pairs| - 1];
      InitPairsOk(b, pairs);
      LinkPairsKeepsInv(b, init);
      LinkPairsOnlyPaired(b, init);
      PairStillOk(b, LinkPairs(b, init), init, p);
      SingleLink(LinkPairs(b, init), p.line, p.posting, p.how, p.difference);
    }
  }

  lemma InitPairsOk(b: Books, pairs: seq<Pair>)
    requires pairs != [] && PairsOk(b, pairs)
    ensures PairsOk(b, pairs[..|pairs| - 1]) && PairOk(b, pairs[|pairs| - 1])
    ensures forall q :: q in pairs[..|pairs| - 1] ==> q.line != pairs[|pairs| - 1].line && q.posting != pairs[|pairs| - 1].posting
  {
  }

  /** Pairs on other lines and postings leave a pair as it was. */
  lemma PairStillOk(b: Books, t: Books, pairs: seq<Pair>, p: Pair)
    requires |t.postings| == |b.postings| && t.lines.Keys == b.lines.Keys && OnlyPaired(b, t, pairs)
    requires PairOk(b, p) && forall q :: q in pairs ==> q.line != p.line && q.posting != p.posting
    ensures PairOk(t, p) && t.lines[p.line] == b.lines[p.line] && t.postings[p.posting] == b.postings[p.posting]
  {
    assert [p.posting][0] == p.posting;
    assert t.postings[p.posting] == b.postings[p.posting] && t.lines[p.line] == b.lines[p.line];
    assert GL(t, b.lines[p.line].bankAccount) == GL(b, b.lines[p.line].bankAccount);
  }

  // ---- the rule pass ------------------------------------------------------------------------------------

  ghost function PairOf(d: RuleMatch.Decision): Pair
    requires d.outcome.Matched?
  {
    Pair(d.line, d.outcome.posting, d.outcome.how, d.outcome.difference)
  }

  ghost predicate DecisionsOk(b: Books, ds: seq<RuleMatch.Decision>)
  {
    && (forall k :: 0 <= k < |ds| && ds[k].outcome.Matched? ==> PairOk(b, PairOf(ds[k])))
    && (forall j, k :: 0 <= j < k < |ds| ==> ds[j].line != ds[k].line)
    && (forall j, k :: 0 <= j < k < |ds| && ds[j].outcome.Matched? && ds[k].outcome.Matched? ==>
          ds[j].outcome.posting != ds[k].outcome.posting)
  }

  lemma {:induction false} PairsOfOk(b: Books, ds: seq<RuleMatch.Decision>)
    requires DecisionsOk(b, ds)
    ensures PairsOk(b, PairsOf(ds))
    ensures forall p :: p in PairsOf(ds) ==> exists k :: Decided(ds, k, p)
  {
    if ds != [] {
      var n := |ds| - 1;
      var init := ds[..n];
      assert DecisionsOk(b, init);
      PairsOfOk(b, init);
      forall p | p in PairsOf(init) ensures exists k :: k < n && Decided(ds, k, p) {
        var k :| Decided(init, k, p);
        assert Decided(ds, k, p);
      }
      if ds[n].outcome.Matched? {
        assert Decided(ds, n, PairOf(ds[n]));
        assert PairsOf(ds) == PairsOf(init) + [PairOf(ds[n])];
        forall i | 0 <= i < |PairsOf(init)|
          ensures PairsOf(init)[i].line != ds[n].line && PairsOf(init)[i].posting != ds[n].outcome.posting
        {
          assert PairsOf(init)[i] in PairsOf(init);
        }
      } else {
        assert PairsOf(ds) == PairsOf(init);
      }
    }
  }

  ghost predicate Decided(ds: seq<RuleMatch.Decision>, k: int, p: Pair)
  {
    0 <= k < |ds| && ds[k].outcome.Matched? && p == PairOf(ds[k])
  }

  lemma FittingDecisionIsPair(b: Books, account: string, rule: RuleMatch.Rule, lines: seq<string>, free: seq<nat>,
                              k: nat, d: RuleMatch.Decision)
    requires OpenListing(b, account, lines) && FreeListing(b, GL(b, account), free) && k < |lines|
    requires d.line == lines[k] && d.outcome.Matched?
    requires RuleMatch.FitsSome(rule, LineRows(b, lines)[k], BookRows(b, free), d.outcome)
    requires d.outcome.how != "auto:exact"
    ensures PairOk(b, PairOf(d))
  {
    var book, l := BookRows(b, free), LineRows(b, lines)[k];
    var i :| 0 <= i < |book| && book[i].id == d.outcome.posting && RuleMatch.Compatible(rule, l, book[i])
             && d.outcome.difference == l.amount - RuleMatch.SideOf(l, book[i]);
    assert book[i].id == free[i];
  }

  /** The rule pass never calls itself the exact pass. */
  lemma {:induction false} PassHow(rule: RuleMatch.Rule, lines: seq<RuleMatch.LineRow>, book: seq<RuleMatch.BookRow>)
    ensures forall d :: d in RuleMatch.Pass(rule, lines, book).0 && d.outcome.Matched? ==> d.outcome.how != "auto:exact"
  {
    if lines != [] {
      var init, l := lines[..|lines| - 1], lines[|lines| - 1];
      PassHow(rule, init, book);
      var (before, used) := RuleMatch.Pass(rule, init, book);
      ChooseHow(rule, l, RuleMatch.Keep(rule, l, RuleMatch.Usable(used), book));
      assert RuleMatch.Pass(rule, lines, book).0 == before + [RuleMatch.Decision(l.id, RuleMatch.Decide(rule, l, book, used))];
    }
  }

  lemma ChooseHow(rule: RuleMatch.Rule, l: RuleMatch.LineRow, cands: seq<RuleMatch.BookRow>)
    ensures var o := RuleMatch.Choose(rule, l, cands); o.Matched? ==> o.how != "auto:exact"
  {
    var o := RuleMatch.Choose(rule, l, cands);
    assert o.Matched? ==> o.how == "rule:reference" || o.how == "rule:amount-date" || o.how == "rule:exact-amount";
    assert o.Matched? ==> o.how[0] == 'r';
    assert "auto:exact"[0] == 'a';
  }

  lemma RuleDecisionsOk(b: Books, account: string, rule: RuleMatch.Rule, lines: seq<string>, free: seq<nat>)
    requires OpenListing(b, account, lines) && FreeListing(b, GL(b, account), free)
    ensures DecisionsOk(b, RuleMatch.Pass(rule, LineRows(b, lines), BookRows(b, free)).0)
  {
    var rows, book := LineRows(b, lines), BookRows(b, free);
    var (ds, used) := RuleMatch.Pass(rule, rows, book);
    RuleMatch.PassIsSound(rule, rows, book);
    PassHow(rule, rows, book);
    forall k | 0 <= k < |ds| && ds[k].outcome.Matched? ensures PairOk(b, PairOf(ds[k])) {
      FittingDecisionIsPair(b, account, rule, lines, free, k, ds[k]);
    }
    forall j, k | 0 <= j < k < |ds| && ds[j].outcome.Matched? && ds[k].outcome.Matched?
      ensures ds[j].outcome.posting != ds[k].outcome.posting
    {
      assert RuleMatch.UsesPosting(ds, j, ds[j].outcome.posting);
      assert !RuleMatch.UsesPosting(ds, k, ds[j].outcome.posting);
    }
  }

  lemma RulePairsOk(b: Books, account: string, rule: RuleMatch.Rule, lines: seq<string>, free: seq<nat>)
    requires OpenListing(b, account, lines) && FreeListing(b, GL(b, account), free)
    ensures PairsOk(b, RulePairs(b, rule, lines, free))
  {
    RuleDecisionsOk(b, account, rule, lines, free);
    PairsOfOk(b, RuleMatch.Pass(rule, LineRows(b, lines), BookRows(b, free)).0);
  }

  // ---- the exact pass -----------------------------------------------------------------------------------

  /** What the greedy pass has made of a listing's first lines. */
  ghost predicate ExactOk(b: Books, lines: seq<string>, free: seq<nat>, pairs: seq<Pair>, used: set<nat>)
    requires forall i :: 0 <= i < |lines| ==> lines[i] in b.lines
    requires forall i :: 0 <= i < |free| ==> free[i] < |b.postings|
  {
    && (forall k :: k in used <==> exists i :: 0 <= i < |pairs| && pairs[i].posting == k)
    && (forall i :: 0 <= i < |pairs| ==> pairs[i].line in lines)
    && (forall id, i :: id in lines && (forall j :: 0 <= j < |pairs| ==> pairs[j].line != id)
                          && 0 <= i < |free| && free[i] !in used ==>
                          !ExactFit(b.lines[id], b.postings[free[i]]))
  }

  lemma {:induction false} ExactPairsSound(b: Books, account: string, lines: seq<string>, free: seq<nat>)
    requires OpenListing(b, account, lines) && FreeListing(b, GL(b, account), free)
    ensures ExactOk(b, lines, free, ExactPairs(b, lines, free).0, ExactPairs(b, lines, free).1)
  {
    if lines != [] {
      var init, id := lines[..|lines| - 1], lines[|lines| - 1];
      ExactPairsSound(b, account, init, free);
      var (before, used) := ExactPairs(b, init, free);
      match FirstFit(b, b.lines[id], free, used)
      case None => ExactMiss(b, lines, free, before, used, id);
      case Some(k) => ExactStep(b, lines, free, before, used, before + [Pair(id, k, "auto:exact", 0)], id, k);
    }
  }

  lemma ExactPairOk(b: Books, account: string, lines: seq<string>, free: seq<nat>, id: string, k: nat)
    requires OpenListing(b, account, lines) && FreeListing(b, GL(b, account), free) && id in lines && k in free
    requires ExactFit(b.lines[id], b.postings[k])
    ensures PairOk(b, Pair(id, k, "auto:exact", 0))
  {
  }

  lemma {:induction false} ExactPairsOk(b: Books, account: string, lines: seq<string>, free: seq<nat>)
    requires OpenListing(b, account, lines) && FreeListing(b, GL(b, account), free)
    ensures PairsOk(b, ExactPairs(b, lines, free).0)
  {
    if lines != [] {
      var init, id := lines[..|lines| - 1], lines[|lines| - 1];
      ExactPairsOk(b, account, init, free);
      ExactPairsSound(b, account, init, free);
      var (before, used) := ExactPairs(b, init, free);
      match FirstFit(b, b.lines[id], free, used)
      case None =>
      case Some(k) =>
        ExactPairOk(b, account, lines, free, id, k);
        NewPairOk(b, init, free, before, used, Pair(id, k, "auto:exact", 0));
    }
  }

  lemma NewPairOk(b: Books, lines: seq<string>, free: seq<nat>, before: seq<Pair>, used: set<nat>, p: Pair)
    requires (forall i :: 0 <= i < |lines| ==> lines[i] in b.lines) && (forall i :: 0 <= i < |free| ==> free[i] < |b.postings|)
    requires PairsOk(b, before) && ExactOk(b, lines, free, before, used) && PairOk(b, p) && p.line !in lines && p.posting !in used
    ensures PairsOk(b, before + [p])
  {
    forall i | 0 <= i < |before| ensures before[i].line != p.line && before[i].posting != p.posting {
      assert before[i].posting in used;
    }
  }

  lemma ExactMiss(b: Books, lines: seq<string>, free: seq<nat>, before: seq<Pair>, used: set<nat>, id: string)
    requires forall i :: 0 <= i < |lines| ==> lines[i] in b.lines
    requires forall i :: 0 <= i < |free| ==> free[i] < |b.postings|
    requires lines != [] && id == lines[|lines| - 1] && ExactOk(b, lines[..|lines| - 1], free, before, used)
    requires FirstFit(b, b.lines[id], free, used).None?
    ensures ExactOk(b, lines, free, before, used)
  {
    assert lines == lines[..|lines| - 1] + [id];
  }

  lemma ExactStep(b: Books, lines: seq<string>, free: seq<nat>, before: seq<Pair>, used: set<nat>, pairs: seq<Pair>,
                  id: string, k: nat)
    requires forall i :: 0 <= i < |lines| ==> lines[i] in b.lines
    requires forall i :: 0 <= i < |free| ==> free[i] < |b.postings|
    requires lines != [] && id == lines[|lines| - 1]
    requires ExactOk(b, lines[..|lines| - 1], free, before, used)
    requires pairs == before + [Pair(id, k, "auto:exact", 0)]
    ensures ExactOk(b, lines, free, pairs, used + {k})
  {
    var init := lines[..|lines| - 1];
    assert lines == init + [id];
    assert pairs[|before|].posting == k && pairs[|before|].line == id;
    assert forall i :: 0 <= i < |before| ==> pairs[i] == before[i];
    forall x ensures x in used + {k} <==> exists i :: 0 <= i < |pairs| && pairs[i].posting == x {
      if x in used { var i :| 0 <= i < |before| && before[i].posting == x; assert pairs[i].posting == x; }
    }
    forall other | other in lines && (forall j :: 0 <= j < |pairs| ==> pairs[j].line != other)
      ensures other in init && forall j :: 0 <= j < |before| ==> before[j].line != other
    {
      forall j | 0 <= j < |before| ensures before[j].line != other { assert pairs[j].line != other; }
    }
  }

  /** The free posting at x is the first that fits the line and is not used. */
  ghost predicate FirstFree(b: Books, id: string, free: seq<nat>, used: set<nat>, x: int)
    requires id in b.lines && forall i :: 0 <= i < |free| ==> free[i] < |b.postings|
  {
    && 0 <= x < |free| && free[x] !in used && WithinAPaisa(b.lines[id], b.postings[free[x]])
    && forall y :: 0 <= y < x && free[y] !in used ==> !WithinAPaisa(b.lines[id], b.postings[free[y]])
  }

  lemma {:induction false} FirstFitIsFirst(b: Books, id: string, free: seq<nat>, used: set<nat>)
    requires id in b.lines && forall i :: 0 <= i < |free| ==> free[i] < |b.postings|
    ensures match FirstFit(b, b.lines[id], free, used)
            case Some(k) => exists x :: FirstFree(b, id, free, used, x) && free[x] == k
            case None => forall x :: !FirstFree(b, id, free, used, x)
  {
    if free != [] && (free[0] in used || !ExactFit(b.lines[id], b.postings[free[0]])) {
      FirstFitIsFirst(b, id, free[1..], used);
      if FirstFit(b, b.lines[id], free, used).Some? {
        var x :| FirstFree(b, id, free[1..], used, x);
        assert forall y :: 1 <= y < x + 1 ==> free[y] == free[1..][y - 1];
        assert FirstFree(b, id, free, used, x + 1);
      }
    } else if free != [] {
      assert FirstFree(b, id, free, used, 0);
    }
  }

  /** The postings of the pairs before the nth. */
  ghost function UsedUp(pairs: seq<Pair>, n: nat): set<nat>
    requires n <= |pairs|
  {
    set i | 0 <= i < n :: pairs[i].posting
  }

  /** Each pair of the greedy pass takes the first posting, in the order read, that fits its line and that no earlier pair took. */
  lemma {:induction false} PairsAreFirstFits(b: Books, lines: seq<string>, free: seq<nat>, n: nat)
    requires forall i :: 0 <= i < |lines| ==> lines[i] in b.lines
    requires forall i :: 0 <= i < |free| ==> free[i] < |b.postings|
    requires n < |ExactPairs(b, lines, free).0|
    ensures var (pairs, used) := ExactPairs(b, lines, free);
            && used == UsedUp(pairs, |pairs|)
            && pairs[n].line in lines && pairs[n].how == "auto:exact" && pairs[n].difference == 0
            && exists x :: FirstFree(b, pairs[n].line, free, UsedUp(pairs, n), x) && free[x] == pairs[n].posting
  {
    var init, id := lines[..|lines| - 1], lines[|lines| - 1];
    var (before, used) := ExactPairs(b, init, free);
    var (pairs, after) := ExactPairs(b, lines, free);
    if before != [] { PairsAreFirstFits(b, init, free, if n < |before| then n else 0); } else { NoPairsUseNothing(b, init, free); }
    FirstFitIsFirst(b, id, free, used);
    assert pairs[..|before|] == before;
    assert UsedUp(pairs, |before|) == UsedUp(before, |before|);
    if n < |before| {
      assert pairs[n] == before[n] && UsedUp(pairs, n) == UsedUp(before, n);
    }
    if |pairs| > |before| { assert UsedUp(pairs, |pairs|) == UsedUp(pairs, |before|) + {pairs[|before|].posting}; }
  }

  lemma {:induction false} NoPairsUseNothing(b: Books, lines: seq<string>, free: seq<nat>)
    requires forall i :: 0 <= i < |lines| ==> lines[i] in b.lines
    requires forall i :: 0 <= i < |free| ==> free[i] < |b.postings|
    requires ExactPairs(b, lines, free).0 == []
    ensures ExactPairs(b, lines, free).1 == {}
  {
    if lines != [] { NoPairsUseNothing(b, lines[..|lines| - 1], free); }
  }

  predicate Listed(b: Books, account: string, l: BankLine)
  {
    l.bankAccount == account && Open(l) && !Frozen(b.closed, l.day)
  }

  /** The two queries leave nothing out. */
  ghost predicate CompleteListings(b: Books, account: string, lines: seq<string>, free: seq<nat>)
  {
    && (forall id :: id in b.lines && Listed(b, account, b.lines[id]) ==> id in lines)
    && (forall k :: 0 <= k < |b.postings| && b.postings[k].account == GL(b, account) && b.postings[k].linked.None? ==> k in free)
  }

  /** Within a paisa of the line on the side it takes, and within 72 hours of its date. */
  ghost predicate WithinAPaisa(l: BankLine, p: Posting)
  {
    var side := if l.drCr == "Credit" then p.debit else p.credit;
    && side != 0 && -1 <= side - l.amount <= 1
    && (l.day.Some? ==> -72 * 3600 <= p.at - l.day.value * 24 * 3600 <= 72 * 3600)
  }

  /**
    The greedy pass is maximal: after it, no open line of the account fits a free posting of its GL account.
   */
  lemma ExactPassIsMaximal(b: Books, account: string, lines: seq<string>, free: seq<nat>, id: string, k: nat)
    requires OpenListing(b, account, lines) && FreeListing(b, GL(b, account), free)
    requires CompleteListings(b, account, lines, free) && PairsInRange(b, ExactPairs(b, lines, free).0)
    requires var t := LinkPairs(b, ExactPairs(b, lines, free).0);
             && id in t.lines && Listed(t, account, t.lines[id])
             && k < |t.postings| && t.postings[k].account == GL(t, account) && t.postings[k].linked.None?
    ensures !WithinAPaisa(b.lines[id], b.postings[k])
  {
    NoFitIsLeft(b, account, lines, free, id, k);
    FitIsWithinAPaisa(b.lines[id], b.postings[k]);
  }

  lemma FitIsWithinAPaisa(l: BankLine, p: Posting)
    ensures ExactFit(l, p) <==> WithinAPaisa(l, p)
  {
  }

  lemma NoFitIsLeft(b: Books, account: string, lines: seq<string>, free: seq<nat>, id: string, k: nat)
    requires OpenListing(b, account, lines) && FreeListing(b, GL(b, account), free)
    requires CompleteListings(b, account, lines, free) && PairsInRange(b, ExactPairs(b, lines, free).0)
    requires var t := LinkPairs(b, ExactPairs(b, lines, free).0);
             && id in t.lines && Listed(t, account, t.lines[id])
             && k < |t.postings| && t.postings[k].account == GL(t, account) && t.postings[k].linked.None?
    ensures id in b.lines && k < |b.postings| && !ExactFit(b.lines[id], b.postings[k])
  {
    var (pairs, used) := ExactPairs(b, lines, free);
    ExactPairsSound(b, account, lines, free);
    LinkPairsMarks(b, pairs);
    LinkPairsOnlyPaired(b, pairs);
    assert forall j :: 0 <= j < |pairs| ==> pairs[j].line != id;
    assert forall j :: 0 <= j < |pairs| ==> pairs[j].posting != k;
    assert k !in used;
    assert id in lines && k in free;
  }

  lemma {:induction false} LinkPairsMarks(b: Books, pairs: seq<Pair>)
    requires PairsInRange(b, pairs)
    ensures forall i :: 0 <= i < |pairs| ==>
              LinkPairs(b, pairs).lines[pairs[i].line].status == Matched && LinkPairs(b, pairs).postings[pairs[i].posting].linked.Some?
  {
    if pairs != [] {
      var init := pairs[..|pairs| - 1];
      LinkPairsMarks(b, init);
      assert forall i :: 0 <= i < |init| ==> pairs[i] == init[i];
    }
  }

  // ---- an exact pass that writes late -------------------------------------------------------------------

  /** The posting is linked to no other line and the line to no other posting. */
  ghost predicate OnlyEachOther(b: Books, id: string, k: nat)
    requires k < |b.postings|
  {
    && (b.postings[k].linked == None || b.postings[k].linked == Some(id))
    && (forall j :: LinkedAt(b.postings, j, id) ==> j == k)
  }

  lemma {:induction false} OneLinkedSum(ps: seq<Posting>, k: nat, drCr: string, id: string)
    requires k < |ps| && ps[k].linked == Some(id) && forall j :: 0 <= j < |ps| && j != k ==> ps[j].linked != Some(id)
    ensures LinkedSum(ps, drCr, id) == Side(drCr, ps[k])
  {
    var n := |ps| - 1;
    if k == n { NothingLinkedSumsToZero(ps[..n], drCr, id); } else { OneLinkedSum(ps[..n], k, drCr, id); }
  }

  lemma UntakenPairKeepsInv(b: Books, id: string, k: nat)
    requires Inv(b) && Fits(b, id, k) && OnlyEachOther(b, id, k)
    ensures Inv(LinkPair(b, Pair(id, k, "auto:exact", 0)))
  {
    var t := LinkPair(b, Pair(id, k, "auto:exact", 0));
    forall j | 0 <= j < |t.postings| ensures PostingOk(t, j) && PayoutRowOk(t, t.postings[j]) && (j != k ==> t.postings[j].linked != Some(id)) {
      assert PostingOk(b, j) && PayoutRowOk(b, b.postings[j]);
      assert LinkedAt(b.postings, j, id) ==> j == k;
    }
    OneLinkedSum(t.postings, k, b.lines[id].drCr, id);
    assert LinkedAt(t.postings, k, id) && LineOk(t, id);
    forall other | other in t.lines && other != id ensures LineOk(t, other) {
      assert LineOk(b, other) && b.postings[k].linked != Some(other);
      OtherLineOk(b, t, other);
    }
  }

  /**
    The exact pass reads without locks and writes unconditionally. Whatever came in between, writing a pair keeps the
    books in order exactly when neither of the two has been matched with anything else by then.
   */
  lemma LatePairKeepsInvExactlyWhenUntaken(b: Books, id: string, k: nat)
    requires Inv(b) && Fits(b, id, k)
    ensures Inv(LinkPair(b, Pair(id, k, "auto:exact", 0))) <==> OnlyEachOther(b, id, k)
  {
    var t := LinkPair(b, Pair(id, k, "auto:exact", 0));
    if OnlyEachOther(b, id, k) {
      UntakenPairKeepsInv(b, id, k);
    } else if b.postings[k].linked.Some? && b.postings[k].linked.value != id {
      assert PostingOk(b, k);
      RelinkBreaksInv(b, t, k, id, b.postings[k].linked.value);
    } else {
      var j :| LinkedAt(b.postings, j, id) && j != k;
      assert LinkedAt(t.postings, j, id) && LinkedAt(t.postings, k, id);
      assert !LineOk(t, id);
    }
  }

  /** A line matched by hand with one posting while the pass was about to pair it with another. */
  lemma LatePairOverwritesAManualMatch()
    ensures var row := Posting("1001", 200, 0, "", "", 0, None, None);
            var b := Books(map["l" := CREDIT_LINE.(status := Matched, how := "manual")], [row, row.(linked := Some("l"))],
                           map["acc" := "1001"], [], map[]);
            Inv(b) && Fits(b, "l", 0) && !Inv(LinkPair(b, Pair("l", 0, "auto:exact", 0)))
  {
    var row := Posting("1001", 200, 0, "", "", 0, None, None);
    var b := Books(map["l" := CREDIT_LINE.(status := Matched, how := "manual")], [row, row.(linked := Some("l"))],
                   map["acc" := "1001"], [], map[]);
    OneLinkedSum(b.postings, 1, "Credit", "l");
    assert LinkedAt(b.postings, 1, "l") && LineOk(b, "l");
    LatePairKeepsInvExactlyWhenUntaken(b, "l", 0);
  }

  // ---- a marketplace match that writes late -------------------------------------------------------------

  /** Postings taken away from a line leave it with less. */
  lemma {:induction false} TakenSum(ps: seq<Posting>, qs: seq<Posting>, drCr: string, other: string)
    requires |ps| == |qs| && forall k :: 0 <= k < |ps| ==>
      && SameRow(ps[k], qs[k]) && (qs[k].linked == Some(other) ==> ps[k].linked == Some(other))
      && (ps[k].linked == Some(other) ==> Side(drCr, ps[k]) > 0)
    ensures LinkedSum(qs, drCr, other) <= LinkedSum(ps, drCr, other)
    ensures (exists k :: LinkedAt(ps, k, other) && !LinkedAt(qs, k, other)) ==> LinkedSum(qs, drCr, other) < LinkedSum(ps, drCr, other)
  {
    if ps != [] {
      var n := |ps| - 1;
      TakenSum(ps[..n], qs[..n], drCr, other);
      if k :| LinkedAt(ps, k, other) && !LinkedAt(qs, k, other) {
        if k < n { assert LinkedAt(ps[..n], k, other) && !LinkedAt(qs[..n], k, other); }
      }
    }
  }

  lemma TakenBatchBreaksInv(b: Books, id: string, batch: string, ks: seq<nat>, i: nat)
    requires Inv(b) && BatchFits(b, id, ks) && i < |ks| && b.postings[ks[i]].linked.Some?
    ensures !Inv(BatchMatched(b, id, batch, ks))
  {
    var t, other := BatchMatched(b, id, batch, ks), b.postings[ks[i]].linked.value;
    NothingLinkedToOpen(b, id);
    LinkAllRows(b.postings, ks, id);
    assert PostingOk(b, ks[i]) && LineOk(b, other) && ks[i] in ks;
    LinkedSidesArePositive(b, other);
    TakenSum(b.postings, t.postings, b.lines[other].drCr, other);
    assert LinkedAt(b.postings, ks[i], other) && !LinkedAt(t.postings, ks[i], other);
    if LineOk(t, other) {
      var j :| LinkedAt(t.postings, j, other);
      assert LinkedAt(b.postings, j, other);
    }
  }

  lemma LinkedSidesArePositive(b: Books, id: string)
    requires PostingsOk(b) && id in b.lines
    ensures forall k :: 0 <= k < |b.postings| && b.postings[k].linked == Some(id) ==> Side(b.lines[id].drCr, b.postings[k]) > 0
  {
    forall k | 0 <= k < |b.postings| && b.postings[k].linked == Some(id) ensures Side(b.lines[id].drCr, b.postings[k]) > 0 {
      assert PostingOk(b, k);
    }
  }

  /** A marketplace match keeps the books in order exactly when the postings it read are still free when it links them. */
  lemma LateBatchKeepsInvExactlyWhenFree(b: Books, id: string, batch: string, ks: seq<nat>)
    requires Inv(b) && BatchFits(b, id, ks)
    ensures Inv(BatchMatched(b, id, batch, ks)) <==> forall i :: 0 <= i < |ks| ==> b.postings[ks[i]].linked.None?
  {
    if forall i :: 0 <= i < |ks| ==> b.postings[ks[i]].linked.None? {
      assert "payout:marketplace:" + batch != "auto:exact" by { assert ("payout:marketplace:" + batch)[0] == 'p'; }
      assert Distinct(ks) && Linkable(b, id, ks);
      LinkedKeepsInvExactlyWhen(b, id, ks, "payout:marketplace:" + batch, 0);
    } else {
      var i :| 0 <= i < |ks| && b.postings[ks[i]].linked.Some?;
      TakenBatchBreaksInv(b, id, batch, ks, i);
    }
  }

  /** Another line was matched by hand with the batch's one posting while the match was under way. */
  lemma LateBatchTakesAManualMatch()
    ensures var b := Books(map["l" := CREDIT_LINE, "m" := CREDIT_LINE.(status := Matched, how := "manual")],
                           [Posting("1001", 200, 0, "MarketplaceSettlementLine", "s", 0, None, Some("m"))], map["acc" := "1001"], [], map[]);
            Inv(b) && BatchFits(b, "l", [0]) && !Inv(BatchMatched(b, "l", "batch", [0]))
  {
    var b := Books(map["l" := CREDIT_LINE, "m" := CREDIT_LINE.(status := Matched, how := "manual")],
                   [Posting("1001", 200, 0, "MarketplaceSettlementLine", "s", 0, None, Some("m"))], map["acc" := "1001"], [], map[]);
    var ks: seq<nat> := [0];
    OneLinkedSum(b.postings, 0, "Credit", "m");
    assert LinkedAt(b.postings, 0, "m") && LineOk(b, "m");
    assert ks[..0] == [] && SideSum(b.postings, "Credit", ks) == 200;
    LateBatchKeepsInvExactlyWhenFree(b, "l", "batch", ks);
    assert b.postings[ks[0]].linked.Some?;
  }

  // ---- what no step changes ---------------------------------------------------------------------------------

  /** What no step changes: accounts, and everything of lines and postings but how they are matched. */
  ghost predicate SameFacts(b: Books, t: Books)
  {
    && t.accounts == b.accounts && |b.postings| <= |t.postings|
    && (forall id :: id in b.lines ==> id in t.lines && SameLineFacts(b.lines[id], t.lines[id]))
    && (forall k :: 0 <= k < |b.postings| ==> SameRow(b.postings[k], t.postings[k]))
  }

  ghost predicate SameLineFacts(l: BankLine, m: BankLine)
  {
    m.bankAccount == l.bankAccount && m.drCr == l.drCr && m.amount == l.amount && m.day == l.day && m.ref == l.ref
  }

  lemma {:induction false} LinkPairsKeepFacts(b: Books, pairs: seq<Pair>)
    requires PairsInRange(b, pairs)
    ensures SameFacts(b, LinkPairs(b, pairs))
  {
    if pairs != [] { LinkPairsKeepFacts(b, pairs[..|pairs| - 1]); }
  }

  lemma {:induction false} LinkAllKeepsRows(ps: seq<Posting>, ks: seq<nat>, id: string)
    requires forall i :: 0 <= i < |ks| ==> ks[i] < |ps|
    ensures forall k :: 0 <= k < |ps| ==> SameRow(ps[k], LinkAll(ps, ks, id)[k])
  {
    if ks != [] { LinkAllKeepsRows(ps, ks[..|ks| - 1], id); }
  }

  lemma MatchKeepsFacts(b: Books, id: string, ks: seq<nat>, how: string)
    requires id in b.lines && forall i :: 0 <= i < |ks| ==> ks[i] < |b.postings|
    ensures SameFacts(b, b.(postings := LinkAll(b.postings, ks, id), lines := b.lines[id := MarkMatched(b.lines[id], how, 0)]))
  {
    LinkAllKeepsRows(b.postings, ks, id);
  }

  lemma PayoutKeepsFacts(b: Books, id: string, clearing: string, fee: int, at: int)
    requires MatchPayout(b, id, clearing, fee, at).Some?
    ensures SameFacts(b, MatchPayout(b, id, clearing, fee, at).value)
  {
    var l := b.lines[id];
    var ps := AfterPayoutEntry(b, id, l, clearing, fee, at);
    var k := FindPayoutRow(ps, id, GL(b, l.bankAccount), |ps|).value;
    LinkKeepsFacts(b, ps, k, id, if clearing == "1101" then "payout:card" else "payout:upi");
  }

  lemma LinkKeepsFacts(b: Books, ps: seq<Posting>, k: nat, id: string, how: string)
    requires id in b.lines && |b.postings| <= |ps| && ps[..|b.postings|] == b.postings && k < |ps|
    ensures SameFacts(b, b.(postings := Link(ps, k, id), lines := b.lines[id := MarkMatched(b.lines[id], how, 0)]))
  {
    assert forall j :: 0 <= j < |b.postings| ==> ps[j] == ps[..|b.postings|][j];
  }

  lemma QuietStepKeepsFacts(b: Books, e: Event)
    requires e.EvAddLine? || e.EvAddPosting? || e.EvClosed? || e.EvUnmatch? || e.EvRaise? || e.EvExplain? || e.EvLatePair?
    ensures SameFacts(b, Apply(b, e))
  {
  }

  lemma StepKeepsFacts(b: Books, e: Event)
    ensures SameFacts(b, Apply(b, e))
  {
    match e {
      case EvMatch(id, ks) =>
        if MatchLine(b, id, ks).Some? {
          MatchIsLinking(b, id, ks);
          MatchKeepsFacts(b, id, ks, "manual");
        }
      case EvMarketplace(id, batch) =>
        if MatchMarketplace(b, id, batch).Some? {
          var ks := BatchPostings(b, GL(b, b.lines[id].bankAccount), batch, |b.postings|);
          MatchKeepsFacts(b, id, ks, "payout:marketplace:" + batch);
        }
      case EvLateBatch(id, batch, ks) =>
        if BatchFits(b, id, ks) { MatchKeepsFacts(b, id, ks, "payout:marketplace:" + batch); }
      case EvPOSPayout(id, clearing, fee, at) =>
        if MatchPayout(b, id, clearing, fee, at).Some? { PayoutKeepsFacts(b, id, clearing, fee, at); }
      case EvRule(account, rule, lines, free) =>
        if OpenListing(b, account, lines) && FreeListing(b, GL(b, account), free) && PairsInRange(b, RulePairs(b, rule, lines, free)) {
          LinkPairsKeepFacts(b, RulePairs(b, rule, lines, free));
        }
      case EvExact(account, lines, free) =>
        if OpenListing(b, account, lines) && FreeListing(b, GL(b, account), free) && PairsInRange(b, ExactPairs(b, lines, free).0) {
          LinkPairsKeepFacts(b, ExactPairs(b, lines, free).0);
        }
      case _ => QuietStepKeepsFacts(b, e);
    }
  }

  /** So a pair that fitted when the pass read it fits whenever it is written. */
  lemma FitsStays(b: Books, e: Event, id: string, k: nat)
    requires Fits(b, id, k)
    ensures Fits(Apply(b, e), id, k)
  {
    StepKeepsFacts(b, e);
    assert SameRow(b.postings[k], Apply(b, e).postings[k]);
  }

  // ---- whole runs --------------------------------------------------------------------------------------------

  /** What the unguarded steps ask of their surroundings. */
  ghost predicate Careful(b: Books, e: Event)
  {
    match e
    case EvMatch(id, ks) => Distinct(ks)
    case EvPOSPayout(id, clearing, fee, at) => id in b.lines ==> PayoutIsSafe(b, id, fee)
    case EvLateBatch(id, _, ks) => BatchFits(b, id, ks) ==> forall i :: 0 <= i < |ks| ==> b.postings[ks[i]].linked.None?
    case EvLatePair(id, k) => Fits(b, id, k) ==> OnlyEachOther(b, id, k)
    case _ => true
  }

  ghost predicate CarefulRun(b: Books, events: seq<Event>)
    decreases |events|
  {
    events == [] || (Careful(b, events[0]) && CarefulRun(Apply(b, events[0]), events[1..]))
  }

  lemma AddLineKeepsInv(b: Books, id: string, l: BankLine)
    requires Inv(b)
    ensures Inv(Apply(b, EvAddLine(id, l)))
  {
    var t := Apply(b, EvAddLine(id, l));
    forall k | 0 <= k < |t.postings| ensures PostingOk(t, k) && PayoutRowOk(t, t.postings[k]) {
      assert PostingOk(b, k) && PayoutRowOk(b, b.postings[k]);
    }
    forall other | other in t.lines ensures LineOk(t, other) {
      if other in b.lines { assert LineOk(b, other); }
    }
  }

  lemma ClosingKeepsInv(b: Books, closed: seq<(int, int)>)
    requires Inv(b)
    ensures Inv(b.(closed := closed))
  {
    var t := b.(closed := closed);
    forall k | 0 <= k < |t.postings| ensures PostingOk(t, k) && PayoutRowOk(t, t.postings[k]) {
      assert PostingOk(b, k) && PayoutRowOk(b, b.postings[k]);
    }
    forall other | other in t.lines ensures LineOk(t, other) { assert LineOk(b, other); }
  }

  lemma StepKeepsInv(b: Books, e: Event)
    requires Inv(b) && Careful(b, e)
    ensures Inv(Apply(b, e))
  {
    match e {
      case EvAddLine(id, l) => AddLineKeepsInv(b, id, l);
      case EvAddPosting(p) =>
        if p.debit >= 0 && p.credit >= 0 { AddedRowsKeepInv(b, [p.(payoutOf := None, linked := None)]); }
      case EvClosed(closed) => ClosingKeepsInv(b, closed);
      case EvMatch(id, ks) =>
        if MatchLine(b, id, ks).Some? { ManualMatchKeepsInvExactlyWhenIdsDiffer(b, id, ks); }
      case EvUnmatch(id) =>
        if UnmatchLine(b, id).Some? { UnmatchKeepsInv(b, id); }
      case EvRaise(id) =>
        if RaiseException(b, id).Some? { OpenRowKeepsInv(b, RaiseException(b, id).value, id, b.lines[id].(status := Exception)); }
      case EvExplain(id) =>
        if ExplainException(b, id).Some? {
          var l := b.lines[id];
          OpenRowKeepsInv(b, ExplainException(b, id).value, id, l.(status := Explained, how := "explained", difference := l.amount));
        }
      case EvMarketplace(id, batch) =>
        if MatchMarketplace(b, id, batch).Some? { MarketplaceKeepsInv(b, id, batch); }
      case EvPOSPayout(id, clearing, fee, at) =>
        if MatchPayout(b, id, clearing, fee, at).Some? { PayoutKeepsInvExactlyWhenSafe(b, id, clearing, fee, at); }
      case EvRule(account, rule, lines, free) =>
        if OpenListing(b, account, lines) && FreeListing(b, GL(b, account), free) {
          RulePairsOk(b, account, rule, lines, free);
          LinkPairsKeepsInv(b, RulePairs(b, rule, lines, free));
        }
      case EvExact(account, lines, free) =>
        if OpenListing(b, account, lines) && FreeListing(b, GL(b, account), free) {
          ExactPairsOk(b, account, lines, free);
          LinkPairsKeepsInv(b, ExactPairs(b, lines, free).0);
        }
      case EvLateBatch(id, batch, ks) => if BatchFits(b, id, ks) { LateBatchKeepsInvExactlyWhenFree(b, id, batch, ks); }
      case EvLatePair(id, k) => if Fits(b, id, k) { UntakenPairKeepsInv(b, id, k); }
    }
  }

  /** In every reachable state every matched line is accounted for by its postings. */
  lemma {:induction false} RunKeepsInv(b: Books, events: seq<Event>)
    requires Inv(b) && CarefulRun(b, events)
    ensures Inv(Run(b, events))
    decreases |events|
  {
    if events != [] {
      StepKeepsInv(b, events[0]);
      RunKeepsInv(Apply(b, events[0]), events[1..]);
    }
  }

  /** The workbench's books start with nothing in them. */
  lemma ReachableBooks(accounts: map<string, string>, batchOf: map<string, string>, events: seq<Event>)
    requires CarefulRun(Books(map[], [], accounts, [], batchOf), events)
    ensures Inv(Run(Books(map[], [], accounts, [], batchOf), events))
  {
    RunKeepsInv(Books(map[], [], accounts, [], batchOf), events);
  }

  // ---- closed periods ------------------------------------------------------------------------------------------

  /** The line's row and the set of postings linked to it are the same. */
  ghost predicate Untouched(b: Books, t: Books, id: string)
  {
    && id in b.lines && id in t.lines && t.lines[id] == b.lines[id]
    && SameLinks(b.postings, t.postings, id)
  }

  lemma LinkedUntouched(b: Books, id: string, ks: seq<nat>, how: string, difference: int, other: string)
    requires Linkable(b, id, ks) && other in b.lines && other != id
    ensures Untouched(b, Linked(b, id, ks, how, difference), other)
  {
    LinkAllRows(b.postings, ks, id);
  }

  lemma {:induction false} LinkPairsUntouched(b: Books, pairs: seq<Pair>, other: string)
    requires PairsInRange(b, pairs) && PairsOk(b, pairs)
    requires other in b.lines && Frozen(b.closed, b.lines[other].day)
    ensures Untouched(b, LinkPairs(b, pairs), other)
  {
    if pairs != [] {
      var init, p := pairs[..|pairs| - 1], pairs[|pairs| - 1];
      InitPairsOk(b, pairs);
      LinkPairsUntouched(b, init, other);
      LinkPairsOnlyPaired(b, init);
      PairStillOk(b, LinkPairs(b, init), init, p);
      assert [p.posting][0] == p.posting;
      PairUntouched(b, LinkPairs(b, init), p, other);
    }
  }

  lemma PairUntouched(b: Books, t: Books, p: Pair, other: string)
    requires Untouched(b, t, other) && p.line != other
    requires p.posting < |t.postings| && p.line in t.lines && t.postings[p.posting].linked != Some(other)
    ensures Untouched(b, LinkPair(t, p), other)
  {
  }

  lemma EntryUntouched(b: Books, id: string, clearing: string, fee: int, at: int, other: string)
    requires id in b.lines && PayoutAllowed(b, id, b.lines[id], clearing, fee) && other in b.lines
    ensures Untouched(b, AfterEntry(b, id, clearing, fee, at), other)
  {
    PayoutRowsAre(id, GL(b, b.lines[id].bankAccount), clearing, b.lines[id].amount, fee, at);
  }

  lemma PayoutUntouched(b: Books, id: string, clearing: string, fee: int, at: int, other: string)
    requires MatchPayout(b, id, clearing, fee, at).Some? && PayoutIsSafe(b, id, fee)
    requires other in b.lines && other != id
    ensures Untouched(b, MatchPayout(b, id, clearing, fee, at).value, other)
  {
    var l := b.lines[id];
    var e := AfterEntry(b, id, clearing, fee, at);
    var k := FindPayoutRow(e.postings, id, GL(b, l.bankAccount), |e.postings|).value;
    PayoutRowFound(b, id, clearing, fee, at, k);
    PayoutRowsAre(id, GL(b, l.bankAccount), clearing, l.amount, fee, at);
    assert e.postings[k].linked.None?;
    EntryUntouched(b, id, clearing, fee, at, other);
    PairUntouched(b, e, Pair(id, k, if clearing == "1101" then "payout:card" else "payout:upi", 0), other);
  }

  /** A late write finds its own line's date in no period that was closed since the line was read. */
  ghost predicate PeriodStillOpen(b: Books, e: Event)
  {
    match e
    case EvLatePair(id, k) => Fits(b, id, k) ==> !Frozen(b.closed, b.lines[id].day)
    case EvLateBatch(id, _, ks) => BatchFits(b, id, ks) ==> !Frozen(b.closed, b.lines[id].day)
    case _ => true
  }

  ghost predicate FrozenLinesKept(b: Books, e: Event)
  {
    forall other :: other in b.lines && Frozen(b.closed, b.lines[other].day) ==> Untouched(b, Apply(b, e), other)
  }

  /** The two are matched with each other by the exact pass already: writing the pair changes nothing. */
  ghost predicate AlreadyPaired(b: Books, id: string, k: nat)
    requires id in b.lines && k < |b.postings|
  {
    b.lines[id] == MarkMatched(b.lines[id], "auto:exact", 0) && b.postings[k].linked == Some(id)
  }

  /**
    The exact pass looks at closed periods only when it reads. A pair it writes later leaves every frozen line as it
    was exactly when its own line is not frozen by then, or the pair is there already.
   */
  lemma LatePairKeepsFrozenLinesExactlyWhenPeriodOpen(b: Books, id: string, k: nat)
    requires Fits(b, id, k) && OnlyEachOther(b, id, k)
    ensures FrozenLinesKept(b, EvLatePair(id, k)) <==> !Frozen(b.closed, b.lines[id].day) || AlreadyPaired(b, id, k)
  {
    var p, t := Pair(id, k, "auto:exact", 0), Apply(b, EvLatePair(id, k));
    forall other | other in b.lines && other != id ensures Untouched(b, t, other) { PairUntouched(b, b, p, other); }
    if AlreadyPaired(b, id, k) {
      assert t.postings == b.postings;
    }
  }

  /** The same of a marketplace match, whose line is open until it writes. */
  lemma LateBatchKeepsFrozenLinesExactlyWhenPeriodOpen(b: Books, id: string, batch: string, ks: seq<nat>)
    requires BatchFits(b, id, ks) && forall i :: 0 <= i < |ks| ==> b.postings[ks[i]].linked.None?
    ensures FrozenLinesKept(b, EvLateBatch(id, batch, ks)) <==> !Frozen(b.closed, b.lines[id].day)
  {
    var t := Apply(b, EvLateBatch(id, batch, ks));
    assert Linkable(b, id, ks);
    forall other | other in b.lines && other != id ensures Untouched(b, t, other) {
      LinkedUntouched(b, id, ks, "payout:marketplace:" + batch, 0, other);
    }
    assert t.lines[id].status == Matched;
  }

  /** A line of day 5 that an exact pass read, whose period was closed before the pass wrote. */
  lemma LatePairWritesIntoAClosedPeriod()
    ensures var b := Books(map["l" := CREDIT_LINE.(day := Some(5))], [Posting("1001", 200, 0, "", "", 5 * DAY, None, None)],
                           map["acc" := "1001"], [(0, 10)], map[]);
            && Inv(b) && Fits(b, "l", 0) && Careful(b, EvLatePair("l", 0)) && Frozen(b.closed, b.lines["l"].day)
            && !FrozenLinesKept(b, EvLatePair("l", 0))
  {
    var b := Books(map["l" := CREDIT_LINE.(day := Some(5))], [Posting("1001", 200, 0, "", "", 5 * DAY, None, None)],
                   map["acc" := "1001"], [(0, 10)], map[]);
    assert b.closed[0].0 <= 5 <= b.closed[0].1;
    LatePairKeepsFrozenLinesExactlyWhenPeriodOpen(b, "l", 0);
  }

  /** No careful step changes the row or the links of a line dated in a closed period, if late writes find theirs open. */
  lemma ClosedPeriodLinesAreFrozen(b: Books, e: Event, other: string)
    requires PostingsOk(b) && Careful(b, e) && PeriodStillOpen(b, e)
    requires other in b.lines && Frozen(b.closed, b.lines[other].day)
    ensures Untouched(b, Apply(b, e), other)
  {
    match e {
      case EvAddLine(_, _) =>
      case EvAddPosting(_) =>
      case EvClosed(_) =>
      case EvUnmatch(_) =>
      case EvRaise(_) =>
      case EvExplain(_) =>
      case EvMatch(id, ks) =>
        if MatchLine(b, id, ks).Some? { MatchIsLinking(b, id, ks); LinkedUntouched(b, id, ks, "manual", 0, other); }
      case EvMarketplace(id, batch) =>
        if MatchMarketplace(b, id, batch).Some? {
          var ks := BatchPostings(b, GL(b, b.lines[id].bankAccount), batch, |b.postings|);
          LinkedUntouched(b, id, ks, "payout:marketplace:" + batch, 0, other);
        }
      case EvPOSPayout(id, clearing, fee, at) =>
        if MatchPayout(b, id, clearing, fee, at).Some? { PayoutUntouched(b, id, clearing, fee, at, other); }
      case EvRule(account, rule, lines, free) =>
        if OpenListing(b, account, lines) && FreeListing(b, GL(b, account), free) {
          RulePairsOk(b, account, rule, lines, free);
          LinkPairsUntouched(b, RulePairs(b, rule, lines, free), other);
        }
      case EvExact(account, lines, free) =>
        if OpenListing(b, account, lines) && FreeListing(b, GL(b, account), free) {
          ExactPairsOk(b, account, lines, free);
          LinkPairsUntouched(b, ExactPairs(b, lines, free).0, other);
        }
      case EvLateBatch(id, batch, ks) =>
        if BatchFits(b, id, ks) {
          assert Linkable(b, id, ks);
          LinkedUntouched(b, id, ks, "payout:marketplace:" + batch, 0, other);
        }
      case EvLatePair(id, k) => if Fits(b, id, k) { PairUntouched(b, b, Pair(id, k, "auto:exact", 0), other); }
    }
  }

  /** Undoing a manual match gives back the books as they were, but for the line's own status. */
  lemma UnmatchUndoesMatch(b: Books, id: string, ks: seq<nat>)
    requires Inv(b) && MatchLine(b, id, ks).Some?
    ensures var t := MatchLine(b, id, ks).value;
            && UnmatchLine(t, id).Some?
            && UnmatchLine(t, id).value ==
                 b.(lines := b.lines[id := b.lines[id].(status := Unmatched, how := "", difference := 0)])
  {
    var t := MatchLine(b, id, ks).value;
    MatchIsLinking(b, id, ks);
    LinkAllRows(b.postings, ks, id);
    NothingLinkedToOpen(b, id);
    var u := UnmatchLine(t, id).value;
    forall k | 0 <= k < |b.postings| ensures u.postings[k] == b.postings[k] {
      if k in ks { var i :| 0 <= i < |ks| && ks[i] == k; }
    }
    assert u.postings == b.postings;
  }
}
