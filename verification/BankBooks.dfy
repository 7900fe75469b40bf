/**
  Statement lines and book postings, and the ways to pair them
  (engines/bank_reconciliation_workbench.go, engines/bank_reconciliation.go). Money is paise;
  a posting's id is its position; each transaction is one step.
 */
module BankBooks {
  import opened Text
  import RuleMatch

  datatype Status = Unmatched | Exception | Matched | Explained

  /** day is None when the statement date cannot be parsed. */
  datatype BankLine = BankLine(bankAccount: string, drCr: string, ref: string, day: Option<int>, amount: int,
                               status: Status, how: string, difference: int)

  /** payoutOf names the line whose POS payout entry this row belongs to; linked is matched_statement_line_id. */
  datatype Posting = Posting(account: string, debit: int, credit: int, docType: string, docId: string, at: int,
                             payoutOf: Option<string>, linked: Option<string>)

  /** accounts maps a bank account to its GL code; closed holds the closed periods; batchOf a settlement line's batch. */
  datatype Books = Books(lines: map<string, BankLine>, postings: seq<Posting>, accounts: map<string, string>,
                         closed: seq<(int, int)>, batchOf: map<string, string>)

  function Side(drCr: string, p: Posting): int { RuleMatch.Side(drCr, p.debit, p.credit) }

  predicate Frozen(closed: seq<(int, int)>, day: Option<int>)
  {
    day.Some? && exists i :: 0 <= i < |closed| && closed[i].0 <= day.value <= closed[i].1
  }

  /** bankAccountGLAccount: "" when the account is unknown or has no GL code. */
  function GL(b: Books, bankAccount: string): string
  {
    if bankAccount in b.accounts then b.accounts[bankAccount] else ""
  }

  predicate Open(l: BankLine) { l.status == Unmatched || l.status == Exception }

  /** lockBankLine: the line, unless it or its GL code is missing or its date is in a closed period. */
  function Lock(b: Books, id: string): Option<BankLine>
  {
    if id !in b.lines || GL(b, b.lines[id].bankAccount) == "" || Frozen(b.closed, b.lines[id].day) then None
    else Some(b.lines[id])
  }

  function Link(ps: seq<Posting>, k: nat, id: string): (t: seq<Posting>)
    requires k < |ps|
    ensures |t| == |ps|
  {
    ps[k := ps[k].(linked := Some(id))]
  }

  function LinkAll(ps: seq<Posting>, ks: seq<nat>, id: string): (t: seq<Posting>)
    requires forall i :: 0 <= i < |ks| ==> ks[i] < |ps|
    ensures |t| == |ps|
  {
    if ks == [] then ps else Link(LinkAll(ps, ks[..|ks| - 1], id), ks[|ks| - 1], id)
  }

  function UnlinkAll(ps: seq<Posting>, id: string): (t: seq<Posting>)
    ensures |t| == |ps|
    ensures forall i :: 0 <= i < |ps| ==> t[i] == (if ps[i].linked == Some(id) then ps[i].(linked := None) else ps[i])
  {
    seq(|ps|, i requires 0 <= i < |ps| => if ps[i].linked == Some(id) then ps[i].(linked := None) else ps[i])
  }

  function MarkMatched(l: BankLine, how: string, difference: int): BankLine
  {
    l.(status := Matched, how := how, difference := difference)
  }

  // ---- manual match and unmatch ------------------------------------------------------------

  predicate Choosable(b: Books, l: BankLine, k: nat)
  {
    && k < |b.postings| && b.postings[k].account == GL(b, l.bankAccount) && b.postings[k].linked.None?
    && Side(l.drCr, b.postings[k]) != 0
  }

  function SideSum(ps: seq<Posting>, drCr: string, ks: seq<nat>): int
    requires forall i :: 0 <= i < |ks| ==> ks[i] < |ps|
  {
    if ks == [] then 0 else SideSum(ps, drCr, ks[..|ks| - 1]) + Side(drCr, ps[ks[|ks| - 1]])
  }

  /** MatchBankLine; the id list is summed as it was given. */
  function MatchLine(b: Books, id: string, ks: seq<nat>): Option<Books>
  {
    match Lock(b, id)
    case None => None
    case Some(l) =>
      if ks == [] || !Open(l) || !(forall i :: 0 <= i < |ks| ==> Choosable(b, l, ks[i])) then None
      else if SideSum(b.postings, l.drCr, ks) != l.amount then None
      else Some(b.(postings := LinkAll(b.postings, ks, id), lines := b.lines[id := MarkMatched(l, "manual", 0)]))
  }

  function UnmatchLine(b: Books, id: string): Option<Books>
  {
    match Lock(b, id)
    case None => None
    case Some(l) =>
      if Open(l) then None
      else Some(b.(postings := UnlinkAll(b.postings, id),
                   lines := b.lines[id := l.(status := Unmatched, how := "", difference := 0)]))
  }

  // ---- the exception queue ---------------------------------------------------------------------

  function RaiseException(b: Books, id: string): Option<Books>
  {
    match Lock(b, id)
    case None => None
    case Some(l) => if !Open(l) then None else Some(b.(lines := b.lines[id := l.(status := Exception)]))
  }

  function ExplainException(b: Books, id: string): Option<Books>
  {
    match Lock(b, id)
    case None => None
    case Some(l) =>
      if l.status != Exception then None
      else Some(b.(lines := b.lines[id := l.(status := Explained, how := "explained", difference := l.amount)]))
  }

  // ---- payouts ----------------------------------------------------------------------------------

  predicate InBatch(b: Books, gl: string, batch: string, p: Posting)
  {
    && p.docType == "MarketplaceSettlementLine" && p.account == gl && p.debit > 0 && p.linked.None?
    && p.docId in b.batchOf && b.batchOf[p.docId] == batch
  }

  /** The unmatched payout postings of one settlement batch. */
  function BatchPostings(b: Books, gl: string, batch: string, n: nat): (ks: seq<nat>)
    requires n <= |b.postings|
    ensures forall i :: 0 <= i < |ks| ==> ks[i] < n && InBatch(b, gl, batch, b.postings[ks[i]])
    ensures forall i, j :: 0 <= i < j < |ks| ==> ks[i] < ks[j]
  {
    if n == 0 then []
    else
      var before := BatchPostings(b, gl, batch, n - 1);
      if InBatch(b, gl, batch, b.postings[n - 1]) then before + [n - 1] else before
  }

  function MatchMarketplace(b: Books, id: string, batch: string): Option<Books>
  {
    match Lock(b, id)
    case None => None
    case Some(l) =>
      var ks := BatchPostings(b, GL(b, l.bankAccount), batch, |b.postings|);
      if !Open(l) || l.drCr != "Credit" || ks == [] || SideSum(b.postings, "Credit", ks) != l.amount then None
      else Some(b.(postings := LinkAll(b.postings, ks, id),
                   lines := b.lines[id := MarkMatched(l, "payout:marketplace:" + batch, 0)]))
  }

  /** What a marketplace match saw: the locked line and the batch's postings, read without a lock. */
  predicate BatchFits(b: Books, id: string, ks: seq<nat>)
  {
    && id in b.lines && GL(b, b.lines[id].bankAccount) != "" && Open(b.lines[id]) && b.lines[id].drCr == "Credit" && ks != []
    && (forall i :: 0 <= i < |ks| ==>
          ks[i] < |b.postings| && b.postings[ks[i]].account == GL(b, b.lines[id].bankAccount) && b.postings[ks[i]].debit > 0)
    && (forall i, j :: 0 <= i < j < |ks| ==> ks[i] < ks[j])
    && SideSum(b.postings, "Credit", ks) == b.lines[id].amount
  }

  function BatchMatched(b: Books, id: string, batch: string, ks: seq<nat>): Books
    requires BatchFits(b, id, ks)
  {
    b.(postings := LinkAll(b.postings, ks, id), lines := b.lines[id := MarkMatched(b.lines[id], "payout:marketplace:" + batch, 0)])
  }

  function AccountNet(ps: seq<Posting>, account: string): int
  {
    if ps == [] then 0
    else
      var p := ps[|ps| - 1];
      AccountNet(ps[..|ps| - 1], account) + (if p.account == account then p.debit - p.credit else 0)
  }

  predicate PayoutPosted(ps: seq<Posting>, id: string)
  {
    exists i :: 0 <= i < |ps| && ps[i].payoutOf == Some(id)
  }

  const FEES := "5230"

  /** Dr bank (and fee) / Cr clearing; the fee entry overwrites the bank's when both are the same account. */
  function PayoutRows(id: string, gl: string, clearing: string, amount: int, fee: int, at: int): seq<Posting>
  {
    var row := (account: string, debit: int, credit: int) =>
      if debit > 0 || credit > 0 then [Posting(account, debit, credit, "BankStatementLine", id, at, Some(id), None)] else [];
    (if fee > 0 && gl == FEES then [] else row(gl, amount, 0)) + (if fee > 0 then row(FEES, fee, 0) else [])
    + row(clearing, 0, amount + fee)
  }

  predicate PayoutBalances(gl: string, amount: int, fee: int) { fee > 0 && gl == FEES ==> amount == 0 }

  /** The bank row of the line's payout entry, as the lookup after posting finds it. */
  function FindPayoutRow(ps: seq<Posting>, id: string, gl: string, n: nat): (r: Option<nat>)
    requires n <= |ps|
    ensures r.Some? ==> r.value < n && ps[r.value].payoutOf == Some(id) && ps[r.value].account == gl && ps[r.value].debit > 0
  {
    if n == 0 then None
    else match FindPayoutRow(ps, id, gl, n - 1)
      case Some(k) => Some(k)
      case None =>
        if ps[n - 1].payoutOf == Some(id) && ps[n - 1].account == gl && ps[n - 1].debit > 0 then Some(n - 1) else None
  }

  /** The postings after MatchPOSPayout's entry: posted once per line, a no-op when already there. */
  function AfterPayoutEntry(b: Books, id: string, l: BankLine, clearing: string, fee: int, at: int): seq<Posting>
  {
    if PayoutPosted(b.postings, id) then b.postings
    else b.postings + PayoutRows(id, GL(b, l.bankAccount), clearing, l.amount, fee, at)
  }

  /** Everything MatchPOSPayout checks before it posts. */
  predicate PayoutAllowed(b: Books, id: string, l: BankLine, clearing: string, fee: int)
  {
    && (clearing == "1101" || clearing == "1102") && 0 <= fee && Open(l) && l.drCr == "Credit"
    && (!PayoutPosted(b.postings, id) ==> l.amount + fee <= AccountNet(b.postings, clearing))
    && PayoutBalances(GL(b, l.bankAccount), l.amount, fee)
  }

  function MatchPayout(b: Books, id: string, clearing: string, fee: int, at: int): Option<Books>
  {
    match Lock(b, id)
    case None => None
    case Some(l) =>
      if !PayoutAllowed(b, id, l, clearing, fee) then None
      else
        var ps := AfterPayoutEntry(b, id, l, clearing, fee, at);
        match FindPayoutRow(ps, id, GL(b, l.bankAccount), |ps|)
        case None => None
        case Some(k) =>
          Some(b.(postings := Link(ps, k, id),
                  lines := b.lines[id := MarkMatched(l, if clearing == "1101" then "payout:card" else "payout:upi", 0)]))
  }

  // ---- the two automatic passes --------------------------------------------------------------------

  /** One pairing an automatic pass makes. */
  datatype Pair = Pair(line: string, posting: nat, how: string, difference: int)

  predicate PairsInRange(b: Books, pairs: seq<Pair>)
  {
    forall i :: 0 <= i < |pairs| ==> pairs[i].posting < |b.postings| && pairs[i].line in b.lines
  }

  function LinkPair(b: Books, p: Pair): (t: Books)
    requires p.posting < |b.postings| && p.line in b.lines
    ensures |t.postings| == |b.postings| && t.lines.Keys == b.lines.Keys
  {
    b.(postings := Link(b.postings, p.posting, p.line),
       lines := b.lines[p.line := MarkMatched(b.lines[p.line], p.how, p.difference)])
  }

  function LinkPairs(b: Books, pairs: seq<Pair>): (t: Books)
    requires PairsInRange(b, pairs)
    ensures |t.postings| == |b.postings| && t.lines.Keys == b.lines.Keys
  {
    if pairs == [] then b else LinkPair(LinkPairs(b, pairs[..|pairs| - 1]), pairs[|pairs| - 1])
  }

  /** The open lines of one bank account, not in a closed period, in the order the query returns them. */
  predicate OpenListing(b: Books, account: string, order: seq<string>)
  {
    && (forall i :: 0 <= i < |order| ==>
          && order[i] in b.lines && b.lines[order[i]].bankAccount == account
          && Open(b.lines[order[i]]) && !Frozen(b.closed, b.lines[order[i]].day))
    && (forall i, j :: 0 <= i < j < |order| ==> order[i] != order[j])
  }

  /** The unlinked postings of one GL account, in the order the query returns them. */
  predicate FreeListing(b: Books, gl: string, order: seq<nat>)
  {
    && (forall i :: 0 <= i < |order| ==>
          order[i] < |b.postings| && b.postings[order[i]].account == gl && b.postings[order[i]].linked.None?)
    && (forall i, j :: 0 <= i < j < |order| ==> order[i] != order[j])
  }

  const DAY := 86400

  function LineRows(b: Books, order: seq<string>): (rows: seq<RuleMatch.LineRow>)
    requires forall i :: 0 <= i < |order| ==> order[i] in b.lines
    ensures |rows| == |order|
  {
    seq(|order|, i requires 0 <= i < |order| =>
      var l := b.lines[order[i]]; RuleMatch.LineRow(order[i], l.drCr, l.ref, l.day, l.amount))
  }

  function BookRows(b: Books, order: seq<nat>): (rows: seq<RuleMatch.BookRow>)
    requires forall i :: 0 <= i < |order| ==> order[i] < |b.postings|
    ensures |rows| == |order|
  {
    seq(|order|, i requires 0 <= i < |order| =>
      var p := b.postings[order[i]]; RuleMatch.BookRow(order[i], p.docId, p.debit, p.credit, p.at / DAY))
  }

  function PairsOf(ds: seq<RuleMatch.Decision>): seq<Pair>
  {
    if ds == [] then []
    else
      var d := ds[|ds| - 1];
      PairsOf(ds[..|ds| - 1])
      + (if d.outcome.Matched? then [Pair(d.line, d.outcome.posting, d.outcome.how, d.outcome.difference)] else [])
  }

  /** The pairs RuleMatchBankStatement makes. */
  function RulePairs(b: Books, rule: RuleMatch.Rule, lines: seq<string>, free: seq<nat>): seq<Pair>
    requires forall i :: 0 <= i < |lines| ==> lines[i] in b.lines
    requires forall i :: 0 <= i < |free| ==> free[i] < |b.postings|
  {
    PairsOf(RuleMatch.Pass(rule, LineRows(b, lines), BookRows(b, free)).0)
  }

  /** The "exact" pass accepts one paisa either way, within 72 hours of the statement date. */
  predicate ExactFit(l: BankLine, p: Posting)
  {
    && Side(l.drCr, p) != 0 && RuleMatch.Abs(Side(l.drCr, p) - l.amount) <= 1
    && (l.day.Some? ==> RuleMatch.Abs(p.at - l.day.value * DAY) <= 3 * DAY)
  }

  /** The first free posting that fits, in the order read. */
  function FirstFit(b: Books, l: BankLine, free: seq<nat>, used: set<nat>): (r: Option<nat>)
    requires forall i :: 0 <= i < |free| ==> free[i] < |b.postings|
    ensures r.Some? ==> r.value in free && r.value !in used && ExactFit(l, b.postings[r.value])
    ensures r.None? ==> forall i :: 0 <= i < |free| && free[i] !in used ==> !ExactFit(l, b.postings[free[i]])
  {
    if free == [] then None
    else if free[0] !in used && ExactFit(l, b.postings[free[0]]) then Some(free[0])
    else FirstFit(b, l, free[1..], used)
  }

  /** ReconcileBankStatement's greedy pass: its pairs and the postings they use. */
  function ExactPairs(b: Books, lines: seq<string>, free: seq<nat>): (seq<Pair>, set<nat>)
    requires forall i :: 0 <= i < |lines| ==> lines[i] in b.lines
    requires forall i :: 0 <= i < |free| ==> free[i] < |b.postings|
  {
    if lines == [] then ([], {})
    else
      var (before, used) := ExactPairs(b, lines[..|lines| - 1], free);
      var id := lines[|lines| - 1];
      match FirstFit(b, b.lines[id], free, used)
      case None => (before, used)
      case Some(k) => (before + [Pair(id, k, "auto:exact", 0)], used + {k})
  }

  /** The lines the greedy pass finds nothing for, in the order read. */
  function ExactMisses(b: Books, lines: seq<string>, free: seq<nat>): seq<string>
    requires forall i :: 0 <= i < |lines| ==> lines[i] in b.lines
    requires forall i :: 0 <= i < |free| ==> free[i] < |b.postings|
  {
    if lines == [] then []
    else
      var init, id := lines[..|lines| - 1], lines[|lines| - 1];
      ExactMisses(b, init, free) + (if FirstFit(b, b.lines[id], free, ExactPairs(b, init, free).1).None? then [id] else [])
  }

  /** What the greedy pass saw of a pair when it read the two rows; no step of anyone changes it. */
  predicate Fits(b: Books, id: string, k: nat)
  {
    && id in b.lines && k < |b.postings| && b.postings[k].account == GL(b, b.lines[id].bankAccount)
    && ExactFit(b.lines[id], b.postings[k])
  }

  // ---- the machine ------------------------------------------------------------------------------------

  datatype Event =
    | EvAddLine(id: string, line: BankLine)
    | EvAddPosting(posting: Posting)
    | EvClosed(closed: seq<(int, int)>)                 // periods closed or reopened
    | EvMatch(id: string, ks: seq<nat>)
    | EvUnmatch(id: string)
    | EvRaise(id: string)
    | EvExplain(id: string)
    | EvMarketplace(id: string, batch: string)
    | EvPOSPayout(id: string, clearing: string, fee: int, at: int)
    | EvRule(account: string, rule: RuleMatch.Rule, lines: seq<string>, free: seq<nat>)
    | EvExact(account: string, lines: seq<string>, free: seq<nat>)
    | EvLateBatch(id: string, batch: string, ks: seq<nat>)   // a marketplace match that read its postings before other steps
    | EvLatePair(id: string, k: nat)                    // a pair an exact pass decided on rows it read before other steps

  function Or(o: Option<Books>, b: Books): Books { match o case Some(t) => t case None => b }

  function Apply(b: Books, e: Event): Books
  {
    match e
    case EvAddLine(id, l) =>
      if id in b.lines then b else b.(lines := b.lines[id := l.(status := Unmatched, how := "", difference := 0)])
    case EvAddPosting(p) =>
      if p.debit < 0 || p.credit < 0 then b
      else b.(postings := b.postings + [p.(payoutOf := None, linked := None)])
    case EvClosed(closed) => b.(closed := closed)
    case EvMatch(id, ks) => Or(MatchLine(b, id, ks), b)
    case EvUnmatch(id) => Or(UnmatchLine(b, id), b)
    case EvRaise(id) => Or(RaiseException(b, id), b)
    case EvExplain(id) => Or(ExplainException(b, id), b)
    case EvMarketplace(id, batch) => Or(MatchMarketplace(b, id, batch), b)
    case EvPOSPayout(id, clearing, fee, at) => Or(MatchPayout(b, id, clearing, fee, at), b)
    case EvRule(account, rule, lines, free) =>
      if !OpenListing(b, account, lines) || !FreeListing(b, GL(b, account), free) then b
      else
        var pairs := RulePairs(b, rule, lines, free);
        if PairsInRange(b, pairs) then LinkPairs(b, pairs) else b
    case EvExact(account, lines, free) =>
      if !OpenListing(b, account, lines) || !FreeListing(b, GL(b, account), free) then b
      else
        var pairs := ExactPairs(b, lines, free).0;
        if PairsInRange(b, pairs) then LinkPairs(b, pairs) else b
    case EvLateBatch(id, batch, ks) => if BatchFits(b, id, ks) then BatchMatched(b, id, batch, ks) else b
    case EvLatePair(id, k) => if Fits(b, id, k) then LinkPair(b, Pair(id, k, "auto:exact", 0)) else b
  }

  function Run(b: Books, events: seq<Event>): Books
    decreases |events|
  {
    if events == [] then b else Run(Apply(b, events[0]), events[1..])
  }
}
