/** The rule pass of the bank reconciliation workbench (engines/bank_reconciliation_workbench.go). */
module RuleMatch {
  import opened Text

  /** Tolerance in paise, window in days. */
  datatype Rule = Rule(tolerance: int, window: int, useReference: bool)

  datatype LineRow = LineRow(id: string, drCr: string, ref: string, day: Option<int>, amount: int)

  datatype BookRow = BookRow(id: nat, docId: string, debit: int, credit: int, day: int)

  datatype Outcome = Matched(posting: nat, how: string, difference: int) | Ambiguous(count: nat) | NoCandidate | Skipped

  datatype Decision = Decision(line: string, outcome: Outcome)

  /** The side of a bank posting a statement line of this direction corresponds to. */
  function Side(drCr: string, debit: int, credit: int): int { if drCr == "Credit" then debit else credit }

  function SideOf(l: LineRow, b: BookRow): int { Side(l.drCr, b.debit, b.credit) }

  function Abs(x: int): int { if x < 0 then -x else x }

  predicate Directed(l: LineRow) { l.drCr == "Credit" || l.drCr == "Debit" }

  predicate Compatible(rule: Rule, l: LineRow, b: BookRow)
  {
    && SideOf(l, b) != 0 && Abs(SideOf(l, b) - l.amount) <= rule.tolerance
    && (l.day.Some? ==> Abs(b.day - l.day.value) <= rule.window)
  }

  predicate RefMatches(l: LineRow, b: BookRow)
  {
    var ref, doc := Lower(Trim(l.ref)), Lower(b.docId);
    Contains(doc, ref) || Contains(ref, doc)
  }

  /** What a book row is kept for. */
  datatype Test = Usable(used: set<nat>) | ByReference | ExactAmount

  predicate Passes(rule: Rule, l: LineRow, t: Test, b: BookRow)
  {
    match t
    case Usable(used) => b.id !in used && Compatible(rule, l, b)
    case ByReference => RefMatches(l, b)
    case ExactAmount => SideOf(l, b) == l.amount
  }

  function Keep(rule: Rule, l: LineRow, t: Test, book: seq<BookRow>): seq<BookRow>
  {
    if book == [] then []
    else
      var b := book[|book| - 1];
      Keep(rule, l, t, book[..|book| - 1]) + (if Passes(rule, l, t, b) then [b] else [])
  }

  /** The choice among a line's candidates: only ever a unique one. */
  function Choose(rule: Rule, l: LineRow, cands: seq<BookRow>): Outcome
  {
    var byRef, exact := Keep(rule, l, ByReference, cands), Keep(rule, l, ExactAmount, cands);
    if rule.useReference && Trim(l.ref) != "" && |byRef| == 1
    then Matched(byRef[0].id, "rule:reference", l.amount - SideOf(l, byRef[0]))
    else if |cands| == 1 then Matched(cands[0].id, "rule:amount-date", l.amount - SideOf(l, cands[0]))
    else if |cands| > 1 && |exact| == 1 then Matched(exact[0].id, "rule:exact-amount", 0)
    else if cands == [] then NoCandidate else Ambiguous(|cands|)
  }

  function Decide(rule: Rule, l: LineRow, book: seq<BookRow>, used: set<nat>): Outcome
  {
    if !Directed(l) then Skipped else Choose(rule, l, Keep(rule, l, Usable(used), book))
  }

  /** The decisions on the lines in their order, and the postings they use up. */
  function Pass(rule: Rule, lines: seq<LineRow>, book: seq<BookRow>): (seq<Decision>, set<nat>)
  {
    if lines == [] then ([], {})
    else
      var (before, used) := Pass(rule, lines[..|lines| - 1], book);
      var l := lines[|lines| - 1];
      var o := Decide(rule, l, book, used);
      (before + [Decision(l.id, o)], if o.Matched? then used + {o.posting} else used)
  }

  ghost predicate DistinctIds(book: seq<BookRow>)
  {
    forall i, j :: 0 <= i < j < |book| ==> book[i].id != book[j].id
  }

  // ---- the loop ----------------------------------------------------------------------

  lemma KeepStep(rule: Rule, l: LineRow, t: Test, book: seq<BookRow>, i: nat)
    requires i < |book|
    ensures Keep(rule, l, t, book[..i + 1]) ==
            Keep(rule, l, t, book[..i]) + (if Passes(rule, l, t, book[i]) then [book[i]] else [])
  {
    assert book[..i + 1][..i] == book[..i];
  }

  /** One line against the book; `used` holds indices into book. */
  method FindCandidates(rule: Rule, l: LineRow, book: seq<BookRow>, used: set<nat>, ghost usedIds: set<nat>)
    returns (cands: seq<BookRow>)
    requires forall i :: 0 <= i < |book| ==> (i in used <==> book[i].id in usedIds)
    ensures cands == Keep(rule, l, Usable(usedIds), book)
  {
    cands := [];
    for i := 0 to |book|
      invariant cands == Keep(rule, l, Usable(usedIds), book[..i])
    {
      KeepStep(rule, l, Usable(usedIds), book, i);
      var b := book[i];
      if i in used { continue; }
      var side := Side(l.drCr, b.debit, b.credit);
      if side == 0 || Abs(side - l.amount) > rule.tolerance { continue; }
      if l.day.Some? && Abs(b.day - l.day.value) > rule.window { continue; }
      cands := cands + [b];
    }
    assert book[..|book|] == book;
  }

  method KeepOnly(rule: Rule, l: LineRow, t: Test, rows: seq<BookRow>) returns (kept: seq<BookRow>)
    ensures kept == Keep(rule, l, t, rows)
  {
    kept := [];
    for i := 0 to |rows|
      invariant kept == Keep(rule, l, t, rows[..i])
    {
      KeepStep(rule, l, t, rows, i);
      if Passes(rule, l, t, rows[i]) { kept := kept + [rows[i]]; }
    }
    assert rows[..|rows|] == rows;
  }

  method Pick(rule: Rule, l: LineRow, cands: seq<BookRow>) returns (o: Outcome)
    ensures o == Choose(rule, l, cands)
  {
    if rule.useReference && Trim(l.ref) != "" {
      var byRef := KeepOnly(rule, l, ByReference, cands);
      if |byRef| == 1 {
        return Matched(byRef[0].id, "rule:reference", l.amount - Side(l.drCr, byRef[0].debit, byRef[0].credit));
      }
    }
    if |cands| == 1 {
      return Matched(cands[0].id, "rule:amount-date", l.amount - Side(l.drCr, cands[0].debit, cands[0].credit));
    }
    if |cands| > 1 {
      var exact := KeepOnly(rule, l, ExactAmount, cands);
      if |exact| == 1 {
        KeepSound(rule, l, ExactAmount, cands);
        assert exact[0] in exact;
        return Matched(exact[0].id, "rule:exact-amount", l.amount - Side(l.drCr, exact[0].debit, exact[0].credit));
      }
    }
    o := if cands == [] then NoCandidate else Ambiguous(|cands|);
  }

  /** RuleMatchBankStatement's pass over the open lines, in the order given. */
  method RulePass(rule: Rule, lines: seq<LineRow>, book: seq<BookRow>) returns (decisions: seq<Decision>)
    requires DistinctIds(book)
    ensures decisions == Pass(rule, lines, book).0 && |decisions| == |lines|
    ensures forall k :: 0 <= k < |lines| ==> DeservedAt(rule, lines, book, decisions, k)
  {
    decisions := [];
    var used: set<nat> := {};
    ghost var usedIds: set<nat> := {};
    for k := 0 to |lines|
      invariant (decisions, usedIds) == Pass(rule, lines[..k], book)
      invariant forall i :: 0 <= i < |book| ==> (i in used <==> book[i].id in usedIds)
    {
      assert lines[..k + 1][..k] == lines[..k];
      var l := lines[k];
      if l.drCr != "Credit" && l.drCr != "Debit" {
        decisions := decisions + [Decision(l.id, Skipped)];
        continue;
      }
      var cands := FindCandidates(rule, l, book, used, usedIds);
      var o := Pick(rule, l, cands);
      decisions := decisions + [Decision(l.id, o)];
      if o.Matched? {
        ChosenIsCandidate(rule, l, book, usedIds);
        var i: nat :| i < |book| && book[i].id == o.posting;
        used, usedIds := used + {i}, usedIds + {o.posting};
      }
    }
    assert lines[..|lines|] == lines;
    PassIsSound(rule, lines, book);
    forall k | 0 <= k < |lines| ensures DeservedAt(rule, lines, book, decisions, k) {
      EveryLineGetsWhatItDeserves(rule, lines, book, k);
    }
  }

  // ---- what the pass promises ------------------------------------------------------------

  lemma {:induction false} KeepSound(rule: Rule, l: LineRow, t: Test, book: seq<BookRow>)
    ensures forall b :: b in Keep(rule, l, t, book) <==> b in book && Passes(rule, l, t, b)
  {
    if book != [] {
      var init, last := book[..|book| - 1], book[|book| - 1];
      KeepSound(rule, l, t, init);
      assert book == init + [last];
    }
  }

  /** The matched posting is a book row compatible with the line, and the difference is what it leaves over. */
  ghost predicate FitsSome(rule: Rule, l: LineRow, book: seq<BookRow>, o: Outcome)
    requires o.Matched?
  {
    exists i :: 0 <= i < |book| && book[i].id == o.posting && Compatible(rule, l, book[i])
                && o.difference == l.amount - SideOf(l, book[i])
  }

  /** A chosen posting is in the book, free and compatible with the line; its difference is what is left over. */
  lemma ChosenIsCandidate(rule: Rule, l: LineRow, book: seq<BookRow>, used: set<nat>)
    requires Decide(rule, l, book, used).Matched?
    ensures var o := Decide(rule, l, book, used); o.posting !in used && FitsSome(rule, l, book, o)
  {
    var cands := Keep(rule, l, Usable(used), book);
    KeepSound(rule, l, Usable(used), book);
    KeepSound(rule, l, ByReference, cands);
    KeepSound(rule, l, ExactAmount, cands);
    var o := Decide(rule, l, book, used);
    var byRef, exact := Keep(rule, l, ByReference, cands), Keep(rule, l, ExactAmount, cands);
    var b: BookRow := if rule.useReference && Trim(l.ref) != "" && |byRef| == 1 then byRef[0]
                      else if |cands| == 1 then cands[0] else exact[0];
    assert b in cands;
    assert b in book;
  }

  ghost predicate UsesPosting(ds: seq<Decision>, k: int, id: nat)
    requires 0 <= k < |ds|
  {
    ds[k].outcome.Matched? && ds[k].outcome.posting == id
  }

  /** Everything a pass promises about its decisions. */
  ghost predicate PassSound(rule: Rule, lines: seq<LineRow>, book: seq<BookRow>, ds: seq<Decision>, used: set<nat>)
  {
    && |ds| == |lines|
    && (forall k :: 0 <= k < |ds| ==> ds[k].line == lines[k].id && (ds[k].outcome.Skipped? <==> !Directed(lines[k])))
    && (forall id :: id in used <==> exists k :: 0 <= k < |ds| && UsesPosting(ds, k, id))
    && (forall j, k, id :: 0 <= j < k < |ds| && UsesPosting(ds, j, id) ==> !UsesPosting(ds, k, id))
    && (forall k :: 0 <= k < |ds| && ds[k].outcome.Matched? ==> FitsSome(rule, lines[k], book, ds[k].outcome))
    && (forall k, b :: 0 <= k < |ds| && ds[k].outcome.NoCandidate? && b in book && b.id !in used ==>
          !Compatible(rule, lines[k], b))
  }

  /**
    Each line gets exactly one of the four outcomes; no posting is used twice; every match is within
    tolerance and window and records exactly what it leaves over; and no line reported without a
    candidate is compatible with a posting left unused.
   */
  lemma {:induction false} PassIsSound(rule: Rule, lines: seq<LineRow>, book: seq<BookRow>)
    ensures PassSound(rule, lines, book, Pass(rule, lines, book).0, Pass(rule, lines, book).1)
  {
    if lines != [] {
      var init, l := lines[..|lines| - 1], lines[|lines| - 1];
      PassIsSound(rule, init, book);
      var (before, used) := Pass(rule, init, book);
      var o := Decide(rule, l, book, used);
      if o.Matched? { ChosenIsCandidate(rule, l, book, used); }
      KeepSound(rule, l, Usable(used), book);
      PassSoundStep(rule, lines, book, before, used, o);
    }
  }

  lemma PassSoundStep(rule: Rule, lines: seq<LineRow>, book: seq<BookRow>, before: seq<Decision>, used: set<nat>, o: Outcome)
    requires lines != [] && PassSound(rule, lines[..|lines| - 1], book, before, used)
    requires var l := lines[|lines| - 1];
             && (o.Skipped? <==> !Directed(l))
             && (o.Matched? ==> o.posting !in used && FitsSome(rule, l, book, o))
             && (o.NoCandidate? ==> forall b :: b in book && b.id !in used ==> !Compatible(rule, l, b))
    ensures PassSound(rule, lines, book, before + [Decision(lines[|lines| - 1].id, o)],
                      if o.Matched? then used + {o.posting} else used)
  {
    var n := |before|;
    var ds := before + [Decision(lines[n].id, o)];
    var used' := if o.Matched? then used + {o.posting} else used;
    assert forall k :: 0 <= k < n ==> ds[k] == before[k] && lines[..n][k] == lines[k];
    assert forall k, id :: 0 <= k < n ==> (UsesPosting(ds, k, id) <==> UsesPosting(before, k, id));
    forall id ensures id in used' <==> exists k :: 0 <= k < |ds| && UsesPosting(ds, k, id) {
      if id in used { var k :| 0 <= k < n && UsesPosting(before, k, id); assert UsesPosting(ds, k, id); }
      if o.Matched? && id == o.posting { assert UsesPosting(ds, n, id); }
    }
  }

  // ---- a line that can be matched is matched ------------------------------------------------------

  /** A posting is the only one of its ids in the book that passes a test. */
  ghost predicate Only(book: seq<BookRow>, fits: BookRow -> bool, b: BookRow)
  {
    b in book && fits(b) && forall c :: c in book && fits(c) ==> c == b
  }

  ghost predicate Unique(book: seq<BookRow>, fits: BookRow -> bool)
  {
    exists b :: Only(book, fits, b)
  }

  /** Free for the line and within tolerance and window. */
  ghost function Free(rule: Rule, l: LineRow, used: set<nat>): BookRow -> bool
  {
    (b: BookRow) =>
      var side := if l.drCr == "Credit" then b.debit else b.credit;
      && b.id !in used && side != 0 && -rule.tolerance <= side - l.amount <= rule.tolerance
      && (l.day.Some? ==> -rule.window <= b.day - l.day.value <= rule.window)
  }

  /** Free, and the line's reference and the posting's document contain one another. */
  ghost function Referred(rule: Rule, l: LineRow, used: set<nat>): BookRow -> bool
  {
    (b: BookRow) =>
      && Free(rule, l, used)(b) && rule.useReference && Trim(l.ref) != ""
      && (Contains(Lower(b.docId), Lower(Trim(l.ref))) || Contains(Lower(Trim(l.ref)), Lower(b.docId)))
  }

  /** Free, and of exactly the line's amount. */
  ghost function Exact(rule: Rule, l: LineRow, used: set<nat>): BookRow -> bool
  {
    (b: BookRow) => Free(rule, l, used)(b) && l.amount == if l.drCr == "Credit" then b.debit else b.credit
  }

  /** How many rows pass. */
  ghost function Count(book: seq<BookRow>, fits: BookRow -> bool): nat
  {
    if book == [] then 0 else Count(book[..|book| - 1], fits) + (if fits(book[|book| - 1]) then 1 else 0)
  }

  /** The outcome a directed line deserves, said of the book and the postings used before it. */
  ghost predicate Deserved(rule: Rule, l: LineRow, book: seq<BookRow>, used: set<nat>, o: Outcome)
  {
    var free, referred, exact := Free(rule, l, used), Referred(rule, l, used), Exact(rule, l, used);
    match o
    case Skipped => l.drCr != "Credit" && l.drCr != "Debit"
    case NoCandidate => Directed(l) && forall b :: b in book ==> !free(b)
    case Ambiguous(n) =>
      && Directed(l) && n == Count(book, free) && n >= 2 && !Unique(book, referred) && !Unique(book, exact)
    case Matched(id, how, difference) =>
      && Directed(l)
      && exists b :: b in book && b.id == id && difference == l.amount - (if l.drCr == "Credit" then b.debit else b.credit)
           && if Unique(book, referred) then how == "rule:reference" && Only(book, referred, b)
              else if Unique(book, free) then how == "rule:amount-date" && Only(book, free, b)
              else how == "rule:exact-amount" && Only(book, exact, b)
  }

  lemma {:induction false} KeepCounts(rule: Rule, l: LineRow, t: Test, book: seq<BookRow>, fits: BookRow -> bool)
    requires forall b :: b in book ==> (fits(b) <==> Passes(rule, l, t, b))
    ensures |Keep(rule, l, t, book)| == Count(book, fits)
  {
    if book != [] {
      assert book == book[..|book| - 1] + [book[|book| - 1]];
      KeepCounts(rule, l, t, book[..|book| - 1], fits);
    }
  }

  /** What is kept of different rows is different rows. */
  lemma {:induction false} KeepDistinct(rule: Rule, l: LineRow, t: Test, book: seq<BookRow>)
    requires DistinctIds(book)
    ensures DistinctIds(Keep(rule, l, t, book))
  {
    if book != [] {
      var init, last := book[..|book| - 1], book[|book| - 1];
      KeepDistinct(rule, l, t, init);
      KeepSound(rule, l, t, init);
      var kept := Keep(rule, l, t, init);
      forall i | 0 <= i < |kept| ensures kept[i].id != last.id {
        assert kept[i] in kept && kept[i] in init;
        var j :| 0 <= j < |init| && init[j] == kept[i];
        assert book[j] == kept[i];
      }
    }
  }

  /** One row is kept exactly when one row passes. */
  lemma OneKept(rule: Rule, l: LineRow, t: Test, rows: seq<BookRow>, book: seq<BookRow>, fits: BookRow -> bool)
    requires DistinctIds(rows)
    requires forall b :: b in rows && Passes(rule, l, t, b) <==> b in book && fits(b)
    ensures var kept := Keep(rule, l, t, rows);
            && (|kept| == 1 <==> Unique(book, fits)) && (|kept| == 1 ==> Only(book, fits, kept[0]))
            && (kept == [] <==> forall b :: b in book ==> !fits(b))
  {
    var kept := Keep(rule, l, t, rows);
    KeepSound(rule, l, t, rows);
    KeepDistinct(rule, l, t, rows);
    if |kept| == 1 {
      assert kept[0] in kept;
      assert Only(book, fits, kept[0]);
    }
    if kept == [] {
      forall b | b in book ensures !fits(b) { assert b !in kept; }
    } else {
      assert kept[0] in kept;
    }
    if b :| Only(book, fits, b) {
      assert b in kept;
      SameIsOne(kept, b);
    }
  }

  lemma SameIsOne(kept: seq<BookRow>, b: BookRow)
    requires DistinctIds(kept) && b in kept && forall c :: c in kept ==> c == b
    ensures |kept| == 1
  {
    var last := |kept| - 1;
    assert kept[0] in kept && kept[last] in kept;
    assert !(0 < last);
  }

  lemma DecisionIsDeserved(rule: Rule, l: LineRow, book: seq<BookRow>, used: set<nat>)
    requires DistinctIds(book)
    ensures Deserved(rule, l, book, used, Decide(rule, l, book, used))
  {
    if Directed(l) {
      var cands := Keep(rule, l, Usable(used), book);
      CandidatesAreFree(rule, l, book, used);
      ExactAreExact(rule, l, book, used);
      if rule.useReference && Trim(l.ref) != "" {
        ReferredAreReferred(rule, l, book, used);
      } else {
        assert !Unique(book, Referred(rule, l, used));
      }
    }
  }

  lemma CandidatesAreFree(rule: Rule, l: LineRow, book: seq<BookRow>, used: set<nat>)
    requires DistinctIds(book)
    ensures var cands, free := Keep(rule, l, Usable(used), book), Free(rule, l, used);
            && DistinctIds(cands) && |cands| == Count(book, free) && (forall b :: b in cands <==> b in book && free(b))
            && (|cands| == 1 <==> Unique(book, free)) && (|cands| == 1 ==> Only(book, free, cands[0]))
            && (cands == [] <==> forall b :: b in book ==> !free(b))
  {
    KeepSound(rule, l, Usable(used), book);
    KeepDistinct(rule, l, Usable(used), book);
    assert forall b :: Passes(rule, l, Usable(used), b) <==> Free(rule, l, used)(b);
    OneKept(rule, l, Usable(used), book, book, Free(rule, l, used));
    KeepCounts(rule, l, Usable(used), book, Free(rule, l, used));
  }

  lemma ExactAreExact(rule: Rule, l: LineRow, book: seq<BookRow>, used: set<nat>)
    requires DistinctIds(book)
    ensures var exact := Keep(rule, l, ExactAmount, Keep(rule, l, Usable(used), book));
            && (|exact| == 1 <==> Unique(book, Exact(rule, l, used)))
            && (|exact| == 1 ==> Only(book, Exact(rule, l, used), exact[0]))
  {
    CandidatesAreFree(rule, l, book, used);
    OneKept(rule, l, ExactAmount, Keep(rule, l, Usable(used), book), book, Exact(rule, l, used));
  }

  lemma ReferredAreReferred(rule: Rule, l: LineRow, book: seq<BookRow>, used: set<nat>)
    requires DistinctIds(book) && rule.useReference && Trim(l.ref) != ""
    ensures var referred := Keep(rule, l, ByReference, Keep(rule, l, Usable(used), book));
            && (|referred| == 1 <==> Unique(book, Referred(rule, l, used)))
            && (|referred| == 1 ==> Only(book, Referred(rule, l, used), referred[0]))
  {
    CandidatesAreFree(rule, l, book, used);
    OneKept(rule, l, ByReference, Keep(rule, l, Usable(used), book), book, Referred(rule, l, used));
  }

  /** The postings the decisions before line k matched. */
  ghost predicate UsedBefore(ds: seq<Decision>, k: nat, used: set<nat>)
    requires k <= |ds|
  {
    forall id :: id in used <==> exists j :: 0 <= j < k && UsesPosting(ds, j, id)
  }

  ghost predicate DeservedAt(rule: Rule, lines: seq<LineRow>, book: seq<BookRow>, ds: seq<Decision>, k: int)
    requires |ds| == |lines| && 0 <= k < |lines|
  {
    exists used :: UsedBefore(ds, k, used) && Deserved(rule, lines[k], book, used, ds[k].outcome)
  }

  /**
    Every line gets the outcome it deserves of the postings no earlier line used: the unique one its reference names,
    else the only one that fits, else the only one of exactly its amount; ambiguous only when at least two fit and
    neither singles one out.
   */
  lemma {:induction false} EveryLineGetsWhatItDeserves(rule: Rule, lines: seq<LineRow>, book: seq<BookRow>, k: nat)
    requires DistinctIds(book) && k < |lines|
    ensures var ds := Pass(rule, lines, book).0; |ds| == |lines| && DeservedAt(rule, lines, book, ds, k)
  {
    var n := |lines| - 1;
    var (before, used) := Pass(rule, lines[..n], book);
    var ds := Pass(rule, lines, book).0;
    PassIsSound(rule, lines[..n], book);
    assert ds == before + [Decision(lines[n].id, Decide(rule, lines[n], book, used))];
    assert forall j, id :: 0 <= j < n ==> (UsesPosting(ds, j, id) <==> UsesPosting(before, j, id));
    if k < n {
      EveryLineGetsWhatItDeserves(rule, lines[..n], book, k);
      var u :| UsedBefore(before, k, u) && Deserved(rule, lines[..n][k], book, u, before[k].outcome);
      assert UsedBefore(ds, k, u);
    } else {
      DecisionIsDeserved(rule, lines[n], book, used);
      assert UsedBefore(ds, n, used);
    }
  }

  // ---- row order does not matter ----------------------------------------------------------------

  lemma {:induction false} KeepMultiplicity(rule: Rule, l: LineRow, t: Test, book: seq<BookRow>, b: BookRow)
    ensures multiset(Keep(rule, l, t, book))[b] == if Passes(rule, l, t, b) then multiset(book)[b] else 0
  {
    if book != [] {
      var init, last := book[..|book| - 1], book[|book| - 1];
      KeepMultiplicity(rule, l, t, init, b);
      assert book == init + [last];
      assert multiset(book) == multiset(init) + multiset{last};
      assert Keep(rule, l, t, book) == Keep(rule, l, t, init) + (if Passes(rule, l, t, last) then [last] else []);
    }
  }

  lemma KeepIgnoresOrder(rule: Rule, l: LineRow, t: Test, a: seq<BookRow>, b: seq<BookRow>)
    requires multiset(a) == multiset(b)
    ensures multiset(Keep(rule, l, t, a)) == multiset(Keep(rule, l, t, b))
    ensures |Keep(rule, l, t, a)| == |Keep(rule, l, t, b)|
    ensures |Keep(rule, l, t, a)| == 1 ==> Keep(rule, l, t, a) == Keep(rule, l, t, b)
  {
    forall x: BookRow ensures multiset(Keep(rule, l, t, a))[x] == multiset(Keep(rule, l, t, b))[x] {
      KeepMultiplicity(rule, l, t, a, x);
      KeepMultiplicity(rule, l, t, b, x);
    }
    SameRows(Keep(rule, l, t, a), Keep(rule, l, t, b));
  }

  lemma SameRows(a: seq<BookRow>, b: seq<BookRow>)
    requires forall x: BookRow :: multiset(a)[x] == multiset(b)[x]
    ensures multiset(a) == multiset(b) && |a| == |b| && (|a| == 1 ==> a == b)
  {
    assert multiset(a) == multiset(b);
    assert |a| == |multiset(a)| == |multiset(b)| == |b|;
    if |a| == 1 { assert a[0] in multiset(b); }
  }

  /** A line's outcome depends on which postings are free, not on the order they were read in. */
  lemma DecideIgnoresOrder(rule: Rule, l: LineRow, a: seq<BookRow>, b: seq<BookRow>, used: set<nat>)
    requires multiset(a) == multiset(b)
    ensures Decide(rule, l, a, used) == Decide(rule, l, b, used)
  {
    var ca, cb := Keep(rule, l, Usable(used), a), Keep(rule, l, Usable(used), b);
    KeepIgnoresOrder(rule, l, Usable(used), a, b);
    KeepIgnoresOrder(rule, l, ByReference, ca, cb);
    KeepIgnoresOrder(rule, l, ExactAmount, ca, cb);
    if |ca| == 1 { assert ca == cb; }
  }

  /** The unordered book query makes no difference: every permutation of it gives the same pass. */
  lemma {:induction false} PassIgnoresBookOrder(rule: Rule, lines: seq<LineRow>, a: seq<BookRow>, b: seq<BookRow>)
    requires multiset(a) == multiset(b)
    ensures Pass(rule, lines, a) == Pass(rule, lines, b)
  {
    if lines != [] {
      var init := lines[..|lines| - 1];
      PassIgnoresBookOrder(rule, init, a, b);
      DecideIgnoresOrder(rule, lines[|lines| - 1], a, b, Pass(rule, init, a).1);
    }
  }
}
