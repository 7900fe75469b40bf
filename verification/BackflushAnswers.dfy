/**
  Which sales have a consumption, and what is in it, said of the rules, the sold lines and the cashier's changes
  (engines/backflush_rules.go).
 */
module BackflushAnswers {
  import opened Text
  import opened Backflush
  import opened BackflushSale

  /** The rule packs the sold line. */
  ghost predicate Packs(applies: Applies, sellable: string -> bool, rules: seq<Rule>, s: Sold, r: Rule)
  {
    s.qty > 0 && sellable(s.sku) && r in rules && applies(s.sku, r)
  }

  // ---- nothing is left out ----------------------------------------------------------------

  /** For every group of every packed sold line there is a line, of the group's best rule and with the change in force. */
  lemma EveryPackedGroupIsConsumed(applies: Applies, sellable: string -> bool, rules: seq<Rule>, sale: seq<Sold>,
                                   os: seq<Override>, i: nat, r: Rule)
    requires DistinctIds(rules) && (forall q :: q in rules ==> q.component != "")
    requires Resolve(applies, sellable, rules, sale, os).Some? && i < |sale| && Packs(applies, sellable, rules, sale[i], r)
    ensures exists l, b: Rule :: l in Resolve(applies, sellable, rules, sale, os).value && Lower(b.group) == Lower(r.group)
                           && AccountedFor(applies, rules, sale[i], OverrideFor(os), l, b)
  {
    var s, fors, g := sale[i], OverrideFor(os), Group(r);
    BestIsMinimum(applies, s.sku, rules, g);
    assert Candidate(applies, s.sku, rules, g, r);
    var b := Best(applies, s.sku, rules)[g];
    ConsumptionHas(applies, sellable, rules, sale, fors, i, g);
    var l := LineFor(rules, s, b, fors).value;
    LineIsAccountedFor(applies, rules, s, fors, l, b);
  }

  /** How many groups of rules pack one sold line. */
  ghost function GroupCount(applies: Applies, sellable: string -> bool, rules: seq<Rule>, s: Sold): nat
  {
    if s.qty > 0 && sellable(s.sku) then |set r | r in rules && applies(s.sku, r) :: Lower(r.group)| else 0
  }

  ghost function SaleCount(applies: Applies, sellable: string -> bool, rules: seq<Rule>, sale: seq<Sold>): nat
  {
    if sale == [] then 0
    else SaleCount(applies, sellable, rules, sale[..|sale| - 1]) + GroupCount(applies, sellable, rules, sale[|sale| - 1])
  }

  lemma {:induction false} GroupsAscend(best: map<string, Rule>, rules: seq<Rule>)
    ensures Ascending(Groups(best, rules))
  {
    if rules != [] {
      GroupsAscend(best, rules[..|rules| - 1]);
      InsertKeepsAscending(Groups(best, rules[..|rules| - 1]), Group(rules[|rules| - 1]));
    }
  }

  lemma {:induction false} AscendingIsASet(t: seq<string>)
    requires Ascending(t)
    ensures |t| == |set x | x in t|
  {
    if t != [] {
      var n := |t| - 1;
      AscendingIsASet(t[..n]);
      forall x | x in t[..n] ensures x != t[n] {
        var i :| 0 <= i < n && t[i] == x;
        LessIsTotal(t[i], t[n]);
      }
      assert t == t[..n] + [t[n]];
      assert (set x | x in t) == (set x | x in t[..n]) + {t[n]};
    }
  }

  lemma {:induction false} LinesForCount(rules: seq<Rule>, s: Sold, best: map<string, Rule>, gs: seq<string>, fors: map<string, Override>)
    requires (forall g :: g in gs ==> g in best) && LinesFor(rules, s, best, gs, fors).Some?
    ensures |LinesFor(rules, s, best, gs, fors).value| == |gs|
  {
    if gs != [] { LinesForCount(rules, s, best, gs[..|gs| - 1], fors); }
  }

  lemma GroupsAreCounted(applies: Applies, sellable: string -> bool, rules: seq<Rule>, s: Sold)
    requires DistinctIds(rules) && s.qty > 0 && sellable(s.sku)
    ensures |Groups(Best(applies, s.sku, rules), rules)| == GroupCount(applies, sellable, rules, s)
  {
    var best := Best(applies, s.sku, rules);
    var gs, packing := Groups(best, rules), set r | r in rules && applies(s.sku, r) :: Lower(r.group);
    GroupsAscend(best, rules);
    AscendingIsASet(gs);
    forall g ensures g in gs <==> g in packing {
      GroupsNameTheirRules(applies, s.sku, rules);
      BestIsMinimum(applies, s.sku, rules, g);
      if g in packing {
        var r :| r in rules && applies(s.sku, r) && Lower(r.group) == g;
        assert Candidate(applies, s.sku, rules, g, r);
      }
    }
    assert (set x | x in gs) == packing;
  }

  /** There is one line for each group that packs each sold line, and no more. */
  lemma {:induction false} LinesAreCounted(applies: Applies, sellable: string -> bool, rules: seq<Rule>, sale: seq<Sold>, fors: map<string, Override>)
    requires DistinctIds(rules) && Consumption(applies, sellable, rules, sale, fors).Some?
    ensures |Consumption(applies, sellable, rules, sale, fors).value| == SaleCount(applies, sellable, rules, sale)
  {
    if sale != [] {
      var s := sale[|sale| - 1];
      LinesAreCounted(applies, sellable, rules, sale[..|sale| - 1], fors);
      if s.qty > 0 && sellable(s.sku) {
        var best := Best(applies, s.sku, rules);
        GroupsAllChosen(best, rules);
        LinesForCount(rules, s, best, Groups(best, rules), fors);
        GroupsAreCounted(applies, sellable, rules, s);
      }
    }
  }

  // ---- when a sale is refused ------------------------------------------------------------------

  /** Some rule packs some sold line under the key. */
  ghost predicate HasSomethingToChange(applies: Applies, sellable: string -> bool, rules: seq<Rule>, sale: seq<Sold>, key: string)
  {
    exists i, r :: 0 <= i < |sale| && Packs(applies, sellable, rules, sale[i], r) && LineKey(sale[i].sku, Lower(r.group)) == key
  }

  /** The change in force for a sold line's group is one its best rule refuses. */
  ghost predicate ChangeRefused(applies: Applies, sellable: string -> bool, rules: seq<Rule>, sale: seq<Sold>,
                                fors: map<string, Override>, i: int, b: Rule)
  {
    && 0 <= i < |sale| && Packs(applies, sellable, rules, sale[i], b) && IsBest(applies, sale[i].sku, rules, Lower(b.group), b)
    && LineKey(sale[i].sku, Lower(b.group)) in fors
    && Overridden(Base(sale[i], b, ChoicesOf(rules, Lower(b.group))), fors[LineKey(sale[i].sku, Lower(b.group))]).None?
  }

  lemma UsedIsHasSomething(applies: Applies, sellable: string -> bool, rules: seq<Rule>, sale: seq<Sold>, key: string)
    requires DistinctIds(rules)
    ensures Used(applies, sellable, rules, sale, key) <==> HasSomethingToChange(applies, sellable, rules, sale, key)
  {
    if Used(applies, sellable, rules, sale, key) {
      var i :| 0 <= i < |sale| && Packed(sellable, sale[i]) && UsedBy(applies, rules, sale[i].sku, key);
      var g :| g in Best(applies, sale[i].sku, rules) && LineKey(sale[i].sku, g) == key;
      BestIsMinimum(applies, sale[i].sku, rules, g);
      assert Packs(applies, sellable, rules, sale[i], Best(applies, sale[i].sku, rules)[g]);
    }
    if i, r :| 0 <= i < |sale| && Packs(applies, sellable, rules, sale[i], r) && LineKey(sale[i].sku, Lower(r.group)) == key {
      BestIsMinimum(applies, sale[i].sku, rules, Group(r));
      assert Candidate(applies, sale[i].sku, rules, Group(r), r);
      assert UsedBy(applies, rules, sale[i].sku, key);
    }
  }

  lemma {:induction false} LinesForRefused(rules: seq<Rule>, s: Sold, best: map<string, Rule>, gs: seq<string>, fors: map<string, Override>)
    requires forall g :: g in gs ==> g in best
    ensures LinesFor(rules, s, best, gs, fors).None? <==> exists g :: g in gs && LineFor(rules, s, best[g], fors).None?
  {
    if gs != [] {
      var init, last := gs[..|gs| - 1], gs[|gs| - 1];
      LinesForRefused(rules, s, best, init, fors);
      assert gs == init + [last];
    }
  }

  lemma {:induction false} ConsumptionRefused(applies: Applies, sellable: string -> bool, rules: seq<Rule>, sale: seq<Sold>,
                                              fors: map<string, Override>)
    requires DistinctIds(rules)
    ensures Consumption(applies, sellable, rules, sale, fors).None? <==> SomeRefused(applies, sellable, rules, sale, fors)
  {
    if sale != [] {
      var init, n := sale[..|sale| - 1], |sale| - 1;
      ConsumptionRefused(applies, sellable, rules, init, fors);
      OneMoreSold(applies, sellable, rules, sale, fors);
      var best := Best(applies, sale[n].sku, rules);
      GroupsAllChosen(best, rules);
      LastRefused(applies, sellable, rules, sale, fors, best, Groups(best, rules));
    }
  }

  ghost predicate SomeRefused(applies: Applies, sellable: string -> bool, rules: seq<Rule>, sale: seq<Sold>, fors: map<string, Override>)
  {
    exists i, b: Rule :: ChangeRefused(applies, sellable, rules, sale, fors, i, b)
  }

  ghost predicate LastIsRefused(applies: Applies, sellable: string -> bool, rules: seq<Rule>, sale: seq<Sold>, fors: map<string, Override>)
  {
    var n := |sale| - 1;
    exists b: Rule :: ChangeRefused(applies, sellable, rules, sale, fors, n, b)
  }

  lemma OneMoreSold(applies: Applies, sellable: string -> bool, rules: seq<Rule>, sale: seq<Sold>, fors: map<string, Override>)
    requires sale != []
    ensures SomeRefused(applies, sellable, rules, sale, fors)
            <==> SomeRefused(applies, sellable, rules, sale[..|sale| - 1], fors) || LastIsRefused(applies, sellable, rules, sale, fors)
  {
    var init := sale[..|sale| - 1];
    if i, b: Rule :| ChangeRefused(applies, sellable, rules, init, fors, i, b) { assert ChangeRefused(applies, sellable, rules, sale, fors, i, b); }
    if i, b: Rule :| ChangeRefused(applies, sellable, rules, sale, fors, i, b) {
      if i < |init| { assert ChangeRefused(applies, sellable, rules, init, fors, i, b); }
    }
  }

  lemma LastRefused(applies: Applies, sellable: string -> bool, rules: seq<Rule>, sale: seq<Sold>, fors: map<string, Override>,
                    best: map<string, Rule>, gs: seq<string>)
    requires DistinctIds(rules) && sale != [] && best == Best(applies, sale[|sale| - 1].sku, rules)
    requires gs == Groups(best, rules) && forall g :: g in gs ==> g in best
    ensures (Packed(sellable, sale[|sale| - 1]) && LinesFor(rules, sale[|sale| - 1], best, gs, fors).None?)
            <==> LastIsRefused(applies, sellable, rules, sale, fors)
  {
    var n := |sale| - 1;
    GroupsNameTheirRules(applies, sale[n].sku, rules);
    LinesForRefused(rules, sale[n], best, gs, fors);
    if Packed(sellable, sale[n]) && LinesFor(rules, sale[n], best, gs, fors).None? {
      var g :| g in gs && LineFor(rules, sale[n], best[g], fors).None?;
      BestIsMinimum(applies, sale[n].sku, rules, g);
      assert ChangeRefused(applies, sellable, rules, sale, fors, n, best[g]);
    }
    if b: Rule :| ChangeRefused(applies, sellable, rules, sale, fors, n, b) {
      var g := Group(b);
      BestIsMinimum(applies, sale[n].sku, rules, g);
      BestIsUnique(applies, sale[n].sku, rules, g, b, best[g]);
      assert g in gs && LineFor(rules, sale[n], best[g], fors).None?;
    }
  }

  /**
    A sale has no consumption exactly when the store has rules and either a change has nothing to change - no rule
    packs any sold line under its key - or the best rule of a group refuses the change in force for it.
   */
  lemma RefusedExactlyWhen(applies: Applies, sellable: string -> bool, rules: seq<Rule>, sale: seq<Sold>, os: seq<Override>)
    requires DistinctIds(rules)
    ensures Resolve(applies, sellable, rules, sale, os).None? <==>
            && rules != []
            && ((exists o :: o in os && !HasSomethingToChange(applies, sellable, rules, sale, OverrideKey(o)))
                || SomeRefused(applies, sellable, rules, sale, OverrideFor(os)))
  {
    ConsumptionRefused(applies, sellable, rules, sale, OverrideFor(os));
    UnusedKeyIsUnused(applies, sellable, rules, sale, os);
  }

  lemma UnusedKeyIsUnused(applies: Applies, sellable: string -> bool, rules: seq<Rule>, sale: seq<Sold>, os: seq<Override>)
    requires DistinctIds(rules)
    ensures (exists key :: key in OverrideFor(os) && !Used(applies, sellable, rules, sale, key))
            <==> exists o :: o in os && !HasSomethingToChange(applies, sellable, rules, sale, OverrideKey(o))
  {
    OverrideForKeys(os);
    if key :| key in OverrideFor(os) && !Used(applies, sellable, rules, sale, key) {
      UsedIsHasSomething(applies, sellable, rules, sale, key);
      assert OverrideFor(os)[key] in os;
    }
    if o :| o in os && !HasSomethingToChange(applies, sellable, rules, sale, OverrideKey(o)) {
      UsedIsHasSomething(applies, sellable, rules, sale, OverrideKey(o));
    }
  }

  // ---- what may not go short ---------------------------------------------------------------------

  ghost function BlockingLines(ls: seq<Line>): seq<Line>
  {
    if ls == [] then []
    else BlockingLines(ls[..|ls| - 1]) + (if ls[|ls| - 1].action == Block then [ls[|ls| - 1]] else [])
  }

  /** Strictly posted is what the blocking lines consume, and offline nothing. */
  lemma {:induction false} StrictIsTheBlockingLines(ls: seq<Line>, c: string)
    ensures TotalIf(ls, false, true, c) == TotalOf(BlockingLines(ls), c)
    ensures TotalIf(ls, true, true, c) == 0
  {
    if ls != [] {
      var init, l := ls[..|ls| - 1], ls[|ls| - 1];
      StrictIsTheBlockingLines(init, c);
      assert (BlockingLines(init) + [l])[..|BlockingLines(init)|] == BlockingLines(init);
      assert BlockingLines(init) + [] == BlockingLines(init);
    }
  }
}
