/** A sale's consumption step by step, its totals, shortages and posting (engines/backflush_rules.go). */
module BackflushSale {
  import opened Text
  import opened Backflush

  /** Each group's choices, sorted. */
  function Offered(rules: seq<Rule>): map<string, seq<Choice>>
  {
    var named := Choices(rules).0;
    map g | g in named :: ByName(named[g])
  }

  method SortChoices(named: map<string, seq<Choice>>) returns (choices: map<string, seq<Choice>>)
    ensures choices == map g | g in named :: ByName(named[g])
  {
    choices := named;
    var rest := named.Keys;
    while rest != {}
      invariant rest <= named.Keys && choices.Keys == named.Keys
      invariant forall g :: g in named ==> choices[g] == if g in rest then named[g] else ByName(named[g])
      decreases |rest|
    {
      var g :| g in rest;
      choices, rest := choices[g := ByName(named[g])], rest - {g};
    }
  }

  method BuildChoices(rules: seq<Rule>) returns (choices: map<string, seq<Choice>>)
    ensures choices == Choices(rules).0
  {
    choices := map[];
    var seen: set<string> := {};
    for i := 0 to |rules|
      invariant (choices, seen) == Choices(rules[..i])
    {
      assert rules[..i + 1][..i] == rules[..i];
      var r := rules[i];
      var key, g := Group(r) + "|" + Lower(r.component), Group(r);
      if key in seen { continue; }
      seen := seen + {key};
      choices := choices[g := (if g in choices then choices[g] else []) + [Choice(r.component, r.name)]];
    }
    assert rules[..|rules|] == rules;
  }

  method CollectOverrides(os: seq<Override>) returns (fors: map<string, Override>)
    ensures fors == OverrideFor(os)
  {
    fors := map[];
    for i := 0 to |os|
      invariant fors == OverrideFor(os[..i])
    {
      assert os[..i + 1][..i] == os[..i];
      fors := fors[OverrideKey(os[i]) := os[i]];
    }
    assert os[..|os|] == os;
  }

  /** The line of one group, with the cashier's change if there is one. */
  method ConsumeGroup(rules: seq<Rule>, s: Sold, rule: Rule, choices: map<string, seq<Choice>>, fors: map<string, Override>)
    returns (r: Option<Line>, used: bool)
    requires choices == Offered(rules)
    ensures r == LineFor(rules, s, rule, fors) && (used <==> LineKey(s.sku, Group(rule)) in fors)
  {
    var g := Group(rule);
    var l := Base(s, rule, if g in choices then choices[g] else []);
    assert l.choices == ChoicesOf(rules, g);
    var key := LineKey(s.sku, g);
    used := key in fors;
    if !used { return Some(l), false; }
    r := ApplyConsumptionOverride(l, fors[key]);
  }

  /** The override keys the line's groups use. */
  ghost predicate UsesExactly(s: Sold, gs: seq<string>, fors: map<string, Override>, used: set<string>)
  {
    forall key :: key in used <==> key in fors && exists j :: 0 <= j < |gs| && LineKey(s.sku, gs[j]) == key
  }

  lemma UsesStep(s: Sold, gs: seq<string>, i: nat, fors: map<string, Override>, used: set<string>)
    requires i < |gs| && UsesExactly(s, gs[..i], fors, used)
    ensures var key := LineKey(s.sku, gs[i]); UsesExactly(s, gs[..i + 1], fors, if key in fors then used + {key} else used)
  {
    var last := LineKey(s.sku, gs[i]);
    var after := if last in fors then used + {last} else used;
    var init, all := gs[..i], gs[..i + 1];
    forall key ensures key in after <==> key in fors && exists j :: 0 <= j < |all| && LineKey(s.sku, all[j]) == key {
      if j :| 0 <= j < |init| && LineKey(s.sku, init[j]) == key { assert all[j] == init[j]; }
      if key == last { assert all[i] == gs[i]; }
    }
  }

  /** One sold line: its groups in order, each with the cashier's change. */
  method ConsumeLine(rules: seq<Rule>, s: Sold, best: map<string, Rule>, gs: seq<string>, choices: map<string, seq<Choice>>,
                     fors: map<string, Override>) returns (r: Option<seq<Line>>, used: set<string>)
    requires (forall g :: g in gs ==> g in best && Group(best[g]) == g) && choices == Offered(rules)
    ensures r == LinesFor(rules, s, best, gs, fors)
    ensures r.Some? ==> UsesExactly(s, gs, fors, used)
  {
    var out: seq<Line> := [];
    used := {};
    for i := 0 to |gs|
      invariant LinesFor(rules, s, best, gs[..i], fors) == Some(out)
      invariant UsesExactly(s, gs[..i], fors, used)
    {
      assert gs[..i + 1][..i] == gs[..i] && gs[i] in gs;
      UsesStep(s, gs, i, fors, used);
      var l, changed := ConsumeGroup(rules, s, best[gs[i]], choices, fors);
      if changed { used := used + {LineKey(s.sku, gs[i])}; }
      if l.None? {
        RefusedStays(rules, s, best, gs, i + 1, fors);
        return None, used;
      }
      out := out + [l.value];
    }
    assert gs[..|gs|] == gs;
    r := Some(out);
  }

  lemma {:induction false} RefusedStays(rules: seq<Rule>, s: Sold, best: map<string, Rule>, gs: seq<string>, i: nat, fors: map<string, Override>)
    requires (forall g :: g in gs ==> g in best) && i <= |gs| && LinesFor(rules, s, best, gs[..i], fors).None?
    ensures LinesFor(rules, s, best, gs, fors).None?
  {
    if i < |gs| {
      assert gs[..|gs| - 1][..i] == gs[..i];
      RefusedStays(rules, s, best, gs[..|gs| - 1], i, fors);
    } else {
      assert gs[..i] == gs;
    }
  }

  /** The groups of the chosen rules, collected in text order. */
  method SortGroups(best: map<string, Rule>, rules: seq<Rule>) returns (gs: seq<string>)
    ensures gs == Groups(best, rules)
  {
    gs := [];
    for i := 0 to |rules|
      invariant gs == Groups(best, rules[..i])
    {
      assert rules[..i + 1][..i] == rules[..i];
      if Group(rules[i]) in best { gs := InsertGroup(gs, Group(rules[i])); }
    }
    assert rules[..|rules|] == rules;
  }

  lemma GroupsNameTheirRules(applies: Applies, sku: string, rules: seq<Rule>)
    requires DistinctIds(rules)
    ensures var best := Best(applies, sku, rules);
            && (forall g :: g in Groups(best, rules) <==> g in best)
            && (forall g :: g in best ==> Group(best[g]) == g)
  {
    var best := Best(applies, sku, rules);
    forall g ensures (g in Groups(best, rules) <==> g in best) && (g in best ==> Group(best[g]) == g) {
      GroupsAreChosen(best, rules, g);
      BestIsMinimum(applies, sku, rules, g);
    }
  }

  ghost predicate KeysUsed(applies: Applies, sellable: string -> bool, rules: seq<Rule>, sale: seq<Sold>,
                           fors: map<string, Override>, used: set<string>)
  {
    forall key :: key in used <==> key in fors && Used(applies, sellable, rules, sale, key)
  }

  /** One more sold line uses the keys of its groups. */
  lemma KeysUsedStep(applies: Applies, sellable: string -> bool, rules: seq<Rule>, sale: seq<Sold>, i: nat,
                     fors: map<string, Override>, used: set<string>, here: set<string>)
    requires i < |sale| && DistinctIds(rules) && KeysUsed(applies, sellable, rules, sale[..i], fors, used)
    requires Packed(sellable, sale[i]) ==>
               UsesExactly(sale[i], Groups(Best(applies, sale[i].sku, rules), rules), fors, here)
    requires !Packed(sellable, sale[i]) ==> here == {}
    ensures KeysUsed(applies, sellable, rules, sale[..i + 1], fors, used + here)
  {
    forall key ensures key in used + here <==> key in fors && Used(applies, sellable, rules, sale[..i + 1], key) {
      UsedStep(applies, sellable, rules, sale, i, key);
      UsedByIsListed(applies, rules, sale[i], key);
      assert key in used <==> key in fors && Used(applies, sellable, rules, sale[..i], key);
      if Packed(sellable, sale[i]) {
        assert key in here <==> key in fors && UsedBy(applies, rules, sale[i].sku, key);
      } else {
        assert used + here == used;
      }
    }
  }

  lemma UsedByIsListed(applies: Applies, rules: seq<Rule>, s: Sold, key: string)
    requires DistinctIds(rules)
    ensures var gs := Groups(Best(applies, s.sku, rules), rules);
            UsedBy(applies, rules, s.sku, key) <==> exists j :: 0 <= j < |gs| && LineKey(s.sku, gs[j]) == key
  {
    var gs := Groups(Best(applies, s.sku, rules), rules);
    if g :| g in Best(applies, s.sku, rules) && LineKey(s.sku, g) == key {
      GroupsAreChosen(Best(applies, s.sku, rules), rules, g);
      BestIsMinimum(applies, s.sku, rules, g);
      var j :| 0 <= j < |gs| && gs[j] == g;
      assert LineKey(s.sku, gs[j]) == key;
    }
    if j :| 0 <= j < |gs| && LineKey(s.sku, gs[j]) == key { GroupsAreChosen(Best(applies, s.sku, rules), rules, gs[j]); }
  }

  lemma UsedStep(applies: Applies, sellable: string -> bool, rules: seq<Rule>, sale: seq<Sold>, i: nat, key: string)
    requires i < |sale|
    ensures Used(applies, sellable, rules, sale[..i + 1], key) <==>
            Used(applies, sellable, rules, sale[..i], key) || (Packed(sellable, sale[i]) && UsedBy(applies, rules, sale[i].sku, key))
  {
    var a, b := sale[..i], sale[..i + 1];
    if k :| 0 <= k < |a| && Packed(sellable, a[k]) && UsedBy(applies, rules, a[k].sku, key) { assert b[k] == a[k]; }
    if Packed(sellable, sale[i]) && UsedBy(applies, rules, sale[i].sku, key) { assert b[i] == sale[i]; }
    if k :| 0 <= k < |b| && Packed(sellable, b[k]) && UsedBy(applies, rules, b[k].sku, key) {
      if k < i { assert a[k] == b[k]; }
    }
  }

  lemma {:induction false} RefusalStays(applies: Applies, sellable: string -> bool, rules: seq<Rule>, sale: seq<Sold>, i: nat,
                                        fors: map<string, Override>)
    requires i <= |sale| && Consumption(applies, sellable, rules, sale[..i], fors).None?
    ensures Consumption(applies, sellable, rules, sale, fors).None?
  {
    if i < |sale| {
      assert sale[..|sale| - 1][..i] == sale[..i];
      RefusalStays(applies, sellable, rules, sale[..|sale| - 1], i, fors);
    } else {
      assert sale[..i] == sale;
    }
  }

  /** What one sold line adds; nothing when it is not packed. */
  method ConsumeSold(applies: Applies, sellable: string -> bool, rules: seq<Rule>, s: Sold, choices: map<string, seq<Choice>>,
                     fors: map<string, Override>) returns (r: Option<seq<Line>>, used: set<string>)
    requires DistinctIds(rules) && choices == Offered(rules)
    ensures forall g :: g in Groups(Best(applies, s.sku, rules), rules) ==> g in Best(applies, s.sku, rules)
    ensures r == if Packed(sellable, s) then LinesFor(rules, s, Best(applies, s.sku, rules), Groups(Best(applies, s.sku, rules), rules), fors)
                 else Some([])
    ensures r.Some? && Packed(sellable, s) ==> UsesExactly(s, Groups(Best(applies, s.sku, rules), rules), fors, used)
    ensures !Packed(sellable, s) ==> used == {}
  {
    GroupsNameTheirRules(applies, s.sku, rules);
    if s.qty <= 0 || !sellable(s.sku) { return Some([]), {}; }
    var best := FindBest(applies, s.sku, rules);
    var gs := SortGroups(best, rules);
    r, used := ConsumeLine(rules, s, best, gs, choices, fors);
  }

  method ConsumeSale(applies: Applies, sellable: string -> bool, rules: seq<Rule>, sale: seq<Sold>, fors: map<string, Override>)
    returns (r: Option<seq<Line>>, used: set<string>)
    requires DistinctIds(rules)
    ensures r == Consumption(applies, sellable, rules, sale, fors)
    ensures r.Some? ==> KeysUsed(applies, sellable, rules, sale, fors, used)
  {
    var named := BuildChoices(rules);
    var choices := SortChoices(named);
    var out: seq<Line> := [];
    used := {};
    for i := 0 to |sale|
      invariant Consumption(applies, sellable, rules, sale[..i], fors) == Some(out)
      invariant KeysUsed(applies, sellable, rules, sale[..i], fors, used)
    {
      assert sale[..i + 1][..i] == sale[..i];
      var ls, here := ConsumeSold(applies, sellable, rules, sale[i], choices, fors);
      if ls.None? {
        RefusalStays(applies, sellable, rules, sale, i + 1, fors);
        return None, used;
      }
      KeysUsedStep(applies, sellable, rules, sale, i, fors, used, here);
      assert out + [] == out;
      out, used := out + ls.value, used + here;
    }
    assert sale[..|sale|] == sale;
    r := Some(out);
  }

  /** The consumption of a sale, or None when a change is refused or has nothing to change. */
  method ResolveSaleConsumption(applies: Applies, sellable: string -> bool, rules: seq<Rule>, sale: seq<Sold>, os: seq<Override>)
    returns (r: Option<seq<Line>>)
    requires DistinctIds(rules)
    ensures r == Resolve(applies, sellable, rules, sale, os)
  {
    if rules == [] { return Some([]); }
    var fors := CollectOverrides(os);
    var lines, used := ConsumeSale(applies, sellable, rules, sale, fors);
    if lines.None? { return None; }
    if exists key :: key in fors && key !in used {
      assert exists key :: key in fors && !Used(applies, sellable, rules, sale, key);
      return None;
    }
    r := lines;
  }

  // ---- totals ---------------------------------------------------------------------------------------

  /** What a list of lines consumes of one component. */
  function TotalOf(ls: seq<Line>, c: string): int
  {
    if ls == [] then 0 else TotalOf(ls[..|ls| - 1], c) + Counted(ls[|ls| - 1], c)
  }

  function Counted(l: Line, c: string): int { if l.component == c && c != "" && l.qty > 0 then l.qty else 0 }

  function At(m: map<string, int>, c: string): int { if c in m then m[c] else 0 }

  method ConsumptionComponentTotals(ls: seq<Line>) returns (totals: map<string, int>)
    ensures forall c :: At(totals, c) == TotalOf(ls, c)
    ensures forall c :: c in totals <==> TotalOf(ls, c) > 0
  {
    totals := map[];
    for i := 0 to |ls|
      invariant forall c :: At(totals, c) == TotalOf(ls[..i], c)
      invariant forall c :: c in totals <==> TotalOf(ls[..i], c) > 0
    {
      assert ls[..i + 1][..i] == ls[..i];
      var l := ls[i];
      if l.component != "" && l.qty > 0 { totals := totals[l.component := At(totals, l.component) + l.qty]; }
    }
    assert ls[..|ls|] == ls;
  }

  predicate Strict(l: Line, offline: bool) { l.action == Block && !offline }

  /** What the lines posted one way consume of a component. */
  function TotalIf(ls: seq<Line>, offline: bool, strict: bool, c: string): int
  {
    if ls == [] then 0
    else TotalIf(ls[..|ls| - 1], offline, strict, c) + (if Strict(ls[|ls| - 1], offline) == strict then Counted(ls[|ls| - 1], c) else 0)
  }

  /** Nothing is posted twice and nothing is left out: strict and lenient quantities together are the totals. */
  lemma {:induction false} StrictAndLenientMakeTheTotals(ls: seq<Line>, offline: bool, c: string)
    ensures TotalIf(ls, offline, true, c) + TotalIf(ls, offline, false, c) == TotalOf(ls, c)
  {
    if ls != [] { StrictAndLenientMakeTheTotals(ls[..|ls| - 1], offline, c); }
  }

  /** The split postSaleConsumptionTx posts: quantities that may not go short, and those that may. */
  method SplitConsumption(ls: seq<Line>, offline: bool) returns (strict: map<string, int>, lenient: map<string, int>)
    ensures forall c :: At(strict, c) == TotalIf(ls, offline, true, c)
    ensures forall c :: At(lenient, c) == TotalIf(ls, offline, false, c)
  {
    strict, lenient := map[], map[];
    for i := 0 to |ls|
      invariant forall c :: At(strict, c) == TotalIf(ls[..i], offline, true, c)
      invariant forall c :: At(lenient, c) == TotalIf(ls[..i], offline, false, c)
    {
      var l := ls[i];
      assert ls[..i + 1][..i] == ls[..i];
      if l.component == "" || l.qty <= 0 { continue; }
      if l.action == Block && !offline { strict := strict[l.component := At(strict, l.component) + l.qty]; }
      else { lenient := lenient[l.component := At(lenient, l.component) + l.qty]; }
    }
    assert ls[..|ls|] == ls;
  }

  // ---- shortages -----------------------------------------------------------------------------------------

  function Strength(a: Action): nat { match a case Allow => 0 case Warn => 1 case Block => 2 }

  /** The action recorded for a component: the strongest of its lines'. */
  ghost predicate Strongest(ls: seq<Line>, c: string, a: Action)
  {
    && (exists i :: 0 <= i < |ls| && ls[i].component == c && ls[i].action == a)
    && (forall i :: 0 <= i < |ls| && ls[i].component == c ==> Strength(ls[i].action) <= Strength(a))
  }

  /** The loop's update: a block is never replaced, and only a stronger action replaces another. */
  function StrongestOf(ls: seq<Line>, c: string): Option<Action>
  {
    if ls == [] then None
    else
      var before, l := StrongestOf(ls[..|ls| - 1], c), ls[|ls| - 1];
      if l.component != c then before
      else if before.None? || (before.value != Block && (l.action == Block || (before.value == Allow && l.action == Warn))) then Some(l.action)
      else before
  }

  lemma {:induction false} StrongestOfIsStrongest(ls: seq<Line>, c: string)
    ensures StrongestOf(ls, c).None? ==> forall i :: 0 <= i < |ls| ==> ls[i].component != c
    ensures StrongestOf(ls, c).Some? ==> Strongest(ls, c, StrongestOf(ls, c).value)
  {
    if ls != [] {
      var n := |ls| - 1;
      StrongestOfIsStrongest(ls[..n], c);
      var before, a := StrongestOf(ls[..n], c), StrongestOf(ls, c);
      if a.Some? {
        if a == before { var i :| 0 <= i < n && ls[..n][i].component == c && ls[..n][i].action == a.value; assert ls[i].component == c; }
        else { assert ls[n].component == c && ls[n].action == a.value; }
        forall i | 0 <= i < |ls| && ls[i].component == c ensures Strength(ls[i].action) <= Strength(a.value) {
          if i < n { assert ls[..n][i] == ls[i]; }
        }
      } else {
        assert forall i :: 0 <= i < n ==> ls[i] == ls[..n][i];
      }
    }
  }

  method ComponentActions(ls: seq<Line>) returns (action: map<string, Action>)
    ensures forall c :: c in action <==> c != "" && StrongestOf(ls, c).Some?
    ensures forall c :: c in action ==> action[c] == StrongestOf(ls, c).value
  {
    action := map[];
    for i := 0 to |ls|
      invariant forall c :: c in action <==> c != "" && StrongestOf(ls[..i], c).Some?
      invariant forall c :: c in action ==> action[c] == StrongestOf(ls[..i], c).value
    {
      var l := ls[i];
      assert ls[..i + 1][..i] == ls[..i];
      if l.component == "" { continue; }
      if l.component !in action
         || (action[l.component] != Block && (l.action == Block || (action[l.component] == Allow && l.action == Warn))) {
        action := action[l.component := l.action];
      }
    }
    assert ls[..|ls|] == ls;
  }

  datatype Shortage = Shortage(component: string, needed: int, available: int, action: Action)

  /** A component the store holds too little of. */
  predicate Short(ls: seq<Line>, held: string -> int, c: string) { TotalOf(ls, c) > 0 && held(c) < TotalOf(ls, c) }

  lemma {:induction false} TotalsAreOfLines(ls: seq<Line>, c: string)
    ensures TotalOf(ls, c) >= 0
    ensures TotalOf(ls, c) > 0 ==> c != "" && exists i :: 0 <= i < |ls| && ls[i].component == c
  {
    if ls != [] {
      var n := |ls| - 1;
      TotalsAreOfLines(ls[..n], c);
      if TotalOf(ls[..n], c) > 0 { var i :| 0 <= i < n && ls[..n][i].component == c; assert ls[i].component == c; }
      else if Counted(ls[n], c) > 0 { assert ls[n].component == c; }
    }
  }

  ghost predicate Reported(ls: seq<Line>, held: string -> int, x: Shortage)
  {
    && Short(ls, held, x.component) && x.needed == TotalOf(ls, x.component) && x.available == held(x.component)
    && Strongest(ls, x.component, x.action)
  }

  lemma ShortIsReported(ls: seq<Line>, held: string -> int, c: string)
    requires Short(ls, held, c)
    ensures c != "" && StrongestOf(ls, c).Some?
    ensures Reported(ls, held, Shortage(c, TotalOf(ls, c), held(c), StrongestOf(ls, c).value))
  {
    TotalsAreOfLines(ls, c);
    StrongestOfIsStrongest(ls, c);
  }

  predicate Ascending(t: seq<string>) { forall i, j :: 0 <= i < j < |t| ==> Less(t[i], t[j]) }

  lemma {:induction false} InsertKeepsAscending(t: seq<string>, c: string)
    requires Ascending(t)
    ensures Ascending(InsertGroup(t, c))
  {
    if t != [] && c != t[0] {
      if Less(c, t[0]) {
        forall j | 0 < j < |t| ensures Less(c, t[j]) { LessIsTransitive(c, t[0], t[j]); }
      } else {
        LessIsTotal(c, t[0]);
        InsertKeepsAscending(t[1..], c);
        var rest := InsertGroup(t[1..], c);
        forall j | 0 <= j < |rest| ensures Less(t[0], rest[j]) {
          assert rest[j] in rest;
          InsertedGroup(t[1..], c, rest[j]);
        }
      }
    }
  }

  method SortComponents(cs: set<string>) returns (t: seq<string>)
    ensures Ascending(t) && forall c :: c in t <==> c in cs
  {
    t := [];
    var rest := cs;
    while rest != {}
      invariant rest <= cs && Ascending(t) && forall c :: c in t <==> c in cs - rest
      decreases |rest|
    {
      var c :| c in rest;
      InsertKeepsAscending(t, c);
      forall x ensures x in InsertGroup(t, c) <==> x == c || x in t { InsertedGroup(t, c, x); }
      t, rest := InsertGroup(t, c), rest - {c};
    }
  }

  ghost predicate HasAction(ls: seq<Line>, c: string, a: Action)
  {
    exists i :: 0 <= i < |ls| && ls[i].component == c && ls[i].action == a
  }

  lemma StrongestIsAction(ls: seq<Line>, c: string, a: Action)
    requires Strongest(ls, c, a)
    ensures a == if HasAction(ls, c, Block) then Block else if HasAction(ls, c, Warn) then Warn else Allow
  {
    var i :| 0 <= i < |ls| && ls[i].component == c && ls[i].action == a;
    assert HasAction(ls, c, a);
    if HasAction(ls, c, Block) {
      var j :| 0 <= j < |ls| && ls[j].component == c && ls[j].action == Block;
      assert Strength(ls[j].action) <= Strength(a);
    } else if HasAction(ls, c, Warn) {
      var j :| 0 <= j < |ls| && ls[j].component == c && ls[j].action == Warn;
      assert Strength(ls[j].action) <= Strength(a);
    }
  }

  /** What has been listed of the first k components. */
  ghost predicate ListedTo(ls: seq<Line>, held: string -> int, cs: seq<string>, k: nat, out: seq<Shortage>)
    requires k <= |cs|
  {
    && (forall x :: x in out ==> Reported(ls, held, x))
    && (forall j :: 0 <= j < k && Short(ls, held, cs[j]) ==> exists x :: x in out && x.component == cs[j])
    && (forall i, j :: 0 <= i < j < |out| ==> Less(out[i].component, out[j].component))
    && (forall i, j :: 0 <= i < |out| && k <= j < |cs| ==> Less(out[i].component, cs[j]))
  }

  lemma OneMoreListed(ls: seq<Line>, held: string -> int, cs: seq<string>, k: nat, out: seq<Shortage>, x: Shortage)
    requires k < |cs| && Ascending(cs) && ListedTo(ls, held, cs, k, out) && Reported(ls, held, x) && x.component == cs[k]
    ensures ListedTo(ls, held, cs, k + 1, out + [x])
  {
    var after := out + [x];
    assert after[|out|] == x && forall y :: y in out ==> y in after;
    forall j | 0 <= j < k + 1 && Short(ls, held, cs[j]) ensures exists y :: y in after && y.component == cs[j] {
      if j == k { assert x in after; }
    }
  }

  /** Exactly the components the sale is short of, in text order, each once with the strongest action of its lines. */
  method CheckConsumptionStock(ls: seq<Line>, held: string -> int) returns (out: seq<Shortage>)
    ensures forall x :: x in out ==> Reported(ls, held, x)
    ensures forall x :: x in out ==> x.action == (if HasAction(ls, x.component, Block) then Block
                                                  else if HasAction(ls, x.component, Warn) then Warn else Allow)
    ensures forall c :: Short(ls, held, c) ==> exists x :: x in out && x.component == c
    ensures forall i, j :: 0 <= i < j < |out| ==> Less(out[i].component, out[j].component)
  {
    var action := ComponentActions(ls);
    var totals := ConsumptionComponentTotals(ls);
    var components := SortComponents(totals.Keys);
    out := [];
    for k := 0 to |components|
      invariant ListedTo(ls, held, components, k, out)
    {
      var c := components[k];
      assert totals[c] == At(totals, c);
      if held(c) < totals[c] {
        ShortIsReported(ls, held, c);
        var shortage := Shortage(c, totals[c], held(c), action[c]);
        OneMoreListed(ls, held, components, k, out, shortage);
        out := out + [shortage];
      }
    }
    forall c | Short(ls, held, c) ensures exists x :: x in out && x.component == c {
      assert c in components;
    }
    forall x | x in out
      ensures x.action == if HasAction(ls, x.component, Block) then Block else if HasAction(ls, x.component, Warn) then Warn else Allow
    {
      StrongestIsAction(ls, x.component, x.action);
    }
  }

  /** The first shortage that stops the sale. */
  method BlockingShortage(shortages: seq<Shortage>) returns (r: Option<Shortage>)
    ensures r.Some? ==> r.value in shortages && r.value.action == Block
    ensures r.None? ==> forall x :: x in shortages ==> x.action != Block
  {
    for i := 0 to |shortages|
      invariant forall j :: 0 <= j < i ==> shortages[j].action != Block
    {
      if shortages[i].action == Block { return Some(shortages[i]); }
    }
    r := None;
  }

  /** A sale is refused exactly when it is short of a component that some line of it may not go short of. */
  method SaleIsBlocked(ls: seq<Line>, held: string -> int) returns (blocked: bool)
    ensures blocked <==> exists i :: 0 <= i < |ls| && ls[i].action == Block && TotalOf(ls, ls[i].component) > 0
                                     && TotalOf(ls, ls[i].component) > held(ls[i].component)
  {
    var shortages := CheckConsumptionStock(ls, held);
    forall x, i | x in shortages && 0 <= i < |ls| && ls[i].component == x.component && ls[i].action == Block
      ensures x.action == Block
    {
      assert Strength(ls[i].action) <= Strength(x.action);
    }
    var first := BlockingShortage(shortages);
    assert forall i :: 0 <= i < |ls| ==>
             (Short(ls, held, ls[i].component) <==> TotalOf(ls, ls[i].component) > 0 && TotalOf(ls, ls[i].component) > held(ls[i].component));
    blocked := first.Some?;
  }
}
