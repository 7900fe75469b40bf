/** Which component a sold line consumes, and what the cashier may change (engines/backflush_rules.go). */
module Backflush {
  import opened Text

  datatype Action = Allow | Warn | Block

  /** basis counts from the most specific; allStores marks a rule without a location. */
  datatype Rule = Rule(id: string, version: string, basis: nat, allStores: bool, group: string, component: string, name: string,
                       qtyPerUnit: int, priority: real, overrideAllowed: bool, reasonRequired: bool, noneAllowed: bool, action: Action)

  datatype Choice = Choice(component: string, name: string)

  datatype Line = Line(forSku: string, group: string, ruleId: string, version: string, defaultComponent: string, defaultName: string,
                       component: string, name: string, qtyPerUnit: int, qty: int, overridden: bool, reason: string, action: Action,
                       overrideAllowed: bool, reasonRequired: bool, noneAllowed: bool, choices: seq<Choice>)

  datatype Sold = Sold(sku: string, qty: int)

  datatype Override = Override(sku: string, group: string, component: string, reason: string)

  /** Whether a rule's basis matches an item. */
  type Applies = (string, Rule) -> bool

  // ---- the winning rule -------------------------------------------------------------------------

  function Rank(r: Rule): nat { r.basis * 2 + (if r.allStores then 1 else 0) }

  predicate Wins(r: Rule, q: Rule)
  {
    || Rank(r) < Rank(q)
    || (Rank(r) == Rank(q) && (r.priority > q.priority || (r.priority == q.priority && Less(r.id, q.id))))
  }

  /**
    What being the better rule means: the more specific basis, then the store's own rule, then the higher priority,
    then the earlier id.
   */
  ghost predicate Beats(r: Rule, q: Rule)
  {
    if r.basis != q.basis then r.basis < q.basis
    else if r.allStores != q.allStores then q.allStores
    else if r.priority != q.priority then r.priority > q.priority
    else Less(r.id, q.id)
  }

  function Group(r: Rule): string { Lower(r.group) }

  function Best(applies: Applies, sku: string, rules: seq<Rule>): map<string, Rule>
  {
    if rules == [] then map[]
    else
      var best, r := Best(applies, sku, rules[..|rules| - 1]), rules[|rules| - 1];
      if applies(sku, r) && (Group(r) !in best || Wins(r, best[Group(r)])) then best[Group(r) := r] else best
  }

  method FindBest(applies: Applies, sku: string, rules: seq<Rule>) returns (best: map<string, Rule>)
    ensures best == Best(applies, sku, rules)
  {
    best := map[];
    for i := 0 to |rules|
      invariant best == Best(applies, sku, rules[..i])
    {
      assert rules[..i + 1][..i] == rules[..i];
      var r := rules[i];
      if !applies(sku, r) { continue; }
      var g := Group(r);
      if g !in best || Wins(r, best[g]) { best := best[g := r]; }
    }
    assert rules[..|rules|] == rules;
  }

  ghost predicate DistinctIds(rules: seq<Rule>)
  {
    forall r, q :: r in rules && q in rules && r.id == q.id ==> r == q
  }

  lemma WinsIsTotal(r: Rule, q: Rule)
    requires r.id != q.id
    ensures Wins(r, q) <==> !Wins(q, r)
  {
    LessIsTotal(r.id, q.id);
  }

  lemma WinsIsTransitive(r: Rule, q: Rule, p: Rule)
    requires Wins(r, q) && Wins(q, p)
    ensures Wins(r, p)
  {
    if Rank(r) == Rank(q) == Rank(p) && r.priority == q.priority == p.priority { LessIsTransitive(r.id, q.id, p.id); }
  }

  ghost predicate Candidate(applies: Applies, sku: string, rules: seq<Rule>, g: string, r: Rule)
  {
    r in rules && applies(sku, r) && Group(r) == g
  }

  ghost predicate NoCandidate(applies: Applies, sku: string, rules: seq<Rule>, g: string)
  {
    forall q :: !Candidate(applies, sku, rules, g, q)
  }

  /** The rule is a candidate and beats every other one. */
  ghost predicate IsBest(applies: Applies, sku: string, rules: seq<Rule>, g: string, r: Rule)
  {
    && Candidate(applies, sku, rules, g, r)
    && forall q :: Candidate(applies, sku, rules, g, q) ==> q == r || Beats(r, q)
  }

  lemma {:induction false} BestIsMinimum(applies: Applies, sku: string, rules: seq<Rule>, g: string)
    requires DistinctIds(rules)
    ensures var best := Best(applies, sku, rules);
            && (g in best ==> IsBest(applies, sku, rules, g, best[g]))
            && (g !in best ==> NoCandidate(applies, sku, rules, g))
  {
    if rules != [] {
      var n := |rules| - 1;
      assert rules == rules[..n] + [rules[n]];
      BestIsMinimum(applies, sku, rules[..n], g);
      BestStep(applies, sku, rules, g);
    }
  }

  lemma BestStep(applies: Applies, sku: string, rules: seq<Rule>, g: string)
    requires rules != [] && DistinctIds(rules)
    requires var best := Best(applies, sku, rules[..|rules| - 1]);
             && (g in best ==> IsBest(applies, sku, rules[..|rules| - 1], g, best[g]))
             && (g !in best ==> NoCandidate(applies, sku, rules[..|rules| - 1], g))
    ensures var best := Best(applies, sku, rules);
            && (g in best ==> IsBest(applies, sku, rules, g, best[g]))
            && (g !in best ==> NoCandidate(applies, sku, rules, g))
  {
    var n := |rules| - 1;
    var init, r := rules[..n], rules[n];
    assert forall q :: Candidate(applies, sku, rules, g, q) <==> Candidate(applies, sku, init, g, q) || (q == r && applies(sku, r) && Group(r) == g);
    var before, best := Best(applies, sku, init), Best(applies, sku, rules);
    if g in best {
      var b := best[g];
      forall q | Candidate(applies, sku, rules, g, q) ensures q == b || Beats(b, q) {
        if g in before && q != b {
          var previous := before[g];
          if b != previous && q != previous { WinsIsTransitive(b, previous, q); }
          if b == previous && q == r { WinsIsTotal(b, q); }
        }
      }
    }
  }

  /** One rule at most is best. */
  lemma BestIsUnique(applies: Applies, sku: string, rules: seq<Rule>, g: string, r: Rule, q: Rule)
    requires DistinctIds(rules) && IsBest(applies, sku, rules, g, r) && IsBest(applies, sku, rules, g, q)
    ensures r == q
  {
    if r != q { WinsIsTotal(r, q); }
  }

  /**
    For every line and group the chosen rule is the one smallest by rank, then higher priority, then id, whatever
    order the rules were loaded in.
   */
  lemma BestIgnoresRuleOrder(applies: Applies, sku: string, a: seq<Rule>, b: seq<Rule>)
    requires DistinctIds(a) && multiset(a) == multiset(b)
    ensures Best(applies, sku, a) == Best(applies, sku, b)
  {
    assert forall r :: r in a <==> r in multiset(a);
    assert forall r :: r in b <==> r in multiset(b);
    assert forall g, r :: Candidate(applies, sku, a, g, r) <==> Candidate(applies, sku, b, g, r);
    var x, y := Best(applies, sku, a), Best(applies, sku, b);
    forall g ensures (g in x <==> g in y) && (g in x && g in y ==> x[g] == y[g]) {
      BestIsMinimum(applies, sku, a, g);
      BestIsMinimum(applies, sku, b, g);
      if g in x && g in y { BestIsUnique(applies, sku, a, g, x[g], y[g]); }
    }
  }

  // ---- the cashier's changes ----------------------------------------------------------------------

  predicate SameText(a: string, b: string) { Lower(a) == Lower(b) }

  function FindChoice(choices: seq<Choice>, want: string): Option<Choice>
  {
    if choices == [] then None
    else if SameText(choices[0].component, want) then Some(choices[0])
    else FindChoice(choices[1..], want)
  }

  /** applyConsumptionOverride: None when it is refused. */
  function Overridden(l: Line, o: Override): Option<Line>
  {
    var want, reason := Trim(o.component), Trim(o.reason);
    if SameText(want, l.defaultComponent) then Some(l)
    else if !l.overrideAllowed || (want == "" && !l.noneAllowed) || (want != "" && FindChoice(l.choices, want).None?) then None
    else if l.reasonRequired && reason == "" then None
    else if want == "" then Some(l.(component := "", name := "", qty := 0, overridden := true, reason := reason))
    else
      var c := FindChoice(l.choices, want).value;
      Some(l.(component := c.component, name := c.name, overridden := true, reason := reason))
  }

  method FindOffered(choices: seq<Choice>, want: string) returns (r: Option<Choice>)
    ensures r == FindChoice(choices, want)
  {
    for i := 0 to |choices|
      invariant FindChoice(choices[i..], want) == FindChoice(choices, want)
    {
      if SameText(choices[i].component, want) { return Some(choices[i]); }
    }
    r := None;
  }

  method ApplyConsumptionOverride(l: Line, o: Override) returns (r: Option<Line>)
    ensures r == Overridden(l, o)
    ensures Lower(Trim(o.component)) == Lower(l.defaultComponent) ==> r == Some(l)
    ensures Lower(Trim(o.component)) != Lower(l.defaultComponent) ==>
              && (r.Some? <==> l.overrideAllowed && (l.reasonRequired ==> Trim(o.reason) != "")
                               && if Trim(o.component) == "" then l.noneAllowed
                                  else exists c :: c in l.choices && Lower(c.component) == Lower(Trim(o.component)))
              && (r.Some? ==> r.value.overridden && r.value.reason == Trim(o.reason) && r.value.group == l.group)
              && (r.Some? && Trim(o.component) == "" ==> r.value.component == "" && r.value.qty == 0)
              && (r.Some? && Trim(o.component) != "" ==>
                    && r.value.qty == l.qty && Lower(r.value.component) == Lower(Trim(o.component))
                    && Choice(r.value.component, r.value.name) in l.choices)
  {
    ChoiceIsWanted(l.choices, Trim(o.component));
    ChoiceIsOffered(l.choices, Trim(o.component));
    var want := Trim(o.component);
    if SameText(want, l.defaultComponent) { return Some(l); }
    if !l.overrideAllowed { return None; }
    var changed := l;
    if want == "" {
      if !l.noneAllowed { return None; }
      changed := changed.(component := "", name := "", qty := 0);
    } else {
      var found := FindOffered(l.choices, want);
      if found.None? { return None; }
      changed := changed.(component := found.value.component, name := found.value.name);
    }
    changed := changed.(overridden := true, reason := Trim(o.reason));
    if changed.reasonRequired && changed.reason == "" { return None; }
    r := Some(changed);
  }

  lemma {:induction false} ChoiceIsOffered(choices: seq<Choice>, want: string)
    ensures FindChoice(choices, want).Some? ==> FindChoice(choices, want).value in choices
  {
    if choices != [] { ChoiceIsOffered(choices[1..], want); }
  }

  /** No two offered components are the same. */
  ghost predicate OfferedOnce(choices: seq<Choice>)
  {
    forall i, j :: 0 <= i < |choices| && 0 <= j < |choices| && SameText(choices[i].component, choices[j].component) ==> i == j
  }

  lemma {:induction false} ChoiceIsWanted(choices: seq<Choice>, want: string)
    ensures FindChoice(choices, want).Some? ==> SameText(FindChoice(choices, want).value.component, want)
    ensures FindChoice(choices, want).None? ==> forall c :: c in choices ==> !SameText(c.component, want)
  {
    if choices != [] { ChoiceIsWanted(choices[1..], want); }
  }

  /** In whatever order they are offered, a change picks the same one. */
  lemma ChoiceIgnoresOrder(a: seq<Choice>, b: seq<Choice>, want: string)
    requires OfferedOnce(a) && forall c :: c in a <==> c in b
    ensures FindChoice(a, want) == FindChoice(b, want)
  {
    ChoiceIsWanted(a, want);
    ChoiceIsWanted(b, want);
    ChoiceIsOffered(a, want);
    ChoiceIsOffered(b, want);
    if FindChoice(a, want).Some? && FindChoice(b, want).Some? {
      var i :| 0 <= i < |a| && a[i] == FindChoice(a, want).value;
      var j :| 0 <= j < |a| && a[j] == FindChoice(b, want).value;
      assert SameText(a[i].component, a[j].component);
    }
  }

  // ---- every line of the sale -----------------------------------------------------------------------

  function LineKey(sku: string, g: string): string { Lower(sku) + "|" + g }

  /** With no bar in SKUs a key tells item and group apart. */
  lemma KeysTellLinesApart(s: string, g: string, t: string, h: string)
    requires '|' !in Lower(s) && '|' !in Lower(t)
    ensures LineKey(s, g) == LineKey(t, h) <==> Lower(s) == Lower(t) && g == h
  {
    if LineKey(s, g) == LineKey(t, h) {
      IndexOfConcat(Lower(s), '|', g);
      IndexOfConcat(Lower(t), '|', h);
      assert Lower(s) + ['|'] + g == LineKey(s, g) && Lower(t) + ['|'] + h == LineKey(t, h);
      assert LineKey(s, g)[..|Lower(s)|] == Lower(s) && LineKey(t, h)[..|Lower(t)|] == Lower(t);
      assert LineKey(s, g)[|Lower(s)| + 1..] == g && LineKey(t, h)[|Lower(t)| + 1..] == h;
    }
  }

  /** With one, an override of one item's group is taken for another's. */
  lemma BarMixesLines()
    ensures LineKey("a|b", "c") == LineKey("a", "b|c")
  {
    assert Lower("a|b") == "a|b" && Lower("a") == "a";
    assert "a|b" + "|" + "c" == "a" + "|" + "b|c";
  }

  function OverrideKey(o: Override): string { LineKey(Trim(o.sku), Lower(Trim(o.group))) }

  /** A later override of the same key replaces an earlier one. */
  function OverrideFor(os: seq<Override>): map<string, Override>
  {
    if os == [] then map[] else OverrideFor(os[..|os| - 1])[OverrideKey(os[|os| - 1]) := os[|os| - 1]]
  }

  /** The components the rules of each group name, each once. */
  function Choices(rules: seq<Rule>): (map<string, seq<Choice>>, set<string>)
  {
    if rules == [] then (map[], {})
    else
      var (choices, seen) := Choices(rules[..|rules| - 1]);
      var r := rules[|rules| - 1];
      var key, g := Group(r) + "|" + Lower(r.component), Group(r);
      if key in seen then (choices, seen)
      else (choices[g := (if g in choices then choices[g] else []) + [Choice(r.component, r.name)]], seen + {key})
  }

  function NamedBy(rules: seq<Rule>, g: string): seq<Choice>
  {
    var choices := Choices(rules).0;
    if g in choices then choices[g] else []
  }

  /** What a store's rules name for a group, each component once. */
  lemma {:induction false} NamedOnce(rules: seq<Rule>, g: string)
    ensures OfferedOnce(NamedBy(rules, g))
    ensures forall c :: c in NamedBy(rules, g) ==> g + "|" + Lower(c.component) in Choices(rules).1
  {
    if rules != [] {
      var n := |rules| - 1;
      NamedOnce(rules[..n], g);
      var before, after := NamedBy(rules[..n], g), NamedBy(rules, g);
      if after != before {
        assert after == before + [Choice(rules[n].component, rules[n].name)];
        forall i | 0 <= i < |before| ensures !SameText(before[i].component, rules[n].component) {
          assert before[i] in before;
        }
      }
    }
  }

  function InsertByName(cs: seq<Choice>, c: Choice): seq<Choice>
  {
    if cs == [] then [c]
    else if Less(c.name, cs[0].name) then [c] + cs
    else [cs[0]] + InsertByName(cs[1..], c)
  }

  function ByName(cs: seq<Choice>): seq<Choice>
  {
    if cs == [] then [] else InsertByName(ByName(cs[..|cs| - 1]), cs[|cs| - 1])
  }

  predicate InNameOrder(cs: seq<Choice>) { forall i, j :: 0 <= i < j < |cs| ==> !Less(cs[j].name, cs[i].name) }

  lemma {:induction false} InsertedChoices(cs: seq<Choice>, c: Choice)
    ensures forall x :: x in InsertByName(cs, c) <==> x in cs || x == c
  {
    if cs != [] {
      assert cs == [cs[0]] + cs[1..];
      if !Less(c.name, cs[0].name) { InsertedChoices(cs[1..], c); }
    }
  }

  lemma {:induction false} InsertKeepsNameOrder(cs: seq<Choice>, c: Choice)
    requires InNameOrder(cs)
    ensures InNameOrder(InsertByName(cs, c))
  {
    if cs != [] {
      if Less(c.name, cs[0].name) {
        BeforeAll(cs, c);
      } else {
        InsertKeepsNameOrder(cs[1..], c);
        InsertedChoices(cs[1..], c);
        var rest := InsertByName(cs[1..], c);
        forall j | 0 <= j < |rest| ensures !Less(rest[j].name, cs[0].name) {
          assert rest[j] in rest;
          if rest[j] != c { var k :| 0 <= k < |cs[1..]| && cs[1..][k] == rest[j]; assert cs[k + 1] == rest[j]; }
        }
      }
    }
  }

  lemma {:induction false} InsertKeepsOnce(cs: seq<Choice>, c: Choice)
    requires OfferedOnce(cs) && forall x :: x in cs ==> !SameText(x.component, c.component)
    ensures OfferedOnce(InsertByName(cs, c))
  {
    if cs != [] && !Less(c.name, cs[0].name) {
      InsertKeepsOnce(cs[1..], c);
      InsertedChoices(cs[1..], c);
      var rest := InsertByName(cs[1..], c);
      forall j | 0 <= j < |rest| ensures !SameText(cs[0].component, rest[j].component) {
        assert rest[j] in rest;
        if rest[j] != c { var k :| 0 <= k < |cs[1..]| && cs[1..][k] == rest[j]; assert cs[k + 1] == rest[j]; }
      }
    }
  }

  lemma BeforeAll(cs: seq<Choice>, c: Choice)
    requires InNameOrder(cs) && cs != [] && Less(c.name, cs[0].name)
    ensures InNameOrder([c] + cs)
  {
    forall j | 0 <= j < |cs| ensures !Less(cs[j].name, c.name) {
      LessIsTotal(c.name, cs[j].name);
      LessIsTotal(cs[j].name, cs[0].name);
      if Less(cs[j].name, c.name) { LessIsTransitive(cs[j].name, c.name, cs[0].name); }
    }
  }

  lemma {:induction false} ByNameIs(cs: seq<Choice>)
    ensures InNameOrder(ByName(cs)) && forall x :: x in ByName(cs) <==> x in cs
    ensures OfferedOnce(cs) ==> OfferedOnce(ByName(cs))
  {
    if cs != [] {
      var n := |cs| - 1;
      ByNameIs(cs[..n]);
      InsertedChoices(ByName(cs[..n]), cs[n]);
      InsertKeepsNameOrder(ByName(cs[..n]), cs[n]);
      assert cs == cs[..n] + [cs[n]];
      if OfferedOnce(cs) {
        forall x | x in cs[..n] ensures !SameText(x.component, cs[n].component) {
          var k :| 0 <= k < n && cs[..n][k] == x;
          assert cs[k] == x;
        }
        InsertKeepsOnce(ByName(cs[..n]), cs[n]);
      }
    }
  }

  /** What the till is offered for a group: the named components in the order of their names. */
  function ChoicesOf(rules: seq<Rule>, g: string): seq<Choice> { ByName(NamedBy(rules, g)) }

  lemma ChoicesAreOfferedOnce(rules: seq<Rule>, g: string)
    ensures OfferedOnce(ChoicesOf(rules, g)) && InNameOrder(ChoicesOf(rules, g))
    ensures forall c :: c in ChoicesOf(rules, g) <==> c in NamedBy(rules, g)
  {
    NamedOnce(rules, g);
    ByNameIs(NamedBy(rules, g));
  }

  function Base(s: Sold, r: Rule, choices: seq<Choice>): Line
  {
    Line(s.sku, r.group, r.id, r.version, r.component, r.name, r.component, r.name, r.qtyPerUnit, r.qtyPerUnit * s.qty, false, "",
         r.action, r.overrideAllowed, r.reasonRequired, r.noneAllowed, choices)
  }

  /** One line of one group, with the cashier's change if there is one. */
  function LineFor(rules: seq<Rule>, s: Sold, r: Rule, fors: map<string, Override>): Option<Line>
  {
    var l := Base(s, r, ChoicesOf(rules, Group(r)));
    var key := LineKey(s.sku, Group(r));
    if key in fors then Overridden(l, fors[key]) else Some(l)
  }

  function InsertGroup(gs: seq<string>, g: string): seq<string>
  {
    if gs == [] then [g]
    else if g == gs[0] then gs
    else if Less(g, gs[0]) then [g] + gs
    else [gs[0]] + InsertGroup(gs[1..], g)
  }

  /** The groups of the chosen rules, in text order. */
  function Groups(best: map<string, Rule>, rules: seq<Rule>): seq<string>
  {
    if rules == [] then []
    else
      var gs, g := Groups(best, rules[..|rules| - 1]), Group(rules[|rules| - 1]);
      if g in best then InsertGroup(gs, g) else gs
  }

  /** The lines of the first n groups, and the override keys they used. */
  function LinesFor(rules: seq<Rule>, s: Sold, best: map<string, Rule>, gs: seq<string>, fors: map<string, Override>): Option<seq<Line>>
    requires forall g :: g in gs ==> g in best
  {
    if gs == [] then Some([])
    else
      var g := gs[|gs| - 1];
      match LinesFor(rules, s, best, gs[..|gs| - 1], fors)
      case None => None
      case Some(before) => (match LineFor(rules, s, best[g], fors) case None => None case Some(l) => Some(before + [l]))
  }

  predicate Packed(sellable: string -> bool, s: Sold) { s.qty > 0 && sellable(s.sku) }

  lemma {:induction false} InsertedGroup(gs: seq<string>, g: string, x: string)
    ensures x in InsertGroup(gs, g) <==> x == g || x in gs
  {
    if gs != [] && g != gs[0] && !Less(g, gs[0]) { InsertedGroup(gs[1..], g, x); }
  }

  lemma {:induction false} GroupsAreChosen(best: map<string, Rule>, rules: seq<Rule>, x: string)
    ensures x in Groups(best, rules) <==> x in best && exists r :: r in rules && Group(r) == x
  {
    if rules != [] {
      var n := |rules| - 1;
      GroupsAreChosen(best, rules[..n], x);
      InsertedGroup(Groups(best, rules[..n]), Group(rules[n]), x);
      assert rules == rules[..n] + [rules[n]];
    }
  }

  /** Every line and group of the sale, in order; None at the first refused change. */
  function Consumption(applies: Applies, sellable: string -> bool, rules: seq<Rule>, sale: seq<Sold>, fors: map<string, Override>): Option<seq<Line>>
  {
    if sale == [] then Some([])
    else
      var s := sale[|sale| - 1];
      match Consumption(applies, sellable, rules, sale[..|sale| - 1], fors)
      case None => None
      case Some(before) =>
        if !Packed(sellable, s) then Some(before)
        else
          var best := Best(applies, s.sku, rules);
          GroupsAllChosen(best, rules);
          (match LinesFor(rules, s, best, Groups(best, rules), fors) case None => None case Some(ls) => Some(before + ls))
  }

  lemma GroupsAllChosen(best: map<string, Rule>, rules: seq<Rule>)
    ensures forall g :: g in Groups(best, rules) ==> g in best
  {
    forall g | g in Groups(best, rules) ensures g in best { GroupsAreChosen(best, rules, g); }
  }

  /** An override's key is used when some packed line of the sale has a chosen rule of that group. */
  predicate Used(applies: Applies, sellable: string -> bool, rules: seq<Rule>, sale: seq<Sold>, key: string)
  {
    exists i :: 0 <= i < |sale| && Packed(sellable, sale[i]) && UsedBy(applies, rules, sale[i].sku, key)
  }

  predicate UsedBy(applies: Applies, rules: seq<Rule>, sku: string, key: string)
  {
    exists g :: g in Best(applies, sku, rules) && LineKey(sku, g) == key
  }

  /** ResolveSaleConsumption. */
  function Resolve(applies: Applies, sellable: string -> bool, rules: seq<Rule>, sale: seq<Sold>, os: seq<Override>): Option<seq<Line>>
  {
    var fors := OverrideFor(os);
    match (if rules == [] then Some([]) else Consumption(applies, sellable, rules, sale, fors))
    case None => None
    case Some(ls) =>
      if rules != [] && exists key :: key in fors && !Used(applies, sellable, rules, sale, key) then None else Some(ls)
  }

  // ---- every change is applied or the sale is refused ------------------------------------------------

  lemma {:induction false} LinesForHas(rules: seq<Rule>, s: Sold, best: map<string, Rule>, gs: seq<string>, fors: map<string, Override>, g: string)
    requires (forall x :: x in gs ==> x in best) && g in gs && LinesFor(rules, s, best, gs, fors).Some?
    ensures LineFor(rules, s, best[g], fors).Some? && LineFor(rules, s, best[g], fors).value in LinesFor(rules, s, best, gs, fors).value
  {
    var n := |gs| - 1;
    assert gs == gs[..n] + [gs[n]];
    if g != gs[n] { LinesForHas(rules, s, best, gs[..n], fors, g); }
  }

  lemma {:induction false} ConsumptionHas(applies: Applies, sellable: string -> bool, rules: seq<Rule>, sale: seq<Sold>,
                                          fors: map<string, Override>, i: nat, g: string)
    requires Consumption(applies, sellable, rules, sale, fors).Some?
    requires i < |sale| && Packed(sellable, sale[i]) && g in Best(applies, sale[i].sku, rules) && DistinctIds(rules)
    ensures var l := LineFor(rules, sale[i], Best(applies, sale[i].sku, rules)[g], fors);
            l.Some? && l.value in Consumption(applies, sellable, rules, sale, fors).value
  {
    var n := |sale| - 1;
    if i < n {
      ConsumptionHas(applies, sellable, rules, sale[..n], fors, i, g);
    } else {
      var best := Best(applies, sale[n].sku, rules);
      BestIsMinimum(applies, sale[n].sku, rules, g);
      GroupsAreChosen(best, rules, g);
      GroupsAllChosen(best, rules);
      LinesForHas(rules, sale[n], best, Groups(best, rules), fors, g);
    }
  }

  /** What an applied override leaves on a line. */
  ghost predicate AppliedTo(l: Line, o: Override)
  {
    var want := Trim(o.component);
    if SameText(want, l.defaultComponent) then !l.overridden && l.component == l.defaultComponent
    else
      && l.overridden && l.overrideAllowed && l.reason == Trim(o.reason) && (l.reasonRequired ==> l.reason != "")
      && (if want == "" then l.component == "" && l.qty == 0 && l.noneAllowed
          else SameText(l.component, want) && Choice(l.component, l.name) in l.choices)
  }

  lemma OverriddenIsApplied(rules: seq<Rule>, s: Sold, r: Rule, o: Override)
    requires Overridden(Base(s, r, ChoicesOf(rules, Group(r))), o).Some?
    ensures AppliedTo(Overridden(Base(s, r, ChoicesOf(rules, Group(r))), o).value, o)
  {
    ChoiceIsOffered(ChoicesOf(rules, Group(r)), Trim(o.component));
    ChoiceIsWanted(ChoicesOf(rules, Group(r)), Trim(o.component));
  }

  lemma {:induction false} LinesForOnly(rules: seq<Rule>, s: Sold, best: map<string, Rule>, gs: seq<string>, fors: map<string, Override>, l: Line)
    requires (forall x :: x in gs ==> x in best) && LinesFor(rules, s, best, gs, fors).Some? && l in LinesFor(rules, s, best, gs, fors).value
    ensures exists g :: g in best && LineFor(rules, s, best[g], fors) == Some(l)
  {
    var n := |gs| - 1;
    assert gs == gs[..n] + [gs[n]];
    var before := LinesFor(rules, s, best, gs[..n], fors).value;
    if l in before { LinesForOnly(rules, s, best, gs[..n], fors, l); } else { assert LineFor(rules, s, best[gs[n]], fors) == Some(l); }
  }

  /** The line is what one packed sold line consumes under its chosen rule of one group. */
  ghost predicate ComesFrom(applies: Applies, sellable: string -> bool, rules: seq<Rule>, sale: seq<Sold>, fors: map<string, Override>,
                            l: Line, i: int, g: string)
  {
    && 0 <= i < |sale| && Packed(sellable, sale[i]) && g in Best(applies, sale[i].sku, rules)
    && LineFor(rules, sale[i], Best(applies, sale[i].sku, rules)[g], fors) == Some(l)
  }

  lemma {:induction false} ConsumptionOnly(applies: Applies, sellable: string -> bool, rules: seq<Rule>, sale: seq<Sold>,
                                           fors: map<string, Override>, l: Line)
    requires Consumption(applies, sellable, rules, sale, fors).Some? && l in Consumption(applies, sellable, rules, sale, fors).value
    ensures exists i, g :: ComesFrom(applies, sellable, rules, sale, fors, l, i, g)
  {
    var n := |sale| - 1;
    var before := Consumption(applies, sellable, rules, sale[..n], fors).value;
    if l in before {
      ConsumptionOnly(applies, sellable, rules, sale[..n], fors, l);
      var i, g :| ComesFrom(applies, sellable, rules, sale[..n], fors, l, i, g);
      assert ComesFrom(applies, sellable, rules, sale, fors, l, i, g);
    } else {
      var best := Best(applies, sale[n].sku, rules);
      GroupsAllChosen(best, rules);
      LinesForOnly(rules, sale[n], best, Groups(best, rules), fors, l);
      var g :| g in best && LineFor(rules, sale[n], best[g], fors) == Some(l);
      assert ComesFrom(applies, sellable, rules, sale, fors, l, n, g);
    }
  }

  /** A line of the result: the best rule of its group, its quantity per unit sold, and the change in force, if any. */
  ghost predicate AccountedFor(applies: Applies, rules: seq<Rule>, s: Sold, fors: map<string, Override>, l: Line, r: Rule)
  {
    && IsBest(applies, s.sku, rules, Group(r), r) && l.forSku == s.sku && l.ruleId == r.id && l.group == r.group
    && l.defaultComponent == r.component && l.action == r.action
    && l.qty == (if l.overridden && l.component == "" then 0 else r.qtyPerUnit * s.qty)
    && (if LineKey(s.sku, Group(r)) in fors then AppliedTo(l, fors[LineKey(s.sku, Group(r))])
        else !l.overridden && l.component == r.component)
  }

  /** Nothing is consumed but what the chosen rule of a packed sold line says, as changed. */
  lemma EveryLineIsAccountedFor(applies: Applies, sellable: string -> bool, rules: seq<Rule>, sale: seq<Sold>, os: seq<Override>, l: Line)
    requires DistinctIds(rules) && (forall r :: r in rules ==> r.component != "")
    requires Resolve(applies, sellable, rules, sale, os).Some? && l in Resolve(applies, sellable, rules, sale, os).value
    ensures exists i, r :: 0 <= i < |sale| && sale[i].qty > 0 && sellable(sale[i].sku)
                           && AccountedFor(applies, rules, sale[i], OverrideFor(os), l, r)
  {
    var fors := OverrideFor(os);
    ConsumptionOnly(applies, sellable, rules, sale, fors, l);
    var i, g :| ComesFrom(applies, sellable, rules, sale, fors, l, i, g);
    var r := Best(applies, sale[i].sku, rules)[g];
    BestIsMinimum(applies, sale[i].sku, rules, g);
    LineIsAccountedFor(applies, rules, sale[i], fors, l, r);
  }

  lemma LineIsAccountedFor(applies: Applies, rules: seq<Rule>, s: Sold, fors: map<string, Override>, l: Line, r: Rule)
    requires IsBest(applies, s.sku, rules, Group(r), r) && (forall q :: q in rules ==> q.component != "")
    requires LineFor(rules, s, r, fors) == Some(l)
    ensures AccountedFor(applies, rules, s, fors, l, r)
  {
    var key := LineKey(s.sku, Group(r));
    if key in fors {
      var choices := ChoicesOf(rules, Group(r));
      OverriddenIsApplied(rules, s, r, fors[key]);
      ChoiceIsOffered(choices, Trim(fors[key].component));
      ChoicesAreOfRules(rules, Group(r));
      ChoicesAreOfferedOnce(rules, Group(r));
    }
  }

  /** Every named component is one some rule names. */
  lemma {:induction false} ChoicesAreOfRules(rules: seq<Rule>, g: string)
    ensures forall c :: c in NamedBy(rules, g) ==> exists r :: r in rules && r.component == c.component && r.name == c.name
  {
    if rules != [] {
      var n := |rules| - 1;
      ChoicesAreOfRules(rules[..n], g);
      assert rules == rules[..n] + [rules[n]];
      forall c | c in NamedBy(rules, g) ensures exists r :: r in rules && r.component == c.component && r.name == c.name {
        if c in NamedBy(rules[..n], g) {
          var r :| r in rules[..n] && r.component == c.component && r.name == c.name;
          assert r in rules;
        } else {
          assert rules[n].component == c.component && rules[n].name == c.name;
        }
      }
    }
  }

  /** When the call succeeds, every override that is in force shows on a line of its key. */
  lemma EveryOverrideIsApplied(applies: Applies, sellable: string -> bool, rules: seq<Rule>, sale: seq<Sold>, os: seq<Override>, key: string)
    requires rules != [] && DistinctIds(rules) && key in OverrideFor(os) && Resolve(applies, sellable, rules, sale, os).Some?
    ensures exists l :: l in Resolve(applies, sellable, rules, sale, os).value && LineKey(l.forSku, Lower(l.group)) == key
                        && AppliedTo(l, OverrideFor(os)[key])
  {
    var fors := OverrideFor(os);
    assert Used(applies, sellable, rules, sale, key);
    var i :| 0 <= i < |sale| && Packed(sellable, sale[i]) && UsedBy(applies, rules, sale[i].sku, key);
    var g :| g in Best(applies, sale[i].sku, rules) && LineKey(sale[i].sku, g) == key;
    var r := Best(applies, sale[i].sku, rules)[g];
    BestIsMinimum(applies, sale[i].sku, rules, g);
    ConsumptionHas(applies, sellable, rules, sale, fors, i, g);
    OverriddenIsApplied(rules, sale[i], r, fors[key]);
    var l := LineFor(rules, sale[i], r, fors).value;
    assert AppliedTo(l, fors[key]) && l.forSku == sale[i].sku && l.group == r.group;
  }

  lemma {:induction false} OverrideForKeys(os: seq<Override>)
    ensures forall key :: key in OverrideFor(os) ==> OverrideFor(os)[key] in os && OverrideKey(OverrideFor(os)[key]) == key
    ensures forall o :: o in os ==> OverrideKey(o) in OverrideFor(os)
  {
    if os != [] {
      var n := |os| - 1;
      OverrideForKeys(os[..n]);
      assert os == os[..n] + [os[n]];
    }
  }

  ghost predicate DistinctKeys(os: seq<Override>)
  {
    forall o, q :: o in os && q in os && OverrideKey(o) == OverrideKey(q) ==> o == q
  }

  lemma AllKeptExactlyWhenKeysDiffer(os: seq<Override>)
    ensures (forall o :: o in os ==> OverrideKey(o) in OverrideFor(os) && OverrideFor(os)[OverrideKey(o)] == o) <==> DistinctKeys(os)
  {
    OverrideForKeys(os);
    if forall o :: o in os ==> OverrideFor(os)[OverrideKey(o)] == o {
      forall o, q | o in os && q in os && OverrideKey(o) == OverrideKey(q) ensures o == q {
        assert OverrideFor(os)[OverrideKey(o)] == o && OverrideFor(os)[OverrideKey(q)] == q;
      }
    }
  }

  /** The override is the last sent of its key, the one the key's lines are changed by, and one of them shows it. */
  ghost predicate InForce(ls: seq<Line>, os: seq<Override>, o: Override)
  {
    && OverrideKey(o) in OverrideFor(os) && OverrideFor(os)[OverrideKey(o)] == o
    && exists l :: l in ls && LineKey(l.forSku, Lower(l.group)) == OverrideKey(o) && AppliedTo(l, o)
  }

  /**
    When the call succeeds, every override sent is in force exactly when the store has rules (or none was sent) and
    no two different ones share a key.
   */
  lemma EveryOverrideInForceExactlyWhen(applies: Applies, sellable: string -> bool, rules: seq<Rule>, sale: seq<Sold>, os: seq<Override>)
    requires DistinctIds(rules) && Resolve(applies, sellable, rules, sale, os).Some?
    ensures (forall o :: o in os ==> InForce(Resolve(applies, sellable, rules, sale, os).value, os, o))
            <==> (os == [] || rules != []) && DistinctKeys(os)
  {
    var ls := Resolve(applies, sellable, rules, sale, os).value;
    AllKeptExactlyWhenKeysDiffer(os);
    if rules == [] {
      assert ls == [];
      if os != [] { assert os[0] in os && !InForce(ls, os, os[0]); }
    } else if DistinctKeys(os) {
      forall o | o in os ensures InForce(ls, os, o) {
        EveryOverrideIsApplied(applies, sellable, rules, sale, os, OverrideKey(o));
      }
    }
  }

  /** A store without rules takes any override and changes nothing. */
  lemma NoRulesDropEveryOverride(applies: Applies, sellable: string -> bool, sale: seq<Sold>, o: Override)
    ensures Resolve(applies, sellable, [], sale, [o]) == Some([]) && !InForce([], [o], o)
  {
  }

  const BAG := Rule("r", "1", 0, true, "p", "b", "Bag", 1, 0.0, true, false, true, Allow)
  const LEAVE_OUT := Override("s", "p", "", "")
  const KEEP := Override("s", "p", "b", "")
  const BAG_LINE := Base(Sold("s", 1), BAG, [Choice("b", "Bag")])

  lemma KeepReplacesLeaveOut()
    ensures OverrideFor([LEAVE_OUT, KEEP]) == map[LineKey("s", "p") := KEEP]
    ensures OverrideKey(LEAVE_OUT) == LineKey("s", "p")
  {
    var os, key := [LEAVE_OUT, KEEP], LineKey("s", "p");
    assert Trim("s") == "s" && Trim("p") == "p" && Lower("s") == "s" && Lower("p") == "p";
    assert OverrideKey(LEAVE_OUT) == key == OverrideKey(KEEP);
    assert os[..1] == [LEAVE_OUT] && os[..1][..0] == [] && OverrideFor([]) == map[];
    assert OverrideFor(os[..1]) == map[key := LEAVE_OUT];
  }

  lemma BagIsBest(applies: Applies)
    requires applies("s", BAG)
    ensures Best(applies, "s", [BAG]) == map["p" := BAG] && Groups(map["p" := BAG], [BAG]) == ["p"]
    ensures ChoicesOf([BAG], "p") == [Choice("b", "Bag")]
  {
    var rules := [BAG];
    assert Lower("p") == "p" && Lower("b") == "b";
    assert rules[..0] == [] && Best(applies, "s", []) == map[];
    assert Choices([]) == (map[], {}) && NamedBy(rules, "p") == [Choice("b", "Bag")];
    assert [Choice("b", "Bag")][..0] == [] && ByName([]) == [];
    assert Groups(map["p" := BAG], []) == [];
  }

  lemma BagIsConsumed(applies: Applies, fors: map<string, Override>)
    requires applies("s", BAG) && fors == map[LineKey("s", "p") := KEEP]
    ensures Consumption(applies, sku => true, [BAG], [Sold("s", 1)], fors) == Some([BAG_LINE])
  {
    BagIsBest(applies);
    var rules, sale, best, gs := [BAG], [Sold("s", 1)], map["p" := BAG], ["p"];
    assert Lower("p") == "p" && Trim("b") == "b";
    assert LineFor(rules, sale[0], BAG, fors) == Some(BAG_LINE);
    assert gs[|gs| - 1] == "p" && gs[..|gs| - 1] == [] && [] + [BAG_LINE] == [BAG_LINE];
    assert LinesFor(rules, sale[0], best, [], fors) == Some([]);
    assert LinesFor(rules, sale[0], best, gs, fors) == Some([BAG_LINE]);
    assert sale[..0] == [] && Consumption(applies, sku => true, rules, [], fors) == Some([]);
  }

  /** One item packed in a bag that may be left out; the cashier leaves it out and then asks for the bag after all. */
  lemma RepeatedKeyDropsTheFirst(applies: Applies)
    requires applies("s", BAG)
    ensures var r := Resolve(applies, sku => true, [BAG], [Sold("s", 1)], [LEAVE_OUT, KEEP]);
            r == Some([BAG_LINE]) && !InForce(r.value, [LEAVE_OUT, KEEP], LEAVE_OUT)
  {
    KeepReplacesLeaveOut();
    var fors, sale := OverrideFor([LEAVE_OUT, KEEP]), [Sold("s", 1)];
    BagIsConsumed(applies, fors);
    BagIsBest(applies);
    assert UsedBy(applies, [BAG], sale[0].sku, LineKey("s", "p")) by { assert "p" in Best(applies, "s", [BAG]); }
    assert Used(applies, sku => true, [BAG], sale, LineKey("s", "p"));
  }
}
