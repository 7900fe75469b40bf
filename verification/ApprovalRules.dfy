/** Approval slabs: which role must approve which amount (engines/approval.go). */
module ApprovalRules {
  import opened Text

  /** max is None for a slab without an upper end. */
  datatype Rule = Rule(id: int, doctype: string, min: real, max: Option<real>, role: string)

  /** rules in the order the rows are stored; next is the serial's next value. */
  datatype Table = Table(rules: seq<Rule>, next: int)

  predicate Covers(r: Rule, amount: real)
  {
    r.min <= amount && (r.max.None? || amount <= r.max.value)
  }

  /** The query's test of a stored row against the range being saved. */
  predicate Overlaps(r: Rule, min: real, max: Option<real>)
  {
    (max.None? || r.min <= max.value) && (r.max.None? || min <= r.max.value)
  }

  predicate Clashes(rules: seq<Rule>, doctype: string, except: int, min: real, max: Option<real>)
  {
    exists i :: 0 <= i < |rules| && rules[i].doctype == doctype && rules[i].id != except && Overlaps(rules[i], min, max)
  }

  /** Every check of UpsertApprovalRule: the overlap test uses the doctype passed in. */
  predicate Accepts(t: Table, doctype: string, min: real, max: Option<real>, role: string, ruleId: Option<int>)
  {
    && doctype != "" && role != "" && (max.Some? ==> min <= max.value)
    && !Clashes(t.rules, doctype, if ruleId.Some? then ruleId.value else -1, min, max)
  }

  /** An edit changes range and role; the row keeps the doctype it has. */
  function Edited(rules: seq<Rule>, id: int, min: real, max: Option<real>, role: string): (t: seq<Rule>)
    ensures |t| == |rules|
  {
    seq(|rules|, i requires 0 <= i < |rules| =>
      if rules[i].id == id then rules[i].(min := min, max := max, role := role) else rules[i])
  }

  /** The statement that writes, whatever the table holds by then. */
  function Written(t: Table, doctype: string, min: real, max: Option<real>, role: string, ruleId: Option<int>): Table
  {
    if ruleId.Some? then t.(rules := Edited(t.rules, ruleId.value, min, max, role))
    else Table(t.rules + [Rule(t.next, doctype, min, max, role)], t.next + 1)
  }

  function Upsert(t: Table, doctype: string, min: real, max: Option<real>, role: string, ruleId: Option<int>): Table
  {
    if Accepts(t, doctype, min, max, role, ruleId) then Written(t, doctype, min, max, role, ruleId) else t
  }

  function Without(rules: seq<Rule>, id: int): seq<Rule>
  {
    if rules == [] then []
    else Without(rules[..|rules| - 1], id) + (if rules[|rules| - 1].id == id then [] else [rules[|rules| - 1]])
  }

  function Delete(t: Table, id: int): Table { t.(rules := Without(t.rules, id)) }

  predicate Matches(r: Rule, doctype: string, amount: real) { r.doctype == doctype && Covers(r, amount) }

  /** requiredApproverRole's row: of the matching ones, the first with the greatest lower end. */
  function Chosen(rules: seq<Rule>, doctype: string, amount: real): Option<Rule>
  {
    if rules == [] then None
    else
      var before, r := Chosen(rules[..|rules| - 1], doctype, amount), rules[|rules| - 1];
      if Matches(r, doctype, amount) && (before.None? || before.value.min < r.min) then Some(r) else before
  }

  function RequiredRole(rules: seq<Rule>, doctype: string, amount: real): string
  {
    match Chosen(rules, doctype, amount) case Some(r) => r.role case None => ""
  }

  predicate IsGated(rules: seq<Rule>, doctype: string)
  {
    exists i :: 0 <= i < |rules| && rules[i].doctype == doctype
  }

  ghost predicate HasRule(rules: seq<Rule>, doctype: string)
  {
    exists r :: r in rules && r.doctype == doctype
  }

  /** A type is gated exactly when some rule is of that type. */
  lemma GatedHasARule(rules: seq<Rule>, doctype: string)
    ensures IsGated(rules, doctype) <==> HasRule(rules, doctype)
  {
    if r :| r in rules && r.doctype == doctype {
      var i :| 0 <= i < |rules| && rules[i] == r;
    }
    if i :| 0 <= i < |rules| && rules[i].doctype == doctype { assert rules[i] in rules; }
  }

  // ---- slabs stay apart ---------------------------------------------------------------------

  ghost predicate Proper(r: Rule) { r.max.Some? ==> r.min <= r.max.value }

  /** No amount falls into two slabs of one record type. */
  ghost predicate Disjoint(rules: seq<Rule>)
  {
    forall i, j :: 0 <= i < j < |rules| && rules[i].doctype == rules[j].doctype ==> Apart(rules[i], rules[j])
  }

  ghost predicate Apart(r: Rule, q: Rule) { forall amount :: Covers(r, amount) ==> !Covers(q, amount) }

  ghost predicate Sound(t: Table)
  {
    && 0 < t.next
    && (forall i :: 0 <= i < |t.rules| ==> Proper(t.rules[i]) && 0 < t.rules[i].id < t.next && t.rules[i].role != "")
    && (forall i, j :: 0 <= i < j < |t.rules| ==> t.rules[i].id != t.rules[j].id)
  }

  /** The overlap query tests exactly whether some amount would fall into both ranges. */
  lemma OverlapMeansSharedAmount(r: Rule, min: real, max: Option<real>)
    requires Proper(r) && (max.Some? ==> min <= max.value)
    ensures Overlaps(r, min, max) <==> exists amount :: Covers(r, amount) && Covers(r.(min := min, max := max), amount)
  {
    if Overlaps(r, min, max) {
      var amount := if r.min <= min then min else r.min;
      assert Covers(r, amount) && Covers(r.(min := min, max := max), amount);
    }
  }

  /** A new range that clashes with nothing of its type shares no amount with any row of it. */
  lemma NoClashIsDisjoint(rules: seq<Rule>, i: nat, doctype: string, except: int, min: real, max: Option<real>)
    requires i < |rules| && Proper(rules[i]) && (max.Some? ==> min <= max.value)
    requires rules[i].doctype == doctype && rules[i].id != except && !Clashes(rules, doctype, except, min, max)
    ensures Apart(rules[i], rules[i].(min := min, max := max))
  {
    OverlapMeansSharedAmount(rules[i], min, max);
  }

  lemma AppendedStaysDisjoint(t: Table, doctype: string, min: real, max: Option<real>, role: string)
    requires Sound(t) && Disjoint(t.rules) && (max.Some? ==> min <= max.value) && !Clashes(t.rules, doctype, -1, min, max)
    ensures Disjoint(Written(t, doctype, min, max, role, None).rules)
  {
    var after := Written(t, doctype, min, max, role, None).rules;
    forall i | 0 <= i < |t.rules| && t.rules[i].doctype == doctype
      ensures Apart(t.rules[i], after[|t.rules|])
    {
      NoClashIsDisjoint(t.rules, i, doctype, -1, min, max);
      assert forall amount :: Covers(after[|t.rules|], amount) <==> Covers(t.rules[i].(min := min, max := max), amount);
    }
  }

  /** Where the edited row belongs to another type than the one passed, the check looked at the wrong rows. */
  ghost predicate EditIsChecked(t: Table, doctype: string, min: real, max: Option<real>, id: int)
  {
    forall k :: 0 <= k < |t.rules| && t.rules[k].id == id && t.rules[k].doctype != doctype ==>
      !Clashes(t.rules, t.rules[k].doctype, id, min, max)
  }

  /** An edit keeps the slabs apart exactly when its range clashes with no other row of the row's own type. */
  lemma EditKeepsDisjointExactlyWhenChecked(t: Table, doctype: string, min: real, max: Option<real>, role: string, id: int)
    requires Sound(t) && Disjoint(t.rules) && Accepts(t, doctype, min, max, role, Some(id))
    ensures Disjoint(Upsert(t, doctype, min, max, role, Some(id)).rules) <==> EditIsChecked(t, doctype, min, max, id)
  {
    var after := Edited(t.rules, id, min, max, role);
    if EditIsChecked(t, doctype, min, max, id) {
      EditedStaysDisjoint(t, min, max, role, id);
    } else {
      var k :| 0 <= k < |t.rules| && t.rules[k].id == id && t.rules[k].doctype != doctype
               && Clashes(t.rules, t.rules[k].doctype, id, min, max);
      var i :| 0 <= i < |t.rules| && t.rules[i].doctype == t.rules[k].doctype && t.rules[i].id != id && Overlaps(t.rules[i], min, max);
      OverlapMeansSharedAmount(t.rules[i], min, max);
      var amount :| Covers(t.rules[i], amount) && Covers(t.rules[i].(min := min, max := max), amount);
      assert Covers(after[i], amount) && Covers(after[k], amount) && i != k;
    }
  }

  /** Two slabs of purchase orders; the second is edited onto the first under another type's name. */
  lemma EditUnderAnotherTypeOverlaps()
    ensures var t := Table([Rule(1, "PO", 0.0, Some(10.0), "Manager"), Rule(2, "PO", 20.0, Some(30.0), "Manager")], 3);
            && Sound(t) && Disjoint(t.rules) && Accepts(t, "SO", 5.0, Some(15.0), "Manager", Some(2))
            && !Disjoint(Upsert(t, "SO", 5.0, Some(15.0), "Manager", Some(2)).rules)
  {
    var t := Table([Rule(1, "PO", 0.0, Some(10.0), "Manager"), Rule(2, "PO", 20.0, Some(30.0), "Manager")], 3);
    assert "PO"[0] == 'P' && "SO"[0] == 'S';
    assert Clashes(t.rules, t.rules[1].doctype, 2, 5.0, Some(15.0)) by { assert Overlaps(t.rules[0], 5.0, Some(15.0)); }
    EditKeepsDisjointExactlyWhenChecked(t, "SO", 5.0, Some(15.0), "Manager", 2);
  }

  lemma EditedStaysDisjoint(t: Table, min: real, max: Option<real>, role: string, id: int)
    requires Sound(t) && Disjoint(t.rules) && (max.Some? ==> min <= max.value)
    requires forall k :: 0 <= k < |t.rules| && t.rules[k].id == id ==> !Clashes(t.rules, t.rules[k].doctype, id, min, max)
    ensures Disjoint(Edited(t.rules, id, min, max, role))
  {
    var after := Edited(t.rules, id, min, max, role);
    forall i, j | 0 <= i < j < |after| && after[i].doctype == after[j].doctype ensures Apart(after[i], after[j]) {
      if t.rules[i].id == id {
        NoClashIsDisjoint(t.rules, j, t.rules[i].doctype, id, min, max);
        assert forall amount :: Covers(after[i], amount) ==> Covers(t.rules[j].(min := min, max := max), amount);
      } else if t.rules[j].id == id {
        NoClashIsDisjoint(t.rules, i, t.rules[j].doctype, id, min, max);
        assert forall amount :: Covers(after[j], amount) ==> Covers(t.rules[i].(min := min, max := max), amount);
      } else {
        assert Apart(t.rules[i], t.rules[j]);
      }
    }
  }

  lemma {:induction false} WithoutRows(rules: seq<Rule>, id: int)
    ensures forall r :: r in Without(rules, id) <==> r in rules && r.id != id
  {
    if rules != [] {
      var n := |rules| - 1;
      WithoutRows(rules[..n], id);
      assert rules == rules[..n] + [rules[n]];
    }
  }

  lemma {:induction false} DeleteKeepsSound(rules: seq<Rule>, id: int, next: int)
    requires Sound(Table(rules, next))
    ensures Sound(Table(Without(rules, id), next))
  {
    if rules != [] {
      var n := |rules| - 1;
      DeleteKeepsSound(rules[..n], id, next);
      WithoutRows(rules[..n], id);
      var before := Without(rules[..n], id);
      if rules[n].id != id {
        forall i | 0 <= i < |before| ensures before[i].id != rules[n].id { assert before[i] in rules[..n]; }
      }
    }
  }

  lemma {:induction false} DeleteKeepsDisjoint(rules: seq<Rule>, id: int)
    requires Disjoint(rules)
    ensures Disjoint(Without(rules, id))
  {
    if rules != [] {
      var n := |rules| - 1;
      DeleteKeepsDisjoint(rules[..n], id);
      WithoutRows(rules[..n], id);
      var before := Without(rules[..n], id);
      if rules[n].id != id {
        forall i | 0 <= i < |before| && before[i].doctype == rules[n].doctype ensures Apart(before[i], rules[n]) {
          assert before[i] in rules[..n];
        }
      }
    }
  }

  // ---- a check and its write apart --------------------------------------------------------------

  /** No row that is to hold the range clashes with another one of its own type. */
  ghost predicate Clear(t: Table, doctype: string, min: real, max: Option<real>, ruleId: Option<int>)
  {
    match ruleId
    case None => !Clashes(t.rules, doctype, -1, min, max)
    case Some(id) => forall k :: 0 <= k < |t.rules| && t.rules[k].id == id ==> !Clashes(t.rules, t.rules[k].doctype, id, min, max)
  }

  /**
    Check and write are two statements without a lock. Whatever was checked before, the write keeps the slabs apart
    exactly when its range is clear in the table it meets.
   */
  lemma WriteKeepsDisjointExactlyWhenClear(t: Table, doctype: string, min: real, max: Option<real>, role: string, ruleId: Option<int>)
    requires Sound(t) && Disjoint(t.rules) && (max.Some? ==> min <= max.value)
    ensures Disjoint(Written(t, doctype, min, max, role, ruleId).rules) <==> Clear(t, doctype, min, max, ruleId)
  {
    var after := Written(t, doctype, min, max, role, ruleId).rules;
    if Clear(t, doctype, min, max, ruleId) {
      if ruleId.Some? { EditedStaysDisjoint(t, min, max, role, ruleId.value); }
      else { AppendedStaysDisjoint(t, doctype, min, max, role); }
    } else if ruleId.None? {
      var i :| 0 <= i < |t.rules| && t.rules[i].doctype == doctype && t.rules[i].id != -1 && Overlaps(t.rules[i], min, max);
      OverlapMeansSharedAmount(t.rules[i], min, max);
      var amount :| Covers(t.rules[i], amount) && Covers(t.rules[i].(min := min, max := max), amount);
      assert Covers(after[i], amount) && Covers(after[|t.rules|], amount);
    } else {
      var k :| 0 <= k < |t.rules| && t.rules[k].id == ruleId.value && Clashes(t.rules, t.rules[k].doctype, ruleId.value, min, max);
      var i :| 0 <= i < |t.rules| && t.rules[i].doctype == t.rules[k].doctype && t.rules[i].id != ruleId.value && Overlaps(t.rules[i], min, max);
      OverlapMeansSharedAmount(t.rules[i], min, max);
      var amount :| Covers(t.rules[i], amount) && Covers(t.rules[i].(min := min, max := max), amount);
      assert Covers(after[i], amount) && Covers(after[k], amount) && i != k;
    }
  }

  /** Two creates checked against the same empty table, then both written. */
  lemma RacingCreatesOverlap()
    ensures var t := Table([], 1);
            var u := Written(t, "PO", 0.0, Some(10.0), "Clerk", None);
            && Accepts(t, "PO", 0.0, Some(10.0), "Clerk", None) && Accepts(t, "PO", 5.0, Some(15.0), "Manager", None)
            && !Disjoint(Written(u, "PO", 5.0, Some(15.0), "Manager", None).rules)
  {
    var u := Written(Table([], 1), "PO", 0.0, Some(10.0), "Clerk", None);
    assert Overlaps(u.rules[0], 5.0, Some(15.0));
    WriteKeepsDisjointExactlyWhenClear(u, "PO", 5.0, Some(15.0), "Manager", None);
  }

  /** LateSave: the write of a save that was checked against an earlier table. */
  datatype Change =
    | Save(doctype: string, min: real, max: Option<real>, role: string, ruleId: Option<int>)
    | LateSave(doctype: string, min: real, max: Option<real>, role: string, ruleId: Option<int>)
    | Remove(id: int)

  function Apply(t: Table, c: Change): Table
  {
    match c
    case Save(doctype, min, max, role, ruleId) => Upsert(t, doctype, min, max, role, ruleId)
    case LateSave(doctype, min, max, role, ruleId) =>
      if doctype == "" || role == "" || (max.Some? && max.value < min) then t else Written(t, doctype, min, max, role, ruleId)
    case Remove(id) => Delete(t, id)
  }

  function Run(t: Table, cs: seq<Change>): Table
    decreases |cs|
  {
    if cs == [] then t else Run(Apply(t, cs[0]), cs[1..])
  }

  ghost predicate Checked(t: Table, c: Change)
  {
    && (c.Save? && c.ruleId.Some? ==> EditIsChecked(t, c.doctype, c.min, c.max, c.ruleId.value))
    && (c.LateSave? ==> Clear(t, c.doctype, c.min, c.max, c.ruleId))
  }

  ghost predicate CheckedRun(t: Table, cs: seq<Change>)
    decreases |cs|
  {
    cs == [] || (Checked(t, cs[0]) && CheckedRun(Apply(t, cs[0]), cs[1..]))
  }

  lemma ChangeKeepsSlabs(t: Table, c: Change)
    requires Sound(t) && Disjoint(t.rules) && Checked(t, c)
    ensures Sound(Apply(t, c)) && Disjoint(Apply(t, c).rules)
  {
    match c
    case Remove(id) => { DeleteKeepsSound(t.rules, id, t.next); DeleteKeepsDisjoint(t.rules, id); }
    case Save(doctype, min, max, role, ruleId) =>
      if Accepts(t, doctype, min, max, role, ruleId) {
        if ruleId.Some? { EditKeepsDisjointExactlyWhenChecked(t, doctype, min, max, role, ruleId.value); }
        else { AppendedStaysDisjoint(t, doctype, min, max, role); }
      }
    case LateSave(doctype, min, max, role, ruleId) =>
      if max.Some? ==> min <= max.value { WriteKeepsDisjointExactlyWhenClear(t, doctype, min, max, role, ruleId); }
  }

  /** Over every sequence of creates, edits and deletes, no amount ever has two slabs. */
  lemma {:induction false} SlabsStayDisjoint(t: Table, cs: seq<Change>)
    requires Sound(t) && Disjoint(t.rules) && CheckedRun(t, cs)
    ensures Sound(Run(t, cs)) && Disjoint(Run(t, cs).rules)
    decreases |cs|
  {
    if cs != [] {
      ChangeKeepsSlabs(t, cs[0]);
      SlabsStayDisjoint(Apply(t, cs[0]), cs[1..]);
    }
  }

  // ---- one role per amount -------------------------------------------------------------------

  lemma {:induction false} ChosenMatches(rules: seq<Rule>, doctype: string, amount: real)
    ensures var c := Chosen(rules, doctype, amount);
            && (c.Some? ==> c.value in rules && Matches(c.value, doctype, amount))
            && (c.None? ==> forall r :: r in rules ==> !Matches(r, doctype, amount))
  {
    if rules != [] {
      var n := |rules| - 1;
      ChosenMatches(rules[..n], doctype, amount);
      assert rules == rules[..n] + [rules[n]];
    }
  }

  /** With slabs apart, the role asked for is that of the one slab the amount falls into. */
  lemma RequiredRoleIsTheSlabs(rules: seq<Rule>, doctype: string, amount: real, r: Rule)
    requires Disjoint(rules) && r in rules && Matches(r, doctype, amount)
    ensures RequiredRole(rules, doctype, amount) == r.role
    ensures forall q :: q in rules && Matches(q, doctype, amount) ==> q == r
  {
    ChosenMatches(rules, doctype, amount);
    forall q | q in rules && Matches(q, doctype, amount) ensures q == r {
      var i :| 0 <= i < |rules| && rules[i] == q;
      var j :| 0 <= j < |rules| && rules[j] == r;
      assert Covers(rules[i], amount) && Covers(rules[j], amount);
    }
  }

  /** The answer does not depend on the order the rows are stored in. */
  lemma RequiredRoleIgnoresRowOrder(a: seq<Rule>, b: seq<Rule>, doctype: string, amount: real)
    requires Disjoint(a) && multiset(a) == multiset(b)
    ensures RequiredRole(a, doctype, amount) == RequiredRole(b, doctype, amount)
  {
    ChosenMatches(a, doctype, amount);
    ChosenMatches(b, doctype, amount);
    assert forall r :: r in a <==> r in multiset(a);
    assert forall r :: r in b <==> r in multiset(b);
    if Chosen(b, doctype, amount).Some? {
      RequiredRoleIsTheSlabs(a, doctype, amount, Chosen(b, doctype, amount).value);
    } else {
      assert forall r :: r in a ==> r in b;
    }
  }

  // ---- the table ------------------------------------------------------------------------------

  class RuleTable {
    var rules: seq<Rule>
    var next: int

    constructor ()
      ensures rules == [] && next == 1
    {
      rules, next := [], 1;
    }

    method UpsertApprovalRule(doctype: string, min: real, max: Option<real>, role: string, ruleId: Option<int>)
      returns (id: Option<int>)
      modifies this
      ensures id.Some? <==> Accepts(Table(old(rules), old(next)), doctype, min, max, role, ruleId)
      ensures Table(rules, next) == Upsert(Table(old(rules), old(next)), doctype, min, max, role, ruleId)
      ensures id.Some? ==> id.value == if ruleId.Some? then ruleId.value else old(next)
    {
      if doctype == "" || role == "" { return None; }
      if max.Some? && max.value < min { return None; }
      var exclude := -1;
      if ruleId.Some? { exclude := ruleId.value; }
      for i := 0 to |rules|
        invariant forall k :: 0 <= k < i ==>
                    !(rules[k].doctype == doctype && rules[k].id != exclude && Overlaps(rules[k], min, max))
        invariant rules == old(rules) && next == old(next)
      {
        if rules[i].doctype == doctype && rules[i].id != exclude && Overlaps(rules[i], min, max) { return None; }
      }
      if ruleId.Some? {
        rules := Edited(rules, ruleId.value, min, max, role);
        return ruleId;
      }
      id := Some(next);
      rules, next := rules + [Rule(next, doctype, min, max, role)], next + 1;
    }

    method DeleteApprovalRule(id: int) returns (found: bool)
      modifies this
      ensures found <==> exists i :: 0 <= i < |old(rules)| && old(rules)[i].id == id
      ensures Table(rules, next) == Delete(Table(old(rules), old(next)), id)
    {
      found := exists i :: 0 <= i < |rules| && rules[i].id == id;
      rules := Without(rules, id);
    }
  }
}
