/**
  What the maker-checker flow promises over every interleaving of its calls: no pending spell is decided twice; no
  maker decides their own round as long as log rows are written before the next decision; a decided status is the
  flow's word as long as no save writes over a row that changed since it read it.
 */
module ApprovalTheorems {
  import opened Text
  import opened Approvals
  import R = ApprovalRules

  // ---- what the history says ----------------------------------------------------------------------------

  ghost predicate NoneBetween(h: seq<Act>, i: int, j: int, what: Act -> bool)
  {
    forall k :: i < k < j && 0 <= k < |h| ==> !what(h[k])
  }

  ghost predicate IsDecision(a: Act) { a.Decided? }

  ghost predicate IsSave(a: Act) { a.Saved? }

  ghost predicate Bars(a: Act, user: string)
  {
    a == Submitted(user) || a == Modified(user)
  }

  /** In the history up to n, the user did not make the round a decision at n would close. */
  ghost predicate DidNotMakeRound(h: seq<Act>, n: int, user: string)
    requires 0 <= n <= |h|
  {
    && (forall i :: 0 <= i < n ==> h[i] != Created(user))
    && (forall i :: 0 <= i < n && h[i] == Saved(user) ==> !NoneBetween(h, i, n, IsSave))
    && (forall i :: 0 <= i < n && Bars(h[i], user) ==> !NoneBetween(h, i, n, IsDecision))
  }

  /** A second person must decide: always, under a setting that is neither word, or under "admins" without full access. */
  ghost predicate NeedsSecond(p: Policy, fullAccess: bool)
  {
    || p.alwaysSecond
    || (p.setting != "anyone" && p.setting != "admins")
    || (p.setting == "admins" && !fullAccess)
  }

  /** Wherever a second person must decide, the decider had not made the round. */
  ghost predicate MakersNeverDecide(h: seq<Act>)
  {
    forall n :: 0 <= n < |h| && h[n].Decided? && NeedsSecond(h[n].policy, h[n].fullAccess) ==> DidNotMakeRound(h, n, h[n].user)
  }

  /** Between two decisions the document became pending again. */
  ghost predicate OneDecisionPerSpell(h: seq<Act>)
  {
    forall i, j :: 0 <= i < j < |h| && h[i].Decided? && h[j].Decided? ==> exists k :: i < k < j && h[k] == Entered
  }

  predicate IsMark(a: Act) { a.Entered? || a.Moved? || a.Decided? }

  /** What last changed the status. */
  ghost function LastMark(h: seq<Act>): Option<Act>
  {
    if h == [] then None
    else if IsMark(h[|h| - 1]) then Some(h[|h| - 1])
    else LastMark(h[..|h| - 1])
  }

  // ---- the row and the log follow the history -------------------------------------------------------------

  ghost function LastSaver(h: seq<Act>): Option<string>
  {
    if h == [] then None
    else if h[|h| - 1].Saved? then Some(h[|h| - 1].user)
    else LastSaver(h[..|h| - 1])
  }

  /** The users who sent or changed the round since the last decision. */
  ghost function RoundMakers(h: seq<Act>): set<string>
  {
    if h == [] then {}
    else
      var a := h[|h| - 1];
      var before := RoundMakers(h[..|h| - 1]);
      if a.Decided? then {} else if a.Submitted? || a.Modified? then before + {a.user} else before
  }

  ghost function LogMakers(log: seq<LogRow>): set<string>
  {
    if log == [] then {}
    else
      var row := log[|log| - 1];
      var before := LogMakers(log[..|log| - 1]);
      if row.action.ActApproved? || row.action.ActRejected? then {} else before + {row.user}
  }

  /** A history starts with its one creation and no pending spell in it is decided twice. */
  ghost predicate HistoryOk(h: seq<Act>, creator: string)
  {
    && h != [] && h[0] == Created(creator) && (forall i :: 0 < i < |h| ==> !h[i].Created?)
    && OneDecisionPerSpell(h)
  }

  ghost predicate SpellInv(s: State)
  {
    HistoryOk(s.history, s.doc.createdBy) && (s.doc.status == PENDING ==> LastMark(s.history) == Some(Entered))
  }

  /** The log names every maker of the round but those it is still owed a row of. */
  ghost predicate Inv(s: State)
  {
    && SpellInv(s) && MakersNeverDecide(s.history)
    && s.doc.updatedBy == LastSaver(s.history)
    && s.owed <= RoundMakers(s.history) <= LogMakers(s.log) + s.owed
  }

  // ---- the history's functions, one act at a time -----------------------------------------------------------

  lemma OneMoreAct(h: seq<Act>, a: Act)
    ensures LastSaver(h + [a]) == if a.Saved? then Some(a.user) else LastSaver(h)
    ensures LastMark(h + [a]) == if IsMark(a) then Some(a) else LastMark(h)
    ensures RoundMakers(h + [a]) == if a.Decided? then {} else if a.Submitted? || a.Modified? then RoundMakers(h) + {a.user} else RoundMakers(h)
  {
    assert (h + [a])[..|h|] == h;
  }

  lemma OneMoreRow(log: seq<LogRow>, row: LogRow)
    ensures LogMakers(log + [row]) == if row.action.ActApproved? || row.action.ActRejected? then {} else LogMakers(log) + {row.user}
  {
    assert (log + [row])[..|log|] == log;
  }

  lemma {:induction false} LogMakersAre(log: seq<LogRow>, user: string)
    ensures user in LogMakers(log) <==> exists i :: SinceDecision(log) <= i < |log| && SentRound(log[i], user)
  {
    if log != [] {
      var n := |log| - 1;
      var row := log[n];
      LogMakersAre(log[..n], user);
      if !(row.action.ActApproved? || row.action.ActRejected?) {
        assert SinceDecision(log) == SinceDecision(log[..n]);
        if user in LogMakers(log[..n]) {
          var i :| SinceDecision(log[..n]) <= i < n && SentRound(log[..n][i], user);
          assert SentRound(log[i], user);
        }
        if row.user == user { assert SentRound(log[n], user); }
      }
    }
  }

  lemma {:induction false} SaversAre(h: seq<Act>, i: int, user: string)
    requires 0 <= i < |h| && h[i] == Saved(user) && LastSaver(h) != Some(user)
    ensures !NoneBetween(h, i, |h|, IsSave)
  {
    var n := |h| - 1;
    if h[n].Saved? {
      assert IsSave(h[n]) && i < n;
    } else {
      SaversAre(h[..n], i, user);
      var k :| i < k < n && IsSave(h[..n][k]);
      assert IsSave(h[k]);
    }
  }

  lemma {:induction false} MakersAre(h: seq<Act>, i: int, user: string)
    requires 0 <= i < |h| && Bars(h[i], user) && user !in RoundMakers(h)
    ensures !NoneBetween(h, i, |h|, IsDecision)
  {
    var n := |h| - 1;
    if h[n].Decided? {
      assert IsDecision(h[n]) && i < n;
    } else {
      MakersAre(h[..n], i, user);
      var k :| i < k < n && IsDecision(h[..n][k]);
      assert IsDecision(h[k]);
    }
  }

  lemma {:induction false} PendingSinceDecision(h: seq<Act>, i: int)
    requires 0 <= i < |h| && h[i].Decided? && LastMark(h) == Some(Entered)
    ensures exists k :: i < k < |h| && h[k] == Entered
  {
    var n := |h| - 1;
    if !h[n].Entered? {
      PendingSinceDecision(h[..n], i);
      var k :| i < k < n && h[..n][k] == Entered;
      assert h[k] == Entered;
    }
  }

  /** Whoever is among the round's makers sent or changed it, with no decision since. */
  lemma {:induction false} MakerFound(h: seq<Act>, user: string) returns (i: nat)
    requires user in RoundMakers(h)
    ensures i < |h| && Bars(h[i], user) && NoneBetween(h, i, |h|, IsDecision)
  {
    var n := |h| - 1;
    if Bars(h[n], user) {
      i := n;
    } else {
      i := MakerFound(h[..n], user);
      assert h[i] == h[..n][i];
      forall k | i < k < |h| ensures !IsDecision(h[k]) { if k < n { assert !IsDecision(h[..n][k]); } }
    }
  }

  lemma SameSpells(h: seq<Act>, a: Act)
    requires OneDecisionPerSpell(h) && (a.Decided? ==> LastMark(h) == Some(Entered))
    ensures OneDecisionPerSpell(h + [a])
  {
    var g := h + [a];
    forall i, j | 0 <= i < j < |g| && g[i].Decided? && g[j].Decided? ensures exists k :: i < k < j && g[k] == Entered {
      assert g[i] == h[i];
      if j < |h| {
        assert g[j] == h[j];
        var k :| i < k < j && h[k] == Entered;
        assert g[k] == Entered;
      } else {
        PendingSinceDecision(h, i);
        var k :| i < k < |h| && h[k] == Entered;
        assert g[k] == Entered;
      }
    }
  }

  lemma SamePast(h: seq<Act>, g: seq<Act>, n: int, user: string)
    requires 0 <= n <= |h| <= |g| && g[..|h|] == h
    ensures DidNotMakeRound(g, n, user) <==> DidNotMakeRound(h, n, user)
  {
    assert forall k :: 0 <= k < |h| ==> g[k] == h[k];
    forall i | 0 <= i < n && h[i] == Saved(user)
      ensures NoneBetween(g, i, n, IsSave) <==> NoneBetween(h, i, n, IsSave)
    {
      assert forall k :: i < k < n ==> IsSave(g[k]) == IsSave(h[k]);
    }
    forall i | 0 <= i < n && Bars(h[i], user)
      ensures NoneBetween(g, i, n, IsDecision) <==> NoneBetween(h, i, n, IsDecision)
    {
      assert forall k :: i < k < n ==> IsDecision(g[k]) == IsDecision(h[k]);
    }
  }

  /** One more act keeps makers from deciding exactly when it is not a barred decision. */
  lemma MakersAfter(h: seq<Act>, a: Act)
    requires MakersNeverDecide(h)
    ensures MakersNeverDecide(h + [a]) <==> (a.Decided? && NeedsSecond(a.policy, a.fullAccess) ==> DidNotMakeRound(h, |h|, a.user))
  {
    var g := h + [a];
    assert g[..|h|] == h && g[|h|] == a;
    if a.Decided? { SamePast(h, g, |h|, a.user); }
    forall n | 0 <= n < |h| && g[n].Decided? && NeedsSecond(g[n].policy, g[n].fullAccess) ensures DidNotMakeRound(g, n, g[n].user) {
      assert g[n] == h[n];
      SamePast(h, g, n, g[n].user);
    }
  }

  // ---- the check, in the words of the row and the log ------------------------------------------------------------

  /** The user created or last saved the document, or sent or changed it with no decision logged since. */
  ghost predicate MadeIt(doc: Doc, log: seq<LogRow>, user: string)
  {
    || user == doc.createdBy || doc.updatedBy == Some(user) || (doc.updatedBy.None? && user == "")
    || exists i :: 0 <= i < |log| && log[i].user == user && SentUndecided(log, i)
  }

  ghost predicate SentUndecided(log: seq<LogRow>, i: int)
    requires 0 <= i < |log|
  {
    && (log[i].action == ActSubmitted || log[i].action == ActModified)
    && forall k :: i < k < |log| ==> log[k].action != ActApproved && log[k].action != ActRejected
  }

  lemma MakerMadeIt(doc: Doc, log: seq<LogRow>, user: string)
    ensures IsMaker(doc, log, user, false) <==> MadeIt(doc, log, user)
  {
    var n := SinceDecision(log);
    assert n > 0 ==> log[n - 1].action == ActApproved || log[n - 1].action == ActRejected;
    assert forall i :: 0 <= i < |log| && log[i].user == user ==> (SentUndecided(log, i) <==> n <= i && SentRound(log[i], user));
  }

  // ---- every step -------------------------------------------------------------------------------------------------

  lemma QuietAct(h: seq<Act>, creator: string, a: Act)
    requires HistoryOk(h, creator) && !a.Decided? && !a.Created?
    ensures HistoryOk(h + [a], creator) && (MakersNeverDecide(h) ==> MakersNeverDecide(h + [a]))
    ensures LastSaver(h + [a]) == if a.Saved? then Some(a.user) else LastSaver(h)
    ensures LastMark(h + [a]) == if IsMark(a) then Some(a) else LastMark(h)
    ensures RoundMakers(h + [a]) == if a.Submitted? || a.Modified? then RoundMakers(h) + {a.user} else RoundMakers(h)
  {
    SameSpells(h, a);
    if MakersNeverDecide(h) { MakersAfter(h, a); }
    OneMoreAct(h, a);
  }

  /** An act of a user and the change of status it comes with. */
  lemma QuietActs(h: seq<Act>, creator: string, a: Act, from: string, to: string)
    requires HistoryOk(h, creator) && (a.Saved? || a.Submitted? || a.Modified?)
    ensures var g := h + [a] + Marks(from, to);
            && HistoryOk(g, creator) && (MakersNeverDecide(h) ==> MakersNeverDecide(g))
            && LastSaver(g) == (if a.Saved? then Some(a.user) else LastSaver(h))
            && RoundMakers(g) == (if a.Saved? then RoundMakers(h) else RoundMakers(h) + {a.user})
            && LastMark(g) == (if to == from then LastMark(h) else if to == PENDING then Some(Entered) else Some(Moved))
  {
    QuietAct(h, creator, a);
    if to == from {
      assert h + [a] + Marks(from, to) == h + [a];
    } else {
      QuietAct(h + [a], creator, Marks(from, to)[0]);
    }
  }

  lemma NextKeepsInv(s: State, job: nat)
    requires SpellInv(s) && job in s.jobs
    ensures SpellInv(Next(s, job)) && (Inv(s) ==> Inv(Next(s, job)))
  {
    var h, creator := s.history, s.doc.createdBy;
    match s.jobs[job]
    case Submitting(user, _, _, _) => QuietActs(h, creator, Submitted(user), s.doc.status, PENDING);
    case Saving(user, _, status, _, _, expected, _) => if !Conflict(s, expected) { QuietActs(h, creator, Saved(user), s.doc.status, status); }
    case Resetting(user, _, _, _) => QuietActs(h, creator, Modified(user), s.doc.status, PENDING);
    case Logging(reset, user, role, amount) => OneMoreRow(s.log, RoundRow(reset, user, role, amount));
  }

  /** The row's editor and the log's round say enough to bar every maker the log is not owed a row of. */
  lemma NotMakerDidNotMakeRound(s: State, user: string)
    requires Inv(s) && !IsMaker(s.doc, s.log, user, false) && user !in s.owed
    ensures DidNotMakeRound(s.history, |s.history|, user)
  {
    var h := s.history;
    LogMakersAre(s.log, user);
    forall i | 0 <= i < |h| && h[i] == Saved(user) ensures !NoneBetween(h, i, |h|, IsSave) { SaversAre(h, i, user); }
    forall i | 0 <= i < |h| && Bars(h[i], user) ensures !NoneBetween(h, i, |h|, IsDecision) { MakersAre(h, i, user); }
  }

  lemma DecideKeepsSpell(s: State, user: string, role: string, fullAccess: bool, location: string, approve: bool, comment: string)
    requires SpellInv(s) && MayDecide(s, user, role, fullAccess, location, approve, comment)
    ensures SpellInv(Decide(s, user, role, fullAccess, location, approve, comment))
  {
    var d := Decided(user, approve, s.policy, fullAccess);
    SameSpells(s.history, d);
    StatusWords();
  }

  /**
    A decision made where the maker may not make it keeps the promise exactly when the log is owed no row of the
    decider: no submission or reset of theirs has written its status and not its log row.
   */
  lemma DecideKeepsInvExactlyWhenLogged(s: State, user: string, role: string, fullAccess: bool, location: string,
                                        approve: bool, comment: string)
    requires Inv(s) && MayDecide(s, user, role, fullAccess, location, approve, comment)
    ensures Inv(Decide(s, user, role, fullAccess, location, approve, comment))
            <==> !NeedsSecond(s.policy, fullAccess) || user !in s.owed
  {
    var h := s.history;
    var d := Decided(user, approve, s.policy, fullAccess);
    var t := Decide(s, user, role, fullAccess, location, approve, comment);
    DecideKeepsSpell(s, user, role, fullAccess, location, approve, comment);
    MakersAfter(h, d);
    OneMoreAct(h, d);
    OneMoreRow(s.log, t.log[|s.log|]);
    if NeedsSecond(s.policy, fullAccess) {
      if user in s.owed {
        var i := MakerFound(h, user);
        assert !DidNotMakeRound(h, |h|, user);
      } else {
        NotMakerDidNotMakeRound(s, user);
      }
    }
  }

  /** Nobody barred from deciding decides while the log is owed a row of theirs. */
  ghost predicate Logged(s: State, e: Event)
  {
    e.EvDecide? && NeedsSecond(s.policy, e.fullAccess) ==> e.user !in s.owed
  }

  ghost predicate AllLogged(s: State, events: seq<Event>)
    decreases |events|
  {
    events == [] || (Logged(s, events[0]) && AllLogged(Apply(s, events[0]), events[1..]))
  }

  lemma StepKeepsSpell(s: State, e: Event)
    requires SpellInv(s)
    ensures SpellInv(Apply(s, e))
  {
    match e
    case EvNext(job) => if job in s.jobs { NextKeepsInv(s, job); }
    case EvDecide(user, role, fullAccess, location, approve, comment) =>
      if MayDecide(s, user, role, fullAccess, location, approve, comment) {
        DecideKeepsSpell(s, user, role, fullAccess, location, approve, comment);
      }
    case _ =>
  }

  lemma StepKeepsInv(s: State, e: Event)
    requires Inv(s) && Logged(s, e)
    ensures Inv(Apply(s, e))
  {
    match e
    case EvNext(job) => if job in s.jobs { NextKeepsInv(s, job); }
    case EvDecide(user, role, fullAccess, location, approve, comment) =>
      if MayDecide(s, user, role, fullAccess, location, approve, comment) {
        DecideKeepsInvExactlyWhenLogged(s, user, role, fullAccess, location, approve, comment);
      }
    case _ =>
  }

  // ---- every run --------------------------------------------------------------------------------------------------

  lemma {:induction false} RunKeepsSpell(s: State, events: seq<Event>)
    requires SpellInv(s)
    ensures SpellInv(Run(s, events))
    decreases |events|
  {
    if events != [] {
      StepKeepsSpell(s, events[0]);
      RunKeepsSpell(Apply(s, events[0]), events[1..]);
    }
  }

  lemma {:induction false} RunKeepsInv(s: State, events: seq<Event>)
    requires Inv(s) && AllLogged(s, events)
    ensures Inv(Run(s, events))
    decreases |events|
  {
    if events != [] {
      StepKeepsInv(s, events[0]);
      RunKeepsInv(Apply(s, events[0]), events[1..]);
    }
  }

  /** A call nothing interleaves with keeps the invariant wherever it stops. */
  lemma {:induction false} RestKeepsInv(s: State, job: nat, writes: nat)
    requires Inv(s)
    ensures Inv(Rest(s, job, writes))
    decreases writes
  {
    if job in s.jobs && writes > 0 {
      StepKeepsInv(s, EvNext(job));
      RestKeepsInv(Apply(s, EvNext(job)), job, writes - 1);
    }
  }

  lemma StartIsInOrder(rules: seq<R.Rule>, doctype: string, policy: Policy, user: string, status: string,
                       amount: real, location: string)
    ensures Inv(Start(rules, doctype, policy, user, status, amount, location))
    ensures !DecidedStatus(status) ==> StatusIsDecided(Start(rules, doctype, policy, user, status, amount, location))
  {
    StatusWords();
    OneMoreAct([], Created(user));
    OneMoreAct([Created(user)], Entered);
    assert [] + [Created(user)] == [Created(user)];
  }

  /** Over every interleaving of submissions, saves and decisions, no pending spell of a document is decided twice. */
  lemma NoSpellIsDecidedTwice(rules: seq<R.Rule>, doctype: string, policy: Policy, user: string, status: string,
                              amount: real, location: string, events: seq<Event>)
    ensures OneDecisionPerSpell(Run(Start(rules, doctype, policy, user, status, amount, location), events).history)
  {
    StartIsInOrder(rules, doctype, policy, user, status, amount, location);
    RunKeepsSpell(Start(rules, doctype, policy, user, status, amount, location), events);
  }

  /**
    Over every such run in which log rows are not owed (AllLogged), no decision made while the policy then in force
    asked for a second person is by the creator, by the last one to save, or by anyone who sent or reset the round.
   */
  lemma MakersNeverDecideTheirRound(rules: seq<R.Rule>, doctype: string, policy: Policy, user: string, status: string,
                                    amount: real, location: string, events: seq<Event>)
    requires AllLogged(Start(rules, doctype, policy, user, status, amount, location), events)
    ensures MakersNeverDecide(Run(Start(rules, doctype, policy, user, status, amount, location), events).history)
    ensures var h := Run(Start(rules, doctype, policy, user, status, amount, location), events).history;
            forall i, j :: 0 <= i < j < |h| && h[j].Decided? && h[i] == Created(h[j].user) ==>
              !h[j].policy.alwaysSecond
              && (h[j].policy.setting == "anyone" || (h[j].policy.setting == "admins" && h[j].fullAccess))
  {
    StartIsInOrder(rules, doctype, policy, user, status, amount, location);
    RunKeepsInv(Start(rules, doctype, policy, user, status, amount, location), events);
  }

  /**
    With slabs apart, whoever decides without full access holds the role of the one slab the amount falls into,
    and is at the document's location; an amount outside every slab is for full access alone.
   */
  lemma DeciderHasTheSlabsRole(s: State, user: string, role: string, location: string, approve: bool, comment: string)
    requires R.Disjoint(s.rules) && MayDecide(s, user, role, false, location, approve, comment) && role != ""
    ensures exists r :: r in s.rules && R.Matches(r, s.doctype, s.doc.amount) && r.role == role
                        && forall q :: q in s.rules && R.Matches(q, s.doctype, s.doc.amount) ==> q == r
    ensures s.doc.location == "" || s.doc.location == location
  {
    R.ChosenMatches(s.rules, s.doctype, s.doc.amount);
    var r := R.Chosen(s.rules, s.doctype, s.doc.amount).value;
    R.RequiredRoleIsTheSlabs(s.rules, s.doctype, s.doc.amount, r);
  }

  // ---- where a decided status comes from -------------------------------------------------------------------------

  /** The document is Approved or Rejected exactly when what last changed its status is that decision. */
  ghost predicate StatusIsDecided(s: State)
  {
    var mark := LastMark(s.history);
    && (DecidedStatus(s.doc.status) <==> mark.Some? && mark.value.Decided?)
    && (mark.Some? && mark.value.Decided? ==> (mark.value.approved <==> s.doc.status == APPROVED))
  }

  /** A save under way does not move the row it read into a decided status. */
  ghost predicate SavesChecked(s: State)
  {
    forall j :: j in s.jobs && s.jobs[j].Saving? ==> !WriteRefused(true, s.jobs[j].prior, s.jobs[j].status)
  }

  /** A save that goes through writes over the status it read. */
  ghost predicate Unchanged(s: State, e: Event)
  {
    e.EvNext? && e.job in s.jobs && s.jobs[e.job].Saving? && !Conflict(s, s.jobs[e.job].expected) ==>
      s.doc.status == s.jobs[e.job].prior
  }

  ghost predicate GatedRun(s: State, events: seq<Event>)
    decreases |events|
  {
    events == []
    || (R.IsGated(s.rules, s.doctype) && Unchanged(s, events[0]) && GatedRun(Apply(s, events[0]), events[1..]))
  }

  lemma StatusWords()
    ensures DRAFT != PENDING && PENDING != APPROVED && PENDING != REJECTED && APPROVED != REJECTED && DRAFT != APPROVED && DRAFT != REJECTED
  {
    assert DRAFT[0] == 'D' && PENDING[0] == 'P' && APPROVED[0] == 'A' && REJECTED[0] == 'R';
  }

  lemma MarksAre(h: seq<Act>, a: Act, from: string, to: string)
    requires a.Saved? || a.Submitted? || a.Modified?
    ensures LastMark(h + [a] + Marks(from, to))
            == if to == from then LastMark(h) else if to == PENDING then Some(Entered) else Some(Moved)
  {
    OneMoreAct(h, a);
    if to == from {
      assert h + [a] + Marks(from, to) == h + [a];
    } else {
      OneMoreAct(h + [a], Marks(from, to)[0]);
    }
  }

  /**
    The guard runs on the status a save read; its write looks at the version at most. It leaves a decided status the
    flow's own exactly when it is refused, writes another status, or writes the one the row has at that moment.
   */
  lemma SaveKeepsStatusExactlyWhenUnmoved(s: State, job: nat)
    requires StatusIsDecided(s) && job in s.jobs && s.jobs[job].Saving?
    ensures StatusIsDecided(Next(s, job))
            <==> Conflict(s, s.jobs[job].expected) || !DecidedStatus(s.jobs[job].status) || s.jobs[job].status == s.doc.status
  {
    StatusWords();
    MarksAre(s.history, Saved(s.jobs[job].user), s.doc.status, s.jobs[job].status);
  }

  lemma GatedStepKeepsStatus(s: State, e: Event)
    requires StatusIsDecided(s) && SavesChecked(s) && R.IsGated(s.rules, s.doctype) && Unchanged(s, e)
    ensures StatusIsDecided(Apply(s, e)) && SavesChecked(Apply(s, e))
  {
    StatusWords();
    match e
    case EvNext(job) =>
      if job in s.jobs {
        match s.jobs[job]
        case Submitting(user, _, _, _) => MarksAre(s.history, Submitted(user), s.doc.status, PENDING);
        case Saving(_, _, _, _, _, _, _) => SaveKeepsStatusExactlyWhenUnmoved(s, job);
        case Resetting(user, _, _, _) => MarksAre(s.history, Modified(user), s.doc.status, PENDING);
        case Logging(_, _, _, _) =>
      }
    case EvDecide(user, _, fullAccess, _, approve, _) =>
      OneMoreAct(s.history, Decided(user, approve, s.policy, fullAccess));
    case _ =>
  }

  /** While the type stays gated and saves write over what they read, a decided status is the flow's last word. */
  lemma {:induction false} DecidedOnlyByTheFlow(s: State, events: seq<Event>)
    requires StatusIsDecided(s) && SavesChecked(s) && GatedRun(s, events)
    ensures StatusIsDecided(Run(s, events))
    decreases |events|
  {
    if events != [] {
      GatedStepKeepsStatus(s, events[0]);
      DecidedOnlyByTheFlow(Apply(s, events[0]), events[1..]);
    }
  }

  // ---- what the version check is worth --------------------------------------------------------------------------

  /** Neither a submission's or reset's status write nor a decision: the steps that change the status without a save. */
  ghost predicate OnlySaves(s: State, e: Event)
  {
    && (e.EvNext? && e.job in s.jobs ==> !s.jobs[e.job].Submitting? && !s.jobs[e.job].Resetting?)
    && !e.EvDecide?
  }

  ghost predicate OnlySavesRun(s: State, events: seq<Event>)
    decreases |events|
  {
    events == [] || (OnlySaves(s, events[0]) && OnlySavesRun(Apply(s, events[0]), events[1..]))
  }

  /** Between two moments with the same version and only saves in between the status did not change. */
  lemma {:induction false} SameVersionSameStatus(s: State, events: seq<Event>)
    requires OnlySavesRun(s, events)
    ensures Run(s, events).version >= s.version
    ensures Run(s, events).version == s.version ==> Run(s, events).doc == s.doc
    decreases |events|
  {
    if events != [] { SameVersionSameStatus(Apply(s, events[0]), events[1..]); }
  }

  /** So against other saves a version-checked save is safe: it is refused, or it meets the row it read. */
  lemma VersionGuardsAgainstSaves(s: State, events: seq<Event>, job: nat)
    requires OnlySavesRun(s, events) && job in s.jobs && s.jobs[job].Saving?
    requires s.jobs[job].expected == Some(s.version) && s.jobs[job].prior == s.doc.status
    requires var t := Run(s, events); job in t.jobs && t.jobs[job] == s.jobs[job]
    ensures Unchanged(Run(s, events), EvNext(job))
  {
    SameVersionSameStatus(s, events);
  }

  // ---- runs that fail where the hypotheses do ----------------------------------------------------------------------

  const SLAB := R.Rule(1, "PO", 0.0, None, "Manager")
  const NOBODY := Policy("nobody", false)

  lemma RunStep(s: State, e: Event, rest: seq<Event>)
    ensures Run(s, [e] + rest) == Run(Apply(s, e), rest)
  {
    assert ([e] + rest)[1..] == rest;
  }

  lemma RunOfFour(s: State, a: Event, b: Event, c: Event, d: Event)
    ensures Run(s, [a, b, c, d]) == Apply(Apply(Apply(Apply(s, a), b), c), d)
  {
    RunStep(s, a, [b, c, d]);
    RunStep(Apply(s, a), b, [c, d]);
    RunStep(Apply(Apply(s, a), b), c, [d]);
    RunStep(Apply(Apply(Apply(s, a), b), c), d, []);
    assert [a, b, c, d] == [a] + [b, c, d] && [b, c, d] == [b] + [c, d] && [c, d] == [c] + [d] && [d] == [d] + [];
  }

  /** One slab, from nothing upwards, for managers. */
  lemma SlabIsForManagers(amount: real)
    requires 0.0 <= amount
    ensures R.RequiredRole([SLAB], "PO", amount) == "Manager" && R.IsGated([SLAB], "PO")
  {
    R.ChosenMatches([SLAB], "PO", amount);
    assert R.Matches([SLAB][0], "PO", amount);
    var c := R.Chosen([SLAB], "PO", amount);
    assert c.Some? && c.value == SLAB;
  }

  /**
    Bob sends Ann's draft for approval; his log row is never written; Bob, a manager, approves it, though nobody may
    decide a round of their own.
   */
  lemma SubmitterDecidesWithoutTheLogRow()
    ensures var s := Start([SLAB], "PO", NOBODY, "ann", DRAFT, 5.0, "");
            var t := Run(s, [EvSubmit(0, "bob", "Manager", true), EvNext(0), EvStop(0),
                             EvDecide("bob", "Manager", false, "", true, "")]);
            t.doc.status == APPROVED && !MakersNeverDecide(t.history)
  {
    var s := Start([SLAB], "PO", NOBODY, "ann", DRAFT, 5.0, "");
    var e1, e2, e3, e4 := EvSubmit(0, "bob", "Manager", true), EvNext(0), EvStop(0),
                          EvDecide("bob", "Manager", false, "", true, "");
    RunOfFour(s, e1, e2, e3, e4);
    BobSubmits();
    BobMayDecide(UnloggedOrder());
    BobMadeTheRound();
  }

  /** Pending, with no log row of Bob's submission. */
  ghost function UnloggedOrder(): State
  {
    State([SLAB], "PO", NOBODY, Doc(PENDING, "ann", None, 5.0, ""), 1, [], map[], {"bob"},
          [Created("ann"), Submitted("bob"), Entered])
  }

  lemma BobSubmits()
    ensures var s := Start([SLAB], "PO", NOBODY, "ann", DRAFT, 5.0, "");
            Apply(Apply(Apply(s, EvSubmit(0, "bob", "Manager", true)), EvNext(0)), EvStop(0)) == UnloggedOrder()
  {
    StatusWords();
    SlabIsForManagers(5.0);
    var s1 := Apply(Start([SLAB], "PO", NOBODY, "ann", DRAFT, 5.0, ""), EvSubmit(0, "bob", "Manager", true));
    assert s1.jobs == map[0 := Submitting("bob", "Manager", 5.0, "")];
    assert Apply(s1, EvNext(0)).jobs - {0} == map[];
  }

  lemma BobMadeTheRound()
    ensures !MakersNeverDecide(UnloggedOrder().history + [Decided("bob", true, NOBODY, false)])
  {
    var h := UnloggedOrder().history;
    assert Bars(h[1], "bob") && NoneBetween(h, 1, 3, IsDecision);
    assert !DidNotMakeRound(h, 3, "bob");
    MakersAfter(h, Decided("bob", true, NOBODY, false));
  }

  lemma BobMayDecide(s: State)
    requires s.rules == [SLAB] && s.doctype == "PO" && s.policy == NOBODY
    requires s.doc == Doc(PENDING, "ann", None, 5.0, "") && s.log == []
    ensures MayDecide(s, "bob", "Manager", false, "", true, "")
  {
    SlabIsForManagers(5.0);
  }

  /** A purchase order of Ann's that Sue sent and Bob decided, while a submission of Dave's, begun as early, still waits. */
  ghost function DecidedOrder(approved: bool): State
  {
    State([SLAB], "PO", NOBODY, Doc(if approved then APPROVED else REJECTED, "ann", None, 5.0, ""), 1,
          [LogRow(ActSubmitted, "sue", "Clerk", 5.0, ""),
           LogRow(if approved then ActApproved else ActRejected, "bob", "Manager", 5.0, "no")],
          map[0 := Submitting("dave", "Clerk", 5.0, "")], {},
          [Created("ann"), Submitted("sue"), Entered, Decided("bob", approved, NOBODY, false)])
  }

  /** Before the decision. */
  ghost function SentOrder(): State
  {
    State([SLAB], "PO", NOBODY, Doc(PENDING, "ann", None, 5.0, ""), 1, [LogRow(ActSubmitted, "sue", "Clerk", 5.0, "")],
          map[0 := Submitting("dave", "Clerk", 5.0, "")], {}, [Created("ann"), Submitted("sue"), Entered])
  }

  lemma SentOrderIsReached()
    ensures Run(Start([SLAB], "PO", NOBODY, "ann", DRAFT, 5.0, ""),
                [EvSubmit(0, "dave", "Clerk", true), EvSubmit(1, "sue", "Clerk", true), EvNext(1), EvNext(1)]) == SentOrder()
  {
    var s := Start([SLAB], "PO", NOBODY, "ann", DRAFT, 5.0, "");
    var e1, e2 := EvSubmit(0, "dave", "Clerk", true), EvSubmit(1, "sue", "Clerk", true);
    StatusWords();
    SlabIsForManagers(5.0);
    RunOfFour(s, e1, e2, EvNext(1), EvNext(1));
    var s3 := Apply(Apply(Apply(s, e1), e2), EvNext(1));
    assert s3.jobs[1] == Logging(false, "sue", "Clerk", 5.0) && s3.history == [Created("ann"), Submitted("sue"), Entered];
    assert s3.jobs - {1} == map[0 := Submitting("dave", "Clerk", 5.0, "")];
  }

  lemma DecidedOrderIsReached(approved: bool)
    ensures Apply(SentOrder(), EvDecide("bob", "Manager", false, "", approved, "no")) == DecidedOrder(approved)
  {
    ManagerMayDecide(SentOrder(), "bob", approved);
    assert "ann"[0] == 'a' && "bob"[0] == 'b';
  }

  /** Bob and Eve are managers who made nothing. */
  lemma ManagerMayDecide(s: State, user: string, approve: bool)
    requires s.rules == [SLAB] && s.doctype == "PO" && s.policy == NOBODY && user in {"bob", "eve"}
    requires s.doc == Doc(PENDING, "ann", None, 5.0, "")
    requires s.log != [] && s.log[0].user == "sue"
    requires |s.log| == 1 || (|s.log| == 2 && s.log[1].action.ActRejected?)
    ensures MayDecide(s, user, "Manager", false, "", approve, "no")
  {
    SlabIsForManagers(5.0);
    assert Trim("no") == "no";
    assert "bob"[0] == 'b' && "eve"[0] == 'e' && "sue"[0] == 's' && "ann"[0] == 'a';
  }

  /**
    Dave's edit of the approved order has saved the row and is about to send it back. Carol reads version and status,
    the reset goes through, and Carol's save, at the version she read, writes Approved again until her own reset.
   */
  lemma StaleSaveApproves()
    ensures var s := Run(DecidedOrder(true), [EvSave(1, "dave", "Clerk", APPROVED, 9.0, "", None), EvNext(1),
                                              EvSave(2, "carol", "Clerk", APPROVED, 5.0, "", Some(2)), EvNext(1)]);
            var t := Apply(s, EvNext(2));
            && s.doc.status == PENDING && s.version == 2
            && t.doc.status == APPROVED && !StatusIsDecided(t) && t.jobs[2 := Resetting("carol", "Clerk", 5.0, "")] == t.jobs
  {
    var a := DecidedOrder(true);
    StatusWords();
    SlabIsForManagers(5.0);
    var e1, e3 := EvSave(1, "dave", "Clerk", APPROVED, 9.0, "", None), EvSave(2, "carol", "Clerk", APPROVED, 5.0, "", Some(2));
    RunOfFour(a, e1, EvNext(1), e3, EvNext(1));
    var s1 := Apply(a, e1);
    assert s1.jobs[1] == Saving("dave", "Clerk", APPROVED, 9.0, "", None, APPROVED);
    var s2 := Apply(s1, EvNext(1));
    assert s2.jobs[1] == Resetting("dave", "Clerk", 9.0, "") && s2.version == 2 && s2.doc.status == APPROVED;
    var s3 := Apply(s2, e3);
    assert s3.jobs[2] == Saving("carol", "Clerk", APPROVED, 5.0, "", Some(2), APPROVED) && s3.jobs[1] == s2.jobs[1];
    var s4 := Apply(s3, EvNext(1));
    assert s4.doc.status == PENDING && s4.version == 2 && s4.jobs[2] == s3.jobs[2];
    MarksAre(s3.history, Modified("dave"), s3.doc.status, PENDING);
    MarksAre(s4.history, Saved("carol"), PENDING, APPROVED);
  }

  /**
    Carol's save has read the rejected order, with its version; Dave's submission, which had read it as a draft, writes
    Pending, and Eve approves. Carol's save then writes Rejected over the approval, for good.
   */
  lemma StaleSaveRejectsForGood()
    ensures var t := Run(DecidedOrder(false), [EvSave(1, "carol", "Clerk", REJECTED, 5.0, "", Some(1)), EvNext(0),
                                               EvDecide("eve", "Manager", false, "", true, "no"), EvNext(1)]);
            t.doc.status == REJECTED && !StatusIsDecided(t) && 1 !in t.jobs
  {
    var s := DecidedOrder(false);
    StatusWords();
    var e1, e3 := EvSave(1, "carol", "Clerk", REJECTED, 5.0, "", Some(1)), EvDecide("eve", "Manager", false, "", true, "no");
    RunOfFour(s, e1, EvNext(0), e3, EvNext(1));
    var s1 := Apply(s, e1);
    assert s1.jobs[1] == Saving("carol", "Clerk", REJECTED, 5.0, "", Some(1), REJECTED) && s1.jobs[0] == s.jobs[0];
    var s2 := Apply(s1, EvNext(0));
    assert s2.doc == Doc(PENDING, "ann", None, 5.0, "") && s2.version == 1 && s2.log == s.log;
    ManagerMayDecide(s2, "eve", true);
    var s3 := Apply(s2, e3);
    assert s3.doc.status == APPROVED && s3.version == 1 && s3.jobs[1] == s1.jobs[1];
    MarksAre(s3.history, Saved("carol"), APPROVED, REJECTED);
  }
}
