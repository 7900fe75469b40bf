/** One document's row, log and settings as the engine changes them, one call at a time. */
module ApprovalDesk {
  import opened Text
  import opened Approvals
  import opened ApprovalTheorems
  import R = ApprovalRules

  datatype Refusal = CommentMissing | NotPending | MakerChecker(created: bool) | RoleMismatch(required: string) | OtherLocation

  /**
    What a decision is answered, in the words of the policy, the row and the log: the refusals in their order, none
    when it goes through.
   */
  ghost function RefusalOf(s: State, user: string, role: string, fullAccess: bool, location: string, approve: bool,
                           comment: string): Option<Refusal>
  {
    if !approve && Trim(comment) == "" then Some(CommentMissing)
    else if s.doc.status != "Pending Approval" then Some(NotPending)
    else if NeedsSecond(s.policy, fullAccess) && MadeIt(s.doc, s.log, user) then Some(MakerChecker(user == s.doc.createdBy))
    else if !fullAccess && role != R.RequiredRole(s.rules, s.doctype, s.doc.amount)
    then Some(RoleMismatch(R.RequiredRole(s.rules, s.doctype, s.doc.amount)))
    else if !fullAccess && s.doc.location != "" && s.doc.location != location then Some(OtherLocation)
    else None
  }

  lemma UngatedEdit(s: State, job: nat, writes: nat)
    requires job in s.jobs && s.jobs[job].Resetting? && !R.IsGated(s.rules, s.doctype)
    ensures Rest(s, job, writes) == s.(jobs := s.jobs - {job})
  {
    if writes > 0 {
      var t := Apply(s, EvNext(job));
      assert Rest(s, job, writes) == Rest(t, job, writes - 1) == t;
    }
  }

  class Desk {
    var rules: seq<R.Rule>
    var policy: Policy
    var doc: Doc
    var version: nat
    var log: seq<LogRow>
    const doctype: string
    ghost var jobs: map<nat, Job>
    ghost var owed: set<string>
    ghost var history: seq<Act>

    ghost function View(): State
      reads this
    {
      State(rules, doctype, policy, doc, version, log, jobs, owed, history)
    }

    constructor (rules: seq<R.Rule>, doctype: string, policy: Policy, user: string, status: string, amount: real, location: string)
      ensures View() == Start(rules, doctype, policy, user, status, amount, location) && Inv(View())
    {
      this.rules, this.policy, this.doctype := rules, policy, doctype;
      doc := Doc(status, user, None, amount, location);
      version, log := 1, [];
      jobs, owed, history := map[], {}, [Created(user)] + if status == PENDING then [Entered] else [];
      new;
      StartIsInOrder(rules, doctype, policy, user, status, amount, location);
    }

    /** The EXISTS over the log rows after the last decision. */
    static method SentSinceDecision(log: seq<LogRow>, user: string) returns (made: bool)
      ensures made <==> exists i :: SinceDecision(log) <= i < |log| && SentRound(log[i], user)
    {
      var i := |log|;
      while i > 0
        invariant SinceDecision(log) <= i <= |log|
        invariant forall k :: i <= k < |log| ==> !SentRound(log[k], user)
      {
        var row := log[i - 1];
        if row.action.ActApproved? || row.action.ActRejected? { return false; }
        if SentRound(row, user) { return true; }
        i := i - 1;
      }
      made := false;
    }

    /** The status and the data in one statement, the log row in the next; writes of them go through. */
    method WritePendingThenLog(reset: bool, user: string, role: string, amount: real, location: string,
                               writes: nat, ghost job: nat)
      returns (ok: bool)
      requires job in jobs
      requires jobs[job] == (if reset then Resetting(user, role, amount, location) else Submitting(user, role, amount, location))
      requires reset ==> R.IsGated(rules, doctype)
      modifies this`doc, this`log, this`jobs, this`owed, this`history
      ensures View() == Rest(old(View()), job, writes) && ok == (writes >= 2)
      ensures doc == if writes == 0 then old(doc) else old(doc).(status := PENDING, amount := amount, location := location)
      ensures log == if ok then old(log) + [RoundRow(reset, user, role, amount)] else old(log)
    {
      ghost var s := View();
      if writes == 0 {
        jobs := jobs - {job};
        return false;
      }
      history := history + [if reset then Modified(user) else Submitted(user)] + Marks(doc.status, PENDING);
      doc := doc.(status := PENDING, amount := amount, location := location);
      owed := owed + {user};
      jobs := jobs[job := Logging(reset, user, role, amount)];
      ghost var s1 := View();
      assert s1 == Apply(s, EvNext(job)) && Rest(s, job, writes) == Rest(s1, job, writes - 1);
      if writes == 1 {
        jobs := jobs - {job};
        return false;
      }
      log := log + [RoundRow(reset, user, role, amount)];
      owed, jobs := owed - {user}, jobs - {job};
      assert View() == Apply(s1, EvNext(job)) && Rest(s1, job, writes - 1) == Rest(View(), job, writes - 2);
      ok := true;
    }

    /** writes: how many of its two writes go through. */
    method SubmitForApproval(user: string, role: string, checksPass: bool, writes: nat, ghost job: nat) returns (ok: bool)
      requires job !in jobs
      modifies this
      ensures View() == Rest(Apply(old(View()), EvSubmit(job, user, role, checksPass)), job, writes)
      ensures ok <==> old(doc).status == "Draft" && checksPass && writes >= 2
                      && R.RequiredRole(rules, doctype, old(doc).amount) != ""
      ensures ok ==> doc == old(doc).(status := "Pending Approval") && |log| == |old(log)| + 1 && log[..|old(log)|] == old(log)
                     && log[|old(log)|].user == user && log[|old(log)|].action == ActSubmitted
      ensures old(Inv(View())) ==> Inv(View())
    {
      ghost var s := View();
      ghost var begun := Apply(s, EvSubmit(job, user, role, checksPass));
      if Inv(s) { RestKeepsInv(begun, job, writes); }
      if doc.status != DRAFT || !checksPass { return false; }
      if R.RequiredRole(rules, doctype, doc.amount) == "" { return false; }
      jobs := jobs[job := Submitting(user, role, doc.amount, doc.location)];
      ok := WritePendingThenLog(false, user, role, doc.amount, doc.location, writes, job);
    }

    /** The checks of a decision, in their order, on the locked row. */
    method CheckDecision(user: string, role: string, fullAccess: bool, location: string, approve: bool, comment: string)
      returns (refusal: Option<Refusal>)
      ensures refusal == RefusalOf(View(), user, role, fullAccess, location, approve, comment)
      ensures refusal.None? <==> MayDecide(View(), user, role, fullAccess, location, approve, comment)
    {
      MakerMadeIt(doc, log, user);
      if !approve && Trim(comment) == "" { return Some(CommentMissing); }
      if doc.status != PENDING { return Some(NotPending); }
      var selfDecision := user == doc.createdBy;
      var maker := selfDecision;
      var mayDecideOwn := MayDecideOwn(policy, fullAccess);
      if !maker && !mayDecideOwn {
        var sent := SentSinceDecision(log, user);
        maker := sent || (match doc.updatedBy case Some(u) => u == user case None => user == "");
      }
      if maker && !mayDecideOwn { return Some(MakerChecker(selfDecision)); }
      var required := R.RequiredRole(rules, doctype, doc.amount);
      if !fullAccess && role != required { return Some(RoleMismatch(required)); }
      if !fullAccess && doc.location != "" && doc.location != location { return Some(OtherLocation); }
      refusal := None;
    }

    method DecideApproval(user: string, role: string, fullAccess: bool, location: string, approve: bool, comment: string)
      returns (refusal: Option<Refusal>)
      modifies this
      ensures View() == Decide(old(View()), user, role, fullAccess, location, approve, comment)
      ensures refusal.None? <==> MayDecide(old(View()), user, role, fullAccess, location, approve, comment)
      ensures refusal == RefusalOf(old(View()), user, role, fullAccess, location, approve, comment)
      ensures policy == old(policy) && rules == old(rules) && version == old(version)
      ensures refusal.Some? ==> doc == old(doc) && log == old(log)
      ensures refusal.None? ==>
                && doc == old(doc).(status := if approve then "Approved" else "Rejected")
                && |log| == |old(log)| + 1 && log[..|old(log)|] == old(log) && log[|old(log)|].user == user
                && log[|old(log)|].role == role && log[|old(log)|].amount == doc.amount
                && log[|old(log)|].action == (if approve then ActApproved else ActRejected)
      ensures old(Inv(View()) && Logged(View(), EvDecide(user, role, fullAccess, location, approve, comment))) ==> Inv(View())
    {
      ghost var s := View();
      if Inv(s) && MayDecide(s, user, role, fullAccess, location, approve, comment) {
        DecideKeepsInvExactlyWhenLogged(s, user, role, fullAccess, location, approve, comment);
      }
      refusal := CheckDecision(user, role, fullAccess, location, approve, comment);
      if refusal.Some? { return; }
      var note := if user == doc.createdBy then Trim("[decided by the submitter] " + comment) else comment;
      doc := doc.(status := if approve then APPROVED else REJECTED);
      log := log + [LogRow(if approve then ActApproved else ActRejected, user, role, doc.amount, note)];
      owed, history := {}, s.history + [Decided(user, approve, policy, fullAccess)];
    }

    /** writes: how many of its writes go through: the row, and for an approved document the reset's two. */
    method SaveDocument(user: string, role: string, status: string, amount: real, location: string, expected: Option<nat>,
                        writes: nat, ghost job: nat)
      returns (ok: bool)
      requires job !in jobs
      modifies this
      ensures View() == Rest(Apply(old(View()), EvSave(job, user, role, status, amount, location, expected)), job, writes)
      ensures ok <==> writes >= 1 && (expected.Some? ==> expected.value == old(version))
                      && !(R.HasRule(rules, doctype) && status != old(doc).status
                           && (status == "Approved" || status == "Rejected"))
      ensures ok && writes >= 2 ==>
                var sentBack := old(doc).status == "Approved" && R.HasRule(rules, doctype);
                doc == Doc(if sentBack then "Pending Approval" else status, doc.createdBy, Some(user), amount, location)
      ensures !ok ==> doc == old(doc) && log == old(log) && version == old(version)
      ensures old(Inv(View())) ==> Inv(View())
    {
      ghost var s := View();
      ghost var begun := Apply(s, EvSave(job, user, role, status, amount, location, expected));
      if Inv(s) { RestKeepsInv(begun, job, writes); }
      var gated := R.IsGated(rules, doctype);
      R.GatedHasARule(rules, doctype);
      var prior := doc.status;
      if DecidedStatus(status) && status != prior && gated { return false; }
      jobs := jobs[job := Saving(user, role, status, amount, location, expected, prior)];
      if writes == 0 {
        jobs := jobs - {job};
        return false;
      }
      ok := WriteRow(user, role, status, amount, location, expected, prior, job);
      ghost var saved := View();
      assert Rest(begun, job, writes) == Rest(saved, job, writes - 1);
      if ok && prior == APPROVED { SendBackIfGated(user, role, amount, location, writes - 1, job); }
    }

    /** An approved document's save goes on to its reset, when its type is gated. */
    method SendBackIfGated(user: string, role: string, amount: real, location: string, writes: nat, ghost job: nat)
      requires job in jobs && jobs[job] == Resetting(user, role, amount, location)
      modifies this`doc, this`log, this`jobs, this`owed, this`history
      ensures View() == Rest(old(View()), job, writes)
      ensures doc == if R.IsGated(rules, doctype) && writes >= 1
                     then old(doc).(status := PENDING, amount := amount, location := location) else old(doc)
    {
      if R.IsGated(rules, doctype) {
        var sentBack := WritePendingThenLog(true, user, role, amount, location, writes, job);
      } else {
        UngatedEdit(View(), job, writes);
        jobs := jobs - {job};
      }
    }

    /** The save's own statement: nothing when the version moved on. */
    method WriteRow(user: string, role: string, status: string, amount: real, location: string, expected: Option<nat>,
                    prior: string, ghost job: nat)
      returns (ok: bool)
      requires job in jobs && jobs[job] == Saving(user, role, status, amount, location, expected, prior)
      modifies this`doc, this`version, this`history, this`jobs
      ensures View() == Next(old(View()), job) && ok == !Conflict(old(View()), expected)
      ensures ok ==> doc == old(doc).(status := status, updatedBy := Some(user), amount := amount, location := location)
      ensures !ok ==> doc == old(doc) && version == old(version)
    {
      if expected.Some? && expected.value != version {
        jobs := jobs - {job};
        return false;
      }
      history := history + [Saved(user)] + Marks(doc.status, status);
      doc := doc.(status := status, updatedBy := Some(user), amount := amount, location := location);
      version := version + 1;
      jobs := if prior == APPROVED then jobs[job := Resetting(user, role, amount, location)] else jobs - {job};
      ok := true;
    }

    /** Called alone: the document becomes pending again and the log says who changed it. */
    method ResetToPendingOnEdit(user: string, role: string, amount: real, location: string, writes: nat, ghost job: nat)
      returns (ok: bool)
      requires job in jobs && jobs[job] == Resetting(user, role, amount, location) && R.IsGated(rules, doctype)
      modifies this
      ensures View() == Rest(old(View()), job, writes) && ok == (writes >= 2)
      ensures old(Inv(View())) ==> Inv(View())
    {
      ghost var s := View();
      if Inv(s) { RestKeepsInv(s, job, writes); }
      ok := WritePendingThenLog(true, user, role, amount, location, writes, job);
    }
  }
}
