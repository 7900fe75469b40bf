/**
  The maker-checker flow of one document (engines/approval.go; the save path of
  internal/server/handlers_core_doc_engine.go). Its check reads the row's last editor and its own log; what it
  must keep is stated over the document's history. Only a decision locks the row: a submission and a save read it,
  write it and write the log in statements of their own, so any number of them may be under way at once and each
  may stop after any statement.
 */
module Approvals {
  import opened Text
  import R = ApprovalRules

  datatype Action = ActSubmitted | ActApproved | ActRejected | ActModified

  /** approval_log; a row's id is its position. */
  datatype LogRow = LogRow(action: Action, user: string, role: string, amount: real, comment: string)

  datatype Doc = Doc(status: string, createdBy: string, updatedBy: Option<string>, amount: real, location: string)

  /** approvals.self_approval and the lists of record types that never allow it. */
  datatype Policy = Policy(setting: string, alwaysSecond: bool)

  /** What really happened to the document, in order. */
  datatype Act =
    | Created(user: string)
    | Saved(user: string)
    | Submitted(user: string)
    | Modified(user: string)
    | Entered                                         // it became Pending Approval
    | Moved                                           // a save gave it another status
    | Decided(user: string, approved: bool, policy: Policy, fullAccess: bool)   // under the policy then in force

  /** A submission or save under way, by what its next statement does. */
  datatype Job =
    | Submitting(user: string, role: string, amount: real, location: string)    // write the status
    | Saving(user: string, role: string, status: string, amount: real, location: string, expected: Option<nat>, prior: string)
                                                                                // write the row
    | Resetting(user: string, role: string, amount: real, location: string)     // send an approved document back
    | Logging(reset: bool, user: string, role: string, amount: real)            // write the log row

  /**
    version: the row's save counter. jobs: the calls under way. owed: the users whose submission or reset since the
    last decision has written its status but not its log row, and may never do so.
   */
  datatype State = State(rules: seq<R.Rule>, doctype: string, policy: Policy, doc: Doc, version: nat, log: seq<LogRow>,
                         jobs: map<nat, Job>, owed: set<string>, history: seq<Act>)

  const DRAFT := "Draft"
  const PENDING := "Pending Approval"
  const APPROVED := "Approved"
  const REJECTED := "Rejected"

  predicate DecidedStatus(status: string) { status == APPROVED || status == REJECTED }

  // ---- who may decide ---------------------------------------------------------------------------

  /** SubmitterMayDecideOwn. */
  predicate MayDecideOwn(p: Policy, fullAccess: bool)
  {
    !p.alwaysSecond && (p.setting == "anyone" || (p.setting == "admins" && fullAccess))
  }

  /** The number of rows up to and including the last decision: COALESCE(MAX(id), 0). */
  function SinceDecision(log: seq<LogRow>): (n: nat)
    ensures n <= |log|
    ensures forall i :: n <= i < |log| ==> !(log[i].action.ActApproved? || log[i].action.ActRejected?)
    ensures n > 0 ==> log[n - 1].action.ActApproved? || log[n - 1].action.ActRejected?
  {
    if log == [] then 0
    else if log[|log| - 1].action.ActApproved? || log[|log| - 1].action.ActRejected? then |log|
    else SinceDecision(log[..|log| - 1])
  }

  predicate SentRound(row: LogRow, user: string)
  {
    row.user == user && (row.action.ActSubmitted? || row.action.ActModified?)
  }

  /** madeApprovalRound. */
  predicate MadeRound(doc: Doc, log: seq<LogRow>, user: string)
  {
    || (match doc.updatedBy case Some(u) => u == user case None => user == "")
    || exists i :: SinceDecision(log) <= i < |log| && SentRound(log[i], user)
  }

  /** The maker-checker test of DecideApproval. */
  predicate IsMaker(doc: Doc, log: seq<LogRow>, user: string, mayOwn: bool)
  {
    user == doc.createdBy || (!mayOwn && MadeRound(doc, log, user))
  }

  /** Everything DecideApproval checks on the locked row. */
  predicate MayDecide(s: State, user: string, role: string, fullAccess: bool, location: string, approve: bool, comment: string)
  {
    var mayOwn := MayDecideOwn(s.policy, fullAccess);
    && (approve || Trim(comment) != "")
    && s.doc.status == PENDING
    && !(IsMaker(s.doc, s.log, user, mayOwn) && !mayOwn)
    && (fullAccess || role == R.RequiredRole(s.rules, s.doctype, s.doc.amount))
    && (fullAccess || s.doc.location == "" || s.doc.location == location)
  }

  function DecisionComment(doc: Doc, user: string, comment: string): string
  {
    if user == doc.createdBy then Trim("[decided by the submitter] " + comment) else comment
  }

  // ---- the steps --------------------------------------------------------------------------------------

  /** One transaction under the row lock. */
  function Decide(s: State, user: string, role: string, fullAccess: bool, location: string, approve: bool, comment: string): State
  {
    if !MayDecide(s, user, role, fullAccess, location, approve, comment) then s
    else
      var row := LogRow(if approve then ActApproved else ActRejected, user, role, s.doc.amount,
                        DecisionComment(s.doc, user, comment));
      s.(doc := s.doc.(status := if approve then APPROVED else REJECTED), log := s.log + [row], owed := {},
         history := s.history + [Decided(user, approve, s.policy, fullAccess)])
  }

  predicate MaySubmit(s: State, checksPass: bool)
  {
    s.doc.status == DRAFT && checksPass && R.RequiredRole(s.rules, s.doctype, s.doc.amount) != ""
  }

  /** decidedStatusWriteError. */
  predicate WriteRefused(gated: bool, prior: string, status: string)
  {
    gated && status != prior && DecidedStatus(status)
  }

  /** What a change of status from one to another adds to the history. */
  function Marks(from: string, to: string): seq<Act>
  {
    if to == from then [] else if to == PENDING then [Entered] else [Moved]
  }

  /** A caller may send the version it read; only a save's own write counts it up. */
  predicate Conflict(s: State, expected: Option<nat>) { expected.Some? && expected.value != s.version }

  /** setDocumentStatus to Pending Approval: status and data as the caller read or sent them, whatever the row holds now. */
  function WritePending(s: State, job: nat, reset: bool, user: string, role: string, amount: real, location: string): State
  {
    s.(doc := s.doc.(status := PENDING, amount := amount, location := location),
       jobs := s.jobs[job := Logging(reset, user, role, amount)], owed := s.owed + {user},
       history := s.history + [if reset then Modified(user) else Submitted(user)] + Marks(s.doc.status, PENDING))
  }

  /** The log row of a submission, or of an approved document's reset. */
  function RoundRow(reset: bool, user: string, role: string, amount: real): LogRow
  {
    if reset then LogRow(ActModified, user, role, amount, "Reset to Pending Approval after edit")
    else LogRow(ActSubmitted, user, role, amount, "")
  }

  /** The next statement of a call goes through. */
  function Next(s: State, job: nat): State
    requires job in s.jobs
  {
    match s.jobs[job]
    case Submitting(user, role, amount, location) => WritePending(s, job, false, user, role, amount, location)
    case Saving(user, role, status, amount, location, expected, prior) =>
      if Conflict(s, expected) then s.(jobs := s.jobs - {job})
      else s.(doc := s.doc.(status := status, updatedBy := Some(user), amount := amount, location := location),
         version := s.version + 1,
         jobs := if prior == APPROVED then s.jobs[job := Resetting(user, role, amount, location)] else s.jobs - {job},
         history := s.history + [Saved(user)] + Marks(s.doc.status, status))
    case Resetting(user, role, amount, location) =>
      if !R.IsGated(s.rules, s.doctype) then s.(jobs := s.jobs - {job})
      else WritePending(s, job, true, user, role, amount, location)
    case Logging(reset, user, role, amount) =>
      s.(log := s.log + [RoundRow(reset, user, role, amount)], owed := s.owed - {user}, jobs := s.jobs - {job})
  }

  datatype Event =
    | EvSubmit(job: nat, user: string, role: string, checksPass: bool)        // its read and its checks
    | EvSave(job: nat, user: string, role: string, status: string, amount: real, location: string, expected: Option<nat>)
    | EvNext(job: nat)
    | EvStop(job: nat)                                                        // its next statement fails, or it dies
    | EvDecide(user: string, role: string, fullAccess: bool, location: string, approve: bool, comment: string)
    | EvRules(rules: seq<R.Rule>)
    | EvPolicy(policy: Policy)

  function Apply(s: State, e: Event): State
  {
    match e
    case EvSubmit(job, user, role, checksPass) =>
      if job in s.jobs || !MaySubmit(s, checksPass) then s
      else s.(jobs := s.jobs[job := Submitting(user, role, s.doc.amount, s.doc.location)])
    case EvSave(job, user, role, status, amount, location, expected) =>
      if job in s.jobs || WriteRefused(R.IsGated(s.rules, s.doctype), s.doc.status, status) then s
      else s.(jobs := s.jobs[job := Saving(user, role, status, amount, location, expected, s.doc.status)])
    case EvNext(job) => if job in s.jobs then Next(s, job) else s
    case EvStop(job) => s.(jobs := s.jobs - {job})
    case EvDecide(user, role, fullAccess, location, approve, comment) => Decide(s, user, role, fullAccess, location, approve, comment)
    case EvRules(rules) => s.(rules := rules)
    case EvPolicy(policy) => s.(policy := policy)
  }

  function Run(s: State, events: seq<Event>): State
    decreases |events|
  {
    if events == [] then s else Run(Apply(s, events[0]), events[1..])
  }

  /** A call that nothing interleaves with, stopped after so many of its writes. */
  function Rest(s: State, job: nat, writes: nat): State
    decreases writes
  {
    if job !in s.jobs then s
    else if writes == 0 then Apply(s, EvStop(job))
    else Rest(Apply(s, EvNext(job)), job, writes - 1)
  }

  /** A new document, created under whatever status the save said. */
  function Start(rules: seq<R.Rule>, doctype: string, policy: Policy, user: string, status: string, amount: real, location: string): State
  {
    State(rules, doctype, policy, Doc(status, user, None, amount, location), 1, [], map[], {},
          [Created(user)] + if status == PENDING then [Entered] else [])
  }
}
