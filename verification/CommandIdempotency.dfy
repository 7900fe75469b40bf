/**
  Command claims and the economic command spine (engines/command_idempotency.go,
  engines/command_spine.go). A claim row is taken before a mutation and completed in the
  mutation's own transaction; every statement or transaction is one atomic step.
 */
module CommandIdempotency {
  import opened Text

  const LEASE_SECONDS := 120
  const RETENTION_SECONDS := 7 * 86400

  datatype Status = InProgress | Completed | Failed

  /** One command_idempotency row; response "" is NULL, completedAt None is NULL. */
  datatype Claim = Claim(digest: string, status: Status, response: string, documentId: string, claimedAt: int,
                         leaseExpiresAt: int, completedAt: Option<int>)

  type Table = map<string, Claim>

  datatype Outcome = Acquired | Replay(response: string) | Busy | PayloadMismatch | RetryAfterFailure

  // ---- statements on the claim table ------------------------------------------------

  function Lease(now: int): int { now + LEASE_SECONDS }

  /** ClaimCommand: the insert is the lock; an existing row is inspected under its row lock. */
  function ClaimStep(t: Table, key: string, digest: string, now: int): (Table, Outcome)
  {
    if key !in t then (t[key := Claim(digest, InProgress, "", "", now, Lease(now), None)], Acquired)
    else
      var row := t[key];
      if row.digest != digest then (t, PayloadMismatch)
      else match row.status
        case Completed => (t, Replay(row.response))
        case Failed =>
          (t[key := row.(status := InProgress, claimedAt := now, completedAt := None, leaseExpiresAt := Lease(now))],
           RetryAfterFailure)
        case InProgress =>
          if now <= row.leaseExpiresAt then (t, Busy)
          else (t[key := row.(claimedAt := now, leaseExpiresAt := Lease(now))], Acquired)
  }

  /** CompleteCommandTx: an update by key, whatever the row's status; no row, no effect. */
  function CompleteStep(t: Table, key: string, documentId: string, response: string, now: int): Table
  {
    if key !in t then t
    else t[key := t[key].(status := Completed, response := response, documentId := documentId, completedAt := Some(now))]
  }

  function FailStep(t: Table, key: string, reason: string, now: int): Table
  {
    if key in t && t[key].status == InProgress
    then t[key := t[key].(status := Failed, completedAt := Some(now), response := reason)]
    else t
  }

  function ReleaseStep(t: Table, key: string): Table
  {
    if key in t && t[key].status == InProgress then t - {key} else t
  }

  predicate Purgeable(row: Claim, now: int)
  {
    row.status != InProgress && row.completedAt.Some? && row.completedAt.value < now - RETENTION_SECONDS
  }

  function PurgeStep(t: Table, now: int): Table
  {
    map k | k in t && !Purgeable(t[k], now) :: t[k]
  }

  /**
    What a claim of an existing row may be answered, said of the row: a different payload is told so and nothing else;
    the same one gets the recorded response, waits for a live lease, or takes the row over.
   */
  ghost predicate AnswersExisting(row: Claim, digest: string, now: int, outcome: Outcome, after: Claim)
  {
    && after.digest == row.digest
    && (row.digest != digest ==> outcome == PayloadMismatch && after == row)
    && (row.digest == digest && row.status == Completed ==> outcome == Replay(row.response) && after == row)
    && (row.digest == digest && row.status == InProgress && now <= row.leaseExpiresAt ==> outcome == Busy && after == row)
    && (row.digest == digest && row.status == InProgress && now > row.leaseExpiresAt ==>
          outcome == Acquired && after == row.(claimedAt := now, leaseExpiresAt := now + 120))
    && (row.digest == digest && row.status == Failed ==>
          && outcome == RetryAfterFailure
          && after == row.(status := InProgress, claimedAt := now, completedAt := None, leaseExpiresAt := now + 120))
  }

  // ---- many clients -----------------------------------------------------------------------

  /** A request that owns a claim: about to run its transaction, or about to report failure. */
  datatype Phase = Running | Failing

  datatype Holder = Holder(key: string, phase: Phase)

  /**
    commits lists the responses of the mutations a key has committed since its row was last purged;
    owner is the request the row was last handed to. Neither exists in the database.
   */
  datatype State = State(table: Table, now: int, holders: map<nat, Holder>, owner: map<string, nat>,
                         commits: map<string, seq<string>>)

  datatype Event =
    | EvTick(seconds: nat)
    | EvClaim(client: nat, key: string, digest: string)
    | EvCommit(client: nat, documentId: string, response: string, reported: bool)  // reported = false: commit says error
    | EvRollback(client: nat)
    | EvFail(client: nat, reason: string)
    | EvRelease(client: nat)
    | EvCrash(client: nat)
    | EvPurge

  function Commits(s: State, key: string): seq<string> { if key in s.commits then s.commits[key] else [] }

  function Apply(s: State, e: Event): State
  {
    match e
    case EvTick(seconds) => s.(now := s.now + seconds)
    case EvClaim(c, key, digest) =>
      if c in s.holders then s
      else
        var (t, outcome) := ClaimStep(s.table, key, digest, s.now);
        if outcome.Acquired? || outcome.RetryAfterFailure?
        then s.(table := t, holders := s.holders[c := Holder(key, Running)], owner := s.owner[key := c])
        else s.(table := t)
    case EvCommit(c, doc, response, reported) =>
      if c !in s.holders || s.holders[c].phase != Running then s
      else
        var key := s.holders[c].key;
        s.(table := CompleteStep(s.table, key, doc, response, s.now),
           commits := s.commits[key := Commits(s, key) + [response]],
           holders := if reported then s.holders - {c} else s.holders[c := Holder(key, Failing)])
    case EvRollback(c) =>
      if c !in s.holders then s else s.(holders := s.holders[c := s.holders[c].(phase := Failing)])
    case EvFail(c, reason) =>
      if c !in s.holders || s.holders[c].phase != Failing then s
      else s.(table := FailStep(s.table, s.holders[c].key, reason, s.now), holders := s.holders - {c})
    case EvRelease(c) =>
      if c !in s.holders || s.holders[c].phase != Running then s
      else s.(table := ReleaseStep(s.table, s.holders[c].key), holders := s.holders - {c})
    case EvCrash(c) => s.(holders := s.holders - {c})
    case EvPurge =>
      s.(table := PurgeStep(s.table, s.now),
         commits := map k | k in s.commits && (k in s.table ==> !Purgeable(s.table[k], s.now)) :: s.commits[k])
  }

  function Run(s: State, events: seq<Event>): State
    decreases |events|
  {
    if events == [] then s else Run(Apply(s, events[0]), events[1..])
  }

  // ---- at most once -------------------------------------------------------------------------

  ghost predicate KeyConsistent(s: State, key: string)
  {
    && |Commits(s, key)| <= 1
    && (|Commits(s, key)| == 1 <==> key in s.table && s.table[key].status == Completed)
    && (|Commits(s, key)| == 1 ==> s.table[key].response == Commits(s, key)[0] && s.table[key].completedAt.Some?)
  }

  /** Each key's mutation committed at most once since its last purge, and its row says so. */
  ghost predicate Consistent(s: State)
  {
    forall key :: KeyConsistent(s, key)
  }

  /** What a commit would have to check: its claim row is there and not already Completed. */
  predicate ClaimStillOpen(s: State, e: Event)
  {
    e.EvCommit? && e.client in s.holders && s.holders[e.client].phase == Running ==>
      var key := s.holders[e.client].key;
      key in s.table && s.table[key].status != Completed
  }

  /** Every step but a commit keeps at-most-once unconditionally. */
  lemma OtherStepsKeepConsistent(s: State, e: Event)
    requires Consistent(s) && !e.EvCommit?
    ensures Consistent(Apply(s, e))
  {
    var t := Apply(s, e);
    forall key ensures KeyConsistent(t, key) {
      assert KeyConsistent(s, key);
    }
  }

  /**
    A commit keeps at-most-once exactly when it finds its claim row present and not Completed: the
    statement that completes the claim does not check this itself.
   */
  lemma CommitKeepsConsistentExactlyWhenOpen(s: State, e: Event)
    requires Consistent(s) && e.EvCommit?
    ensures Consistent(Apply(s, e)) <==> ClaimStillOpen(s, e)
  {
    var t := Apply(s, e);
    if ClaimStillOpen(s, e) {
      forall key ensures KeyConsistent(t, key) { assert KeyConsistent(s, key); }
    } else {
      var key := s.holders[e.client].key;
      assert KeyConsistent(s, key);
      assert !KeyConsistent(t, key);
    }
  }

  ghost predicate AllCommitsOpen(s: State, events: seq<Event>)
    decreases |events|
  {
    events == [] || (ClaimStillOpen(s, events[0]) && AllCommitsOpen(Apply(s, events[0]), events[1..]))
  }

  /** Over every interleaving: if every commit finds its claim open, no key ever commits twice. */
  lemma {:induction false} AtMostOnceWhenOpen(s: State, events: seq<Event>)
    requires Consistent(s) && AllCommitsOpen(s, events)
    ensures Consistent(Run(s, events))
    decreases |events|
  {
    if events != [] {
      if events[0].EvCommit? { CommitKeepsConsistentExactlyWhenOpen(s, events[0]); }
      else { OtherStepsKeepConsistent(s, events[0]); }
      AtMostOnceWhenOpen(Apply(s, events[0]), events[1..]);
    }
  }

  // ---- the lease hypothesis -----------------------------------------------------------------

  /** A request whose claim was handed to another makes no further step but disappearing. */
  predicate ByOwner(s: State, e: Event)
  {
    && (e.EvCommit? || e.EvRollback? || e.EvFail? || e.EvRelease?)
    && e.client in s.holders ==>
      s.holders[e.client].key in s.owner && s.owner[s.holders[e.client].key] == e.client
  }

  ghost predicate OwnersOnly(s: State, events: seq<Event>)
    decreases |events|
  {
    events == [] || (ByOwner(s, events[0]) && OwnersOnly(Apply(s, events[0]), events[1..]))
  }

  /** The current owner, while running, holds an InProgress row. */
  ghost predicate OwnersHold(s: State)
  {
    forall c :: c in s.holders && s.holders[c].phase == Running
                && s.holders[c].key in s.owner && s.owner[s.holders[c].key] == c ==>
      s.holders[c].key in s.table && s.table[s.holders[c].key].status == InProgress
  }

  lemma StepKeepsOwnersHold(s: State, e: Event)
    requires OwnersHold(s) && ByOwner(s, e)
    ensures OwnersHold(Apply(s, e))
  {
  }

  /**
    At most once: from an empty table, over every interleaving of claims, commits (even when the
    commit reports an error), rollbacks, failures, releases, crashes, lease expiries and purges by
    any number of requests, if no request acts after losing its lease then each key's mutation
    commits at most once until it is purged, and its row is Completed exactly when it has committed.
   */
  lemma AtMostOnce(s: State, events: seq<Event>)
    requires s.table == map[] && s.holders == map[] && s.commits == map[] && OwnersOnly(s, events)
    ensures Consistent(Run(s, events))
  {
    assert Consistent(s) && OwnersHold(s);
    OwnersFindClaimsOpen(s, events);
    AtMostOnceWhenOpen(s, events);
  }

  lemma {:induction false} OwnersFindClaimsOpen(s: State, events: seq<Event>)
    requires OwnersHold(s) && OwnersOnly(s, events)
    ensures AllCommitsOpen(s, events)
    decreases |events|
  {
    if events != [] {
      StepKeepsOwnersHold(s, events[0]);
      OwnersFindClaimsOpen(Apply(s, events[0]), events[1..]);
    }
  }

  /** Without the hypothesis a slow holder does commit a second time: claim, expiry, takeover, two commits. */
  lemma SlowHolderCommitsTwice(k: string, d: string, r: string)
    ensures var s := State(map[], 0, map[], map[], map[]);
            var run := [EvClaim(1, k, d), EvTick(121), EvClaim(2, k, d), EvCommit(2, "", r, true), EvCommit(1, "", r, true)];
            |Commits(Run(s, run), k)| == 2
  {
    var s0 := State(map[], 0, map[], map[], map[]);
    var e1, e2, e3, e4, e5 := EvClaim(1, k, d), EvTick(121), EvClaim(2, k, d), EvCommit(2, "", r, true), EvCommit(1, "", r, true);
    var s1 := Apply(s0, e1);
    var s2 := Apply(s1, e2);
    var s3 := Apply(s2, e3);
    var s4 := Apply(s3, e4);
    var s5 := Apply(s4, e5);
    assert s3.holders[1].key == k && s3.holders[2].key == k && s4.holders[1] == Holder(k, Running);
    assert Commits(s4, k) == [r] && Commits(s5, k) == [r, r];
    assert [e1, e2, e3, e4, e5][1..] == [e2, e3, e4, e5] && [e2, e3, e4, e5][1..] == [e3, e4, e5];
    assert [e3, e4, e5][1..] == [e4, e5] && [e4, e5][1..] == [e5] && [e5][1..] == [];
    assert Run(s4, [e5]) == Run(s5, []) == s5;
    assert Run(s3, [e4, e5]) == Run(s4, [e5]);
    assert Run(s2, [e3, e4, e5]) == Run(s3, [e4, e5]);
    assert Run(s1, [e2, e3, e4, e5]) == Run(s2, [e3, e4, e5]);
    assert Run(s0, [e1, e2, e3, e4, e5]) == Run(s1, [e2, e3, e4, e5]);
  }

  // ---- one payload a key ---------------------------------------------------------------------

  /** The key's row is never deleted while the events happen. */
  ghost predicate RowStays(s: State, events: seq<Event>, key: string)
    decreases |events|
  {
    key in s.table && (events == [] || RowStays(Apply(s, events[0]), events[1..], key))
  }

  lemma StepKeepsDigest(s: State, e: Event, key: string)
    requires key in s.table && key in Apply(s, e).table
    ensures Apply(s, e).table[key].digest == s.table[key].digest
  {
  }

  /**
    Over every interleaving a row keeps the payload it was inserted with until it is deleted, and only a request with
    that payload is ever answered from it or let through: any other is told of the mismatch and nothing moves.
   */
  lemma {:induction false} OnePayloadPerKey(s: State, events: seq<Event>, key: string, client: nat, digest: string)
    requires RowStays(s, events, key)
    ensures var t := Run(s, events);
            && key in t.table && t.table[key].digest == s.table[key].digest
            && AnswersExisting(t.table[key], digest, t.now, ClaimStep(t.table, key, digest, t.now).1,
                               ClaimStep(t.table, key, digest, t.now).0[key])
            && (digest != s.table[key].digest ==>
                  && ClaimStep(t.table, key, digest, t.now) == (t.table, PayloadMismatch)
                  && Apply(t, EvClaim(client, key, digest)) == t)
    decreases |events|
  {
    if events != [] {
      StepKeepsDigest(s, events[0], key);
      OnePayloadPerKey(Apply(s, events[0]), events[1..], key, client, digest);
    }
  }

  /** The row a first claim inserts, and so the payload it keeps, is the claimant's. */
  lemma FirstClaimSetsThePayload(s: State, events: seq<Event>, key: string, client: nat, digest: string)
    requires key !in s.table && client !in s.holders
    requires RowStays(Apply(s, EvClaim(client, key, digest)), events, key)
    ensures var t := Run(Apply(s, EvClaim(client, key, digest)), events);
            && key in t.table && t.table[key].digest == digest
            && forall other :: (ClaimStep(t.table, key, other, t.now).1 == PayloadMismatch <==> other != digest)
  {
    OnePayloadPerKey(Apply(s, EvClaim(client, key, digest)), events, key, client, digest);
  }

  /**
    What a claim answers in a consistent state: a replay carries exactly the one committed response,
    and a request is let through only for a key that has committed nothing.
   */
  lemma ClaimAnswersFromTheCommit(s: State, key: string, digest: string)
    requires Consistent(s)
    ensures var outcome := ClaimStep(s.table, key, digest, s.now).1;
            && (outcome.Replay? ==> Commits(s, key) == [outcome.response])
            && (outcome.Acquired? || outcome.RetryAfterFailure? ==> Commits(s, key) == [])
            && (Commits(s, key) != [] ==> outcome.Replay? || outcome.PayloadMismatch?)
  {
    assert KeyConsistent(s, key);
  }
}
