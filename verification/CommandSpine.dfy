/** RunEconomicCommand: one document posted all or nothing under an idempotency claim (engines/command_spine.go). */
module CommandSpine {
  import opened Text
  import opened CommandIdempotency

  datatype Doc = Doc(data: string, version: nat)

  /** expectedVersion 0 means not checked; digest is the request payload's. */
  datatype Command = Command(name: string, doctype: string, docId: string, idempotencyKey: string,
                             expectedVersion: nat, digest: string)

  /** What a posting did: the key it ran under ("" when unprotected), its document and its response. */
  datatype Posted = Posted(key: string, docId: string, response: string)

  /** The claim table, the documents and every committed posting. */
  datatype Books = Books(claims: Table, docs: map<(string, string), Doc>, posted: seq<Posted>)

  datatype Reply = Ok(response: string) | Err(reason: string)

  /** How the transaction's commit ends: it may also report an error after it has taken effect. */
  datatype CommitResult = Committed | RolledBack | CommittedButReportsError

  /** The posting callback: the new document and the response, or an error. */
  type Post = Doc -> Option<(Doc, string)>

  predicate IsBlank(s: string) { Trim(s) == "" }

  function Namespaced(c: Command): string { c.name + ":" + c.idempotencyKey }

  function DocKey(c: Command): (string, string) { (c.doctype, c.docId) }

  /** Everything the transaction checks before its commit. */
  function TryPost(b: Books, c: Command, post: Post): Option<(Doc, string)>
  {
    if DocKey(c) !in b.docs then None
    else if c.expectedVersion > 0 && c.expectedVersion != b.docs[DocKey(c)].version then None
    else post(b.docs[DocKey(c)])
  }

  /** The transaction under a claim key, "" for none. */
  function Transact(b: Books, c: Command, key: string, now: int, post: Post, commit: CommitResult): (Books, Reply)
  {
    var done := TryPost(b, c, post);
    if done.None? || commit == RolledBack then
      (b.(claims := if key == "" then b.claims else FailStep(b.claims, key, "failed", now)), Err("failed"))
    else
      var (doc, response) := done.value;
      var claims := if key == "" then b.claims else CompleteStep(b.claims, key, c.docId, response, now);
      var after := Books(claims, b.docs[DocKey(c) := doc], b.posted + [Posted(key, c.docId, response)]);
      if commit == Committed then (after, Ok(response))
      else (after.(claims := if key == "" then claims else FailStep(claims, key, "failed", now)), Err("failed"))
  }

  function RunCommand(b: Books, c: Command, now: int, post: Post, commit: CommitResult): (Books, Reply)
  {
    if IsBlank(c.idempotencyKey) then Transact(b, c, "", now, post, commit)
    else
      var (claims, outcome) := ClaimStep(b.claims, Namespaced(c), c.digest, now);
      match outcome
      case Replay(response) => (b, Ok(response))
      case Busy => (b, Err("already running"))
      case PayloadMismatch => (b, Err("key used for a different request"))
      case Acquired => Transact(b.(claims := claims), c, Namespaced(c), now, post, commit)
      case RetryAfterFailure => Transact(b.(claims := claims), c, Namespaced(c), now, post, commit)
  }

  class EconomicStore {
    var claims: Table
    var docs: map<(string, string), Doc>
    var posted: seq<Posted>

    ghost function View(): Books
      reads this
    {
      Books(claims, docs, posted)
    }

    method ClaimCommand(key: string, digest: string, now: int) returns (outcome: Outcome)
      modifies this`claims
      ensures (claims, outcome) == ClaimStep(old(claims), key, digest, now)
      ensures key in claims && claims - {key} == old(claims) - {key}
      ensures key !in old(claims) ==>
                outcome == Acquired && claims[key] == Claim(digest, InProgress, "", "", now, now + 120, None)
      ensures key in old(claims) ==> AnswersExisting(old(claims)[key], digest, now, outcome, claims[key])
      ensures key in old(claims) && old(claims)[key].digest != digest ==>
                outcome == PayloadMismatch && claims == old(claims)
    {
      if key !in claims {
        claims := claims[key := Claim(digest, InProgress, "", "", now, Lease(now), None)];
        return Acquired;
      }
      var row := claims[key];
      if row.digest != digest { return PayloadMismatch; }
      match row.status
      case Completed => outcome := Replay(row.response);
      case Failed =>
        claims := claims[key := row.(status := InProgress, claimedAt := now, completedAt := None,
                                     leaseExpiresAt := Lease(now))];
        outcome := RetryAfterFailure;
      case InProgress =>
        if !(row.leaseExpiresAt < now) { return Busy; }
        claims := claims[key := row.(claimedAt := now, leaseExpiresAt := Lease(now))];
        outcome := Acquired;
    }

    method FailCommand(key: string, reason: string, now: int)
      modifies this`claims
      ensures claims == FailStep(old(claims), key, reason, now)
      ensures claims == if key in old(claims) && old(claims)[key].status == InProgress
                        then old(claims)[key := old(claims)[key].(status := Failed, completedAt := Some(now), response := reason)]
                        else old(claims)
    {
      if key in claims && claims[key].status == InProgress {
        claims := claims[key := claims[key].(status := Failed, completedAt := Some(now), response := reason)];
      }
    }

    method ReleaseCommand(key: string)
      modifies this`claims
      ensures claims == ReleaseStep(old(claims), key)
      ensures forall k :: (k in claims <==> k in old(claims) && !(k == key && old(claims)[k].status == InProgress))
                          && (k in claims ==> claims[k] == old(claims)[k])
    {
      if key in claims && claims[key].status == InProgress { claims := claims - {key}; }
    }

    method PurgeSettledCommandClaims(now: int)
      modifies this`claims
      ensures claims == PurgeStep(old(claims), now)
      ensures forall k :: k in claims ==> k in old(claims) && claims[k] == old(claims)[k]
      ensures forall k :: k in old(claims) && k !in claims ==>
                old(claims)[k].status != InProgress && old(claims)[k].completedAt.Some?
                && now - old(claims)[k].completedAt.value > 7 * 24 * 3600
      ensures forall k :: k in claims && claims[k].status != InProgress && claims[k].completedAt.Some? ==>
                now - claims[k].completedAt.value <= 7 * 24 * 3600
    {
      claims := map k | k in claims && !Purgeable(claims[k], now) :: claims[k];
    }

    method RunEconomicCommand(c: Command, now: int, post: Post, commit: CommitResult) returns (reply: Reply)
      modifies this
      ensures (View(), reply) == RunCommand(old(View()), c, now, post, commit)
      ensures var key := c.name + ":" + c.idempotencyKey;
              Trim(c.idempotencyKey) != "" && key in old(claims) && old(claims)[key].digest != c.digest ==>
                reply == Err("key used for a different request") && View() == old(View())
    {
      var claimKey := "";
      if !IsBlank(c.idempotencyKey) {
        claimKey := Namespaced(c);
        var outcome := ClaimCommand(claimKey, c.digest, now);
        match outcome
        case Replay(response) => return Ok(response);
        case Busy => return Err("already running");
        case PayloadMismatch => return Err("key used for a different request");
        case Acquired =>
        case RetryAfterFailure =>
      }
      reply := PostInTransaction(c, claimKey, now, post, commit);
    }

    /** The transaction: nothing it writes is visible unless its commit takes effect. */
    method PostInTransaction(c: Command, claimKey: string, now: int, post: Post, commit: CommitResult)
      returns (reply: Reply)
      modifies this
      ensures (View(), reply) == Transact(old(View()), c, claimKey, now, post, commit)
    {
      var done: Option<(Doc, string)> := None;
      if DocKey(c) in docs && !(c.expectedVersion > 0 && c.expectedVersion != docs[DocKey(c)].version) {
        done := post(docs[DocKey(c)]);
      }
      if done.None? || commit == RolledBack {
        if claimKey != "" { FailCommand(claimKey, "failed", now); }
        return Err("failed");
      }
      var (doc, response) := done.value;
      docs := docs[DocKey(c) := doc];
      posted := posted + [Posted(claimKey, c.docId, response)];
      if claimKey != "" { claims := CompleteStep(claims, claimKey, c.docId, response, now); }
      if commit == Committed { return Ok(response); }
      if claimKey != "" { FailCommand(claimKey, "failed", now); }
      reply := Err("failed");
    }
  }

  // ---- what a caller may rely on ------------------------------------------------------------

  /** Exactly one posting, of exactly what the callback returned for the document as it stood. */
  ghost predicate PostedOnce(b: Books, t: Books, c: Command, post: Post)
  {
    && TryPost(b, c, post).Some?
    && t.docs == b.docs[DocKey(c) := TryPost(b, c, post).value.0]
    && |t.posted| == |b.posted| + 1 && t.posted[..|b.posted|] == b.posted
    && t.posted[|b.posted|].docId == c.docId && t.posted[|b.posted|].response == TryPost(b, c, post).value.1
  }

  /** All or nothing, and the reply says which, unless the commit itself lies. */
  lemma AllOrNothing(b: Books, c: Command, now: int, post: Post, commit: CommitResult)
    ensures var (t, reply) := RunCommand(b, c, now, post, commit);
            && ((t.docs == b.docs && t.posted == b.posted) || PostedOnce(b, t, c, post))
            && (reply.Err? && commit != CommittedButReportsError ==> t.posted == b.posted)
            && (reply.Ok? && t.posted != b.posted ==> reply.response == TryPost(b, c, post).value.1)
  {
    var (claims, outcome) := ClaimStep(b.claims, Namespaced(c), c.digest, now);
    assert TryPost(b.(claims := claims), c, post) == TryPost(b, c, post);
  }

  /** The key is blank, new, or held by a failed or expired claim of the same payload. */
  ghost predicate MayClaim(claims: Table, c: Command, now: int)
  {
    var key := c.name + ":" + c.idempotencyKey;
    Trim(c.idempotencyKey) == "" || key !in claims
    || (claims[key].digest == c.digest
        && (claims[key].status == Failed || (claims[key].status == InProgress && claims[key].leaseExpiresAt < now)))
  }

  /** The document is there, at the version the caller expects, if it expects one. */
  ghost predicate MeetsItsVersion(docs: map<(string, string), Doc>, c: Command)
  {
    (c.doctype, c.docId) in docs && (c.expectedVersion > 0 ==> docs[(c.doctype, c.docId)].version == c.expectedVersion)
  }

  /**
    A call posts exactly when it may claim its key, the document is at the version it expects, the callback accepts
    that document, and the transaction is not rolled back; otherwise documents and postings stay as they were.
   */
  lemma PostsExactlyWhen(b: Books, c: Command, now: int, post: Post, commit: CommitResult)
    ensures var (t, reply) := RunCommand(b, c, now, post, commit);
            if MayClaim(b.claims, c, now) && MeetsItsVersion(b.docs, c)
               && post(b.docs[(c.doctype, c.docId)]).Some? && commit != RolledBack
            then
              var (doc, response) := post(b.docs[(c.doctype, c.docId)]).value;
              && t.docs == b.docs[(c.doctype, c.docId) := doc]
              && t.posted == b.posted + [Posted(if Trim(c.idempotencyKey) == "" then "" else c.name + ":" + c.idempotencyKey, c.docId, response)]
              && reply == (if commit == Committed then Ok(response) else Err("failed"))
            else
              && t.docs == b.docs && t.posted == b.posted
              && (reply.Ok? ==> Trim(c.idempotencyKey) != "" && Namespaced(c) in b.claims
                                && b.claims[Namespaced(c)].digest == c.digest && b.claims[Namespaced(c)].status == Completed
                                && reply.response == b.claims[Namespaced(c)].response && t == b)
  {
    var (claims, outcome) := ClaimStep(b.claims, Namespaced(c), c.digest, now);
    assert TryPost(b.(claims := claims), c, post) == TryPost(b, c, post);
  }

  /**
    A keyed command that has posted - whether its caller was told so or not - never posts again: any
    later call with the same key and payload changes nothing and answers the first response.
   */
  lemma RepeatAnswersTheFirst(b: Books, c: Command, now: int, post: Post, commit: CommitResult,
                              later: int, other: Post, otherCommit: CommitResult)
    requires !IsBlank(c.idempotencyKey)
    requires RunCommand(b, c, now, post, commit).0.posted != b.posted
    ensures var t := RunCommand(b, c, now, post, commit).0;
            RunCommand(t, c, later, other, otherCommit) == (t, Ok(t.posted[|t.posted| - 1].response))
  {
    var key := Namespaced(c);
    var t := RunCommand(b, c, now, post, commit).0;
    assert t.claims[key].status == Completed && t.claims[key].digest == c.digest;
    assert t.claims[key].response == t.posted[|t.posted| - 1].response;
  }

  /** A keyed command that was refused without posting can be tried again at once. */
  lemma FailureCanBeRetried(b: Books, c: Command, now: int, post: Post, commit: CommitResult)
    requires !IsBlank(c.idempotencyKey)
    requires Namespaced(c) !in b.claims || (b.claims[Namespaced(c)].status == Failed
                                            && b.claims[Namespaced(c)].digest == c.digest)
    requires TryPost(b, c, post).None? || commit == RolledBack
    ensures var t := RunCommand(b, c, now, post, commit).0;
            forall later :: ClaimStep(t.claims, Namespaced(c), c.digest, later).1 == RetryAfterFailure
  {
    var (claims, outcome) := ClaimStep(b.claims, Namespaced(c), c.digest, now);
    assert TryPost(b.(claims := claims), c, post) == TryPost(b, c, post);
  }

  // ---- a call is a run of the claim machine ---------------------------------------------------

  /** The steps one call takes as request `client`. */
  ghost function Steps(b: Books, c: Command, client: nat, now: int, post: Post, commit: CommitResult): seq<Event>
  {
    var key := Namespaced(c);
    var (claims, outcome) := ClaimStep(b.claims, key, c.digest, now);
    var done := TryPost(b, c, post);
    if !outcome.Acquired? && !outcome.RetryAfterFailure? then [EvClaim(client, key, c.digest)]
    else if done.None? || commit == RolledBack then
      [EvClaim(client, key, c.digest), EvRollback(client), EvFail(client, "failed")]
    else if commit == Committed then
      [EvClaim(client, key, c.digest), EvCommit(client, c.docId, done.value.1, true)]
    else [EvClaim(client, key, c.digest), EvCommit(client, c.docId, done.value.1, false), EvFail(client, "failed")]
  }

  lemma RunUnfolds(s: State, a: Event, b: Event, c: Event)
    ensures Run(s, [a]) == Apply(s, a)
    ensures Run(s, [a, b]) == Apply(Apply(s, a), b)
    ensures Run(s, [a, b, c]) == Apply(Apply(Apply(s, a), b), c)
  {
    assert [a][1..] == [] && [a, b][1..] == [b] && [b][1..] == [] && [a, b, c][1..] == [b, c] && [b, c][1..] == [c];
    assert [c][1..] == [];
    var s1 := Apply(s, a);
    var s2 := Apply(s1, b);
    assert Run(s2, [c]) == Run(Apply(s2, c), []);
    assert Run(s1, [b, c]) == Run(s2, [c]);
    assert Run(s1, [b]) == Run(s2, []);
  }

  /**
    A keyed call moves the claim table exactly as its steps do in the many-client machine, and posts
    exactly when those steps commit: at-most-once there is at-most-once here.
   */
  lemma CallIsARun(b: Books, s: State, c: Command, client: nat, post: Post, commit: CommitResult)
    requires !IsBlank(c.idempotencyKey) && s.table == b.claims && client !in s.holders
    ensures var t, u := RunCommand(b, c, s.now, post, commit).0, Run(s, Steps(b, c, client, s.now, post, commit));
            && u.table == t.claims && u.holders == s.holders
            && |t.posted| - |b.posted| == |Commits(u, Namespaced(c))| - |Commits(s, Namespaced(c))|
  {
    var outcome := ClaimStep(b.claims, Namespaced(c), c.digest, s.now).1;
    if (outcome.Acquired? || outcome.RetryAfterFailure?) && TryPost(b, c, post).Some? && commit != RolledBack {
      PostedCallIsARun(b, s, c, client, post, commit);
    } else {
      RunUnfolds(s, EvClaim(client, Namespaced(c), c.digest), EvRollback(client), EvFail(client, "failed"));
      if outcome.Acquired? || outcome.RetryAfterFailure? {
        assert TryPost(b.(claims := ClaimStep(b.claims, Namespaced(c), c.digest, s.now).0), c, post) == TryPost(b, c, post);
        RefusedCallIsARun(b, s, c, client, post, commit);
      }
    }
  }

  lemma RefusedCallIsARun(b: Books, s: State, c: Command, client: nat, post: Post, commit: CommitResult)
    requires !IsBlank(c.idempotencyKey) && s.table == b.claims && client !in s.holders
    requires var outcome := ClaimStep(b.claims, Namespaced(c), c.digest, s.now).1;
             outcome.Acquired? || outcome.RetryAfterFailure?
    requires TryPost(b, c, post).None? || commit == RolledBack
    ensures var u := Apply(Apply(Apply(s, EvClaim(client, Namespaced(c), c.digest)), EvRollback(client)),
                           EvFail(client, "failed"));
            && u.table == RunCommand(b, c, s.now, post, commit).0.claims && u.holders == s.holders
            && u.commits == s.commits
  {
    var key := Namespaced(c);
    assert TryPost(b.(claims := ClaimStep(b.claims, key, c.digest, s.now).0), c, post) == TryPost(b, c, post);
    var s1 := Apply(s, EvClaim(client, key, c.digest));
    assert s1.holders == s.holders[client := Holder(key, Running)];
    assert Apply(s1, EvRollback(client)).holders - {client} == s.holders;
  }

  lemma PostedCallIsARun(b: Books, s: State, c: Command, client: nat, post: Post, commit: CommitResult)
    requires !IsBlank(c.idempotencyKey) && s.table == b.claims && client !in s.holders
    requires var outcome := ClaimStep(b.claims, Namespaced(c), c.digest, s.now).1;
             outcome.Acquired? || outcome.RetryAfterFailure?
    requires TryPost(b, c, post).Some? && commit != RolledBack
    ensures var u, t := Run(s, Steps(b, c, client, s.now, post, commit)), RunCommand(b, c, s.now, post, commit).0;
            && u.table == t.claims && u.holders == s.holders && |t.posted| == |b.posted| + 1
            && Commits(u, Namespaced(c)) == Commits(s, Namespaced(c)) + [TryPost(b, c, post).value.1]
  {
    var key := Namespaced(c);
    assert TryPost(b.(claims := ClaimStep(b.claims, key, c.digest, s.now).0), c, post) == TryPost(b, c, post);
    PostedSteps(b, s, c, client, post, commit);
    ClaimThenCommit(s, client, key, c.digest, c.docId, TryPost(b, c, post).value.1, commit == Committed);
  }

  /** A claim that is granted and then committed. */
  lemma ClaimThenCommit(s: State, client: nat, key: string, digest: string, doc: string, response: string, reported: bool)
    requires client !in s.holders
    requires ClaimStep(s.table, key, digest, s.now).1.Acquired? || ClaimStep(s.table, key, digest, s.now).1.RetryAfterFailure?
    ensures var t := Apply(Apply(s, EvClaim(client, key, digest)), EvCommit(client, doc, response, reported));
            && t.table == CompleteStep(ClaimStep(s.table, key, digest, s.now).0, key, doc, response, s.now) && t.now == s.now
            && t.commits == s.commits[key := Commits(s, key) + [response]]
            && t.holders == (if reported then s.holders else s.holders[client := Holder(key, Failing)])
  {
    var s1 := Apply(s, EvClaim(client, key, digest));
    assert s1.holders == s.holders[client := Holder(key, Running)];
    assert s1.holders - {client} == s.holders;
  }

  lemma PostedSteps(b: Books, s: State, c: Command, client: nat, post: Post, commit: CommitResult)
    requires var outcome := ClaimStep(b.claims, Namespaced(c), c.digest, s.now).1;
             outcome.Acquired? || outcome.RetryAfterFailure?
    requires TryPost(b, c, post).Some? && commit != RolledBack
    ensures var claim := EvClaim(client, Namespaced(c), c.digest);
            var committed := Apply(Apply(s, claim), EvCommit(client, c.docId, TryPost(b, c, post).value.1, commit == Committed));
            Run(s, Steps(b, c, client, s.now, post, commit))
            == if commit == Committed then committed else Apply(committed, EvFail(client, "failed"))
  {
    RunUnfolds(s, EvClaim(client, Namespaced(c), c.digest),
               EvCommit(client, c.docId, TryPost(b, c, post).value.1, commit == Committed), EvFail(client, "failed"));
  }
}
