/**
  The live user-state cache (engines/auth_livestate.go). A miss reads the user's row and stores it in two separate
  steps, so other requests, invalidations and changes of the row can come between them.
 */
module LiveState {
  import opened Text

  /** The columns of an active row; detail stands for everything but the role. */
  datatype UserState = UserState(role: string, detail: string)

  /** What the row says at each moment; None when there is no active row. */
  type Timeline = (string, string, nat) -> Option<UserState>

  /** A cached negative result has an empty role. readAt is when the row was really read. */
  datatype Entry = Entry(state: UserState, fetchedAt: nat, readAt: nat)

  datatype Read = Read(tenant: string, user: string, row: Option<UserState>, readAt: nat)

  datatype Answer = Answer(tenant: string, user: string, result: Option<UserState>, at: nat, cached: bool)

  /** pending are the requests between their read and their store. */
  datatype State = State(cache: map<string, Entry>, pending: map<nat, Read>, answers: seq<Answer>, now: nat)

  const MAX_ENTRIES := 10000
  const NOBODY := UserState("", "")

  function Key(tenant: string, user: string): string { tenant + "|" + user }

  /** The marker of a rejected user, which an active row with an empty role is turned into as well. */
  function Stored(row: Option<UserState>): UserState
  {
    if row.Some? && row.value.role != "" then row.value else NOBODY
  }

  function Result(s: UserState): Option<UserState> { if s.role == "" then None else Some(s) }

  /** cacheAuthState: a full cache is dropped whole. */
  function Store(cache: map<string, Entry>, key: string, e: Entry, ttl: nat): map<string, Entry>
  {
    if ttl == 0 then cache else (if |cache| >= MAX_ENTRIES then map[] else cache)[key := e]
  }

  predicate Hit(s: State, key: string, ttl: nat)
  {
    ttl > 0 && key in s.cache && s.now - s.cache[key].fetchedAt < ttl
  }

  function OfTenant(cache: map<string, Entry>, tenant: string): map<string, Entry>
  {
    map k | k in cache && !(tenant + "|" <= k) :: cache[k]
  }

  datatype Event =
    | EvTick(ms: nat)
    | EvAsk(id: nat, tenant: string, user: string, operational: bool)
    | EvStore(id: nat)
    | EvReadFails(id: nat)
    | EvInvalidate(tenant: string, user: string)
    | EvInvalidateTenant(tenant: string)
    | EvReset

  function Apply(s: State, rows: Timeline, ttl: nat, e: Event): State
  {
    match e
    case EvTick(ms) => s.(now := s.now + ms)
    case EvAsk(id, tenant, user, operational) =>
      if id in s.pending || user == "" || !operational then s
      else if Hit(s, Key(tenant, user), ttl) then
        s.(answers := s.answers + [Answer(tenant, user, Result(s.cache[Key(tenant, user)].state), s.now, true)])
      else s.(pending := s.pending[id := Read(tenant, user, rows(tenant, user, s.now), s.now)])
    case EvStore(id) =>
      if id !in s.pending then s
      else
        var p := s.pending[id];
        var state := Stored(p.row);
        s.(pending := s.pending - {id},
           cache := Store(s.cache, Key(p.tenant, p.user), Entry(state, s.now, p.readAt), ttl),
           answers := s.answers + [Answer(p.tenant, p.user, Result(state), s.now, false)])
    case EvReadFails(id) => s.(pending := s.pending - {id})
    case EvInvalidate(tenant, user) => s.(cache := s.cache - {Key(tenant, user)})
    case EvInvalidateTenant(tenant) => s.(cache := OfTenant(s.cache, tenant))
    case EvReset => s.(cache := map[])
  }

  function Run(s: State, rows: Timeline, ttl: nat, events: seq<Event>): State
    decreases |events|
  {
    if events == [] then s else Run(Apply(s, rows, ttl, events[0]), rows, ttl, events[1..])
  }

  function Start(now: nat): State { State(map[], map[], [], now) }

  // ---- keys ----------------------------------------------------------------------------------------

  /** With no bar in tenant ids no two users share a cache entry. */
  lemma KeysTellUsersApart(t: string, u: string, t2: string, u2: string)
    requires '|' !in t && '|' !in t2 && Key(t, u) == Key(t2, u2)
    ensures t == t2 && u == u2
  {
    IndexOfConcat(t, '|', u);
    IndexOfConcat(t2, '|', u2);
    assert t + ['|'] + u == Key(t, u) && t2 + ['|'] + u2 == Key(t2, u2);
    assert Key(t, u)[..|t|] == t && Key(t2, u2)[..|t2|] == t2;
    assert Key(t, u)[|t| + 1..] == u && Key(t2, u2)[|t2| + 1..] == u2;
  }

  // ---- freshness ------------------------------------------------------------------------------------

  /** An answer is the user's row as it stood at most so long before it was given. */
  ghost predicate Fresh(rows: Timeline, a: Answer, age: nat)
  {
    exists r: nat :: r <= a.at <= r + age && a.result == Result(Stored(rows(a.tenant, a.user, r)))
  }

  ghost predicate EntryOk(s: State, rows: Timeline, gap: nat, t: string, u: string)
  {
    Key(t, u) in s.cache ==>
      var e := s.cache[Key(t, u)];
      e.readAt <= e.fetchedAt <= e.readAt + gap && e.fetchedAt <= s.now && e.state == Stored(rows(t, u, e.readAt))
  }

  ghost predicate PendingOk(s: State, rows: Timeline, id: nat)
    requires id in s.pending
  {
    var p := s.pending[id];
    p.readAt <= s.now && p.row == rows(p.tenant, p.user, p.readAt) && '|' !in p.tenant
  }

  ghost predicate Inv(s: State, rows: Timeline, ttl: nat, gap: nat)
  {
    && |s.cache| <= MAX_ENTRIES
    && (forall t, u :: '|' !in t ==> EntryOk(s, rows, gap, t, u))
    && (forall id :: id in s.pending ==> PendingOk(s, rows, id))
    && (forall i :: 0 <= i < |s.answers| ==> Fresh(rows, s.answers[i], ttl + gap) && (s.answers[i].result.Some? ==> s.answers[i].result.value.role != ""))
  }

  /** Reads are stored within the gap, and tenant ids hold no bar. */
  ghost predicate Timely(s: State, gap: nat, e: Event)
  {
    match e
    case EvAsk(_, tenant, _, _) => '|' !in tenant
    case EvStore(id) => id in s.pending ==> s.now <= s.pending[id].readAt + gap
    case _ => true
  }

  lemma AskKeepsInv(s: State, rows: Timeline, ttl: nat, gap: nat, id: nat, tenant: string, user: string, operational: bool)
    requires Inv(s, rows, ttl, gap) && '|' !in tenant
    ensures Inv(Apply(s, rows, ttl, EvAsk(id, tenant, user, operational)), rows, ttl, gap)
  {
    var t := Apply(s, rows, ttl, EvAsk(id, tenant, user, operational));
    forall a, u | '|' !in a ensures EntryOk(t, rows, gap, a, u) { assert EntryOk(s, rows, gap, a, u); }
    forall i | i in t.pending ensures PendingOk(t, rows, i) { if i in s.pending { assert PendingOk(s, rows, i); } }
    if t.answers != s.answers {
      assert EntryOk(s, rows, gap, tenant, user);
      var e := s.cache[Key(tenant, user)];
      var a := t.answers[|s.answers|];
      assert e.readAt <= a.at <= e.readAt + (ttl + gap);
      assert Fresh(rows, a, ttl + gap);
      assert forall i :: 0 <= i < |s.answers| ==> t.answers[i] == s.answers[i];
    }
  }

  lemma StoreKeepsInv(s: State, rows: Timeline, ttl: nat, gap: nat, id: nat)
    requires Inv(s, rows, ttl, gap) && Timely(s, gap, EvStore(id)) && id in s.pending
    ensures Inv(Apply(s, rows, ttl, EvStore(id)), rows, ttl, gap)
  {
    var t := Apply(s, rows, ttl, EvStore(id));
    var p := s.pending[id];
    assert PendingOk(s, rows, id);
    forall a, u | '|' !in a ensures EntryOk(t, rows, gap, a, u) {
      assert EntryOk(s, rows, gap, a, u);
      if Key(a, u) == Key(p.tenant, p.user) { KeysTellUsersApart(a, u, p.tenant, p.user); }
    }
    forall i | i in t.pending ensures PendingOk(t, rows, i) { assert PendingOk(s, rows, i); }
    StoreStaysSmall(s.cache, Key(p.tenant, p.user), Entry(Stored(p.row), s.now, p.readAt), ttl);
    var a := t.answers[|s.answers|];
    assert p.readAt <= a.at <= p.readAt + (ttl + gap);
    assert Fresh(rows, a, ttl + gap);
    assert forall i :: 0 <= i < |s.answers| ==> t.answers[i] == s.answers[i];
  }

  lemma StoreStaysSmall(cache: map<string, Entry>, key: string, e: Entry, ttl: nat)
    requires |cache| <= MAX_ENTRIES
    ensures |Store(cache, key, e, ttl)| <= MAX_ENTRIES
  {
    var base := if |cache| >= MAX_ENTRIES then map[] else cache;
    assert base[key := e].Keys == base.Keys + {key};
    assert |base[key := e].Keys| <= |base.Keys| + 1;
    assert |base| == |base.Keys| && |base[key := e]| == |base[key := e].Keys|;
  }

  /** Dropping entries, passing time and losing a read keep what is known of the rest. */
  lemma DropKeepsInv(s: State, t: State, rows: Timeline, ttl: nat, gap: nat)
    requires Inv(s, rows, ttl, gap) && s.now <= t.now && t.answers == s.answers
    requires (forall k :: k in t.cache ==> k in s.cache && t.cache[k] == s.cache[k])
    requires (forall id :: id in t.pending ==> id in s.pending && t.pending[id] == s.pending[id])
    ensures Inv(t, rows, ttl, gap)
  {
    assert t.cache.Keys <= s.cache.Keys;
    SubsetIsSmaller(t.cache.Keys, s.cache.Keys);
    assert |t.cache| == |t.cache.Keys| && |s.cache| == |s.cache.Keys|;
    forall a, u | '|' !in a ensures EntryOk(t, rows, gap, a, u) { assert EntryOk(s, rows, gap, a, u); }
    forall id | id in t.pending ensures PendingOk(t, rows, id) { assert PendingOk(s, rows, id); }
  }

  lemma SubsetIsSmaller(a: set<string>, b: set<string>)
    requires a <= b
    ensures |a| <= |b|
  {
    assert b == a + (b - a);
  }

  lemma StepKeepsInv(s: State, rows: Timeline, ttl: nat, gap: nat, e: Event)
    requires Inv(s, rows, ttl, gap) && Timely(s, gap, e)
    ensures Inv(Apply(s, rows, ttl, e), rows, ttl, gap)
  {
    match e
    case EvAsk(id, tenant, user, operational) => AskKeepsInv(s, rows, ttl, gap, id, tenant, user, operational);
    case EvStore(id) => if id in s.pending { StoreKeepsInv(s, rows, ttl, gap, id); }
    case _ => DropKeepsInv(s, Apply(s, rows, ttl, e), rows, ttl, gap);
  }

  ghost predicate TimelyRun(s: State, rows: Timeline, ttl: nat, gap: nat, events: seq<Event>)
    decreases |events|
  {
    events == [] || (Timely(s, gap, events[0]) && TimelyRun(Apply(s, rows, ttl, events[0]), rows, ttl, gap, events[1..]))
  }

  lemma {:induction false} RunKeepsInv(s: State, rows: Timeline, ttl: nat, gap: nat, events: seq<Event>)
    requires Inv(s, rows, ttl, gap) && TimelyRun(s, rows, ttl, gap, events)
    ensures Inv(Run(s, rows, ttl, events), rows, ttl, gap)
    decreases |events|
  {
    if events != [] {
      StepKeepsInv(s, rows, ttl, gap, events[0]);
      RunKeepsInv(Apply(s, rows, ttl, events[0]), rows, ttl, gap, events[1..]);
    }
  }

  /**
    Every answer is the user's row as it stood no longer ago than the cache time plus one read-to-store gap;
    no answer carries an empty role; the cache never exceeds its limit.
   */
  lemma AnswersAreFresh(rows: Timeline, ttl: nat, gap: nat, now: nat, events: seq<Event>, i: nat)
    requires TimelyRun(Start(now), rows, ttl, gap, events)
    ensures var t := Run(Start(now), rows, ttl, events);
            && |t.cache| <= MAX_ENTRIES
            && (i < |t.answers| ==> Fresh(rows, t.answers[i], ttl + gap) && (t.answers[i].result.Some? ==> t.answers[i].result.value.role != ""))
  {
    RunKeepsInv(Start(now), rows, ttl, gap, events);
  }

  // ---- what an invalidation promises ---------------------------------------------------------------------

  /** Whatever the cache and the running reads know of this key was read at or after a moment. */
  ghost predicate ReadSince(s: State, key: string, since: nat)
  {
    && since <= s.now
    && (key in s.cache ==> since <= s.cache[key].readAt)
    && (forall id :: id in s.pending && Key(s.pending[id].tenant, s.pending[id].user) == key ==> since <= s.pending[id].readAt)
  }

  lemma StepKeepsReadSince(s: State, rows: Timeline, ttl: nat, e: Event, key: string, since: nat)
    requires ReadSince(s, key, since)
    ensures ReadSince(Apply(s, rows, ttl, e), key, since)
  {
  }

  lemma {:induction false} RunKeepsReadSince(s: State, rows: Timeline, ttl: nat, events: seq<Event>, key: string, since: nat)
    requires ReadSince(s, key, since)
    ensures ReadSince(Run(s, rows, ttl, events), key, since)
    decreases |events|
  {
    if events != [] {
      StepKeepsReadSince(s, rows, ttl, events[0], key, since);
      RunKeepsReadSince(Apply(s, rows, ttl, events[0]), rows, ttl, events[1..], key, since);
    }
  }

  /** After an invalidation nothing older is ever cached again, over every continuation. */
  ghost predicate InvalidationHolds(s: State, rows: Timeline, ttl: nat, tenant: string, user: string)
  {
    forall events: seq<Event> ::
      var t := Run(Apply(s, rows, ttl, EvInvalidate(tenant, user)), rows, ttl, events);
      Key(tenant, user) in t.cache ==> s.now <= t.cache[Key(tenant, user)].readAt
  }

  /** No request that read the row before now is still on its way to storing what it read. */
  ghost predicate NothingInFlight(s: State, key: string)
  {
    forall id :: id in s.pending && Key(s.pending[id].tenant, s.pending[id].user) == key ==> s.now <= s.pending[id].readAt
  }

  lemma InFlightReadOutlives(s: State, rows: Timeline, ttl: nat, tenant: string, user: string, id: nat)
    requires ttl > 0 && id in s.pending && s.pending[id].readAt < s.now
    requires Key(s.pending[id].tenant, s.pending[id].user) == Key(tenant, user)
    ensures !InvalidationHolds(s, rows, ttl, tenant, user)
  {
    var key := Key(tenant, user);
    var after := Apply(s, rows, ttl, EvInvalidate(tenant, user));
    var events := [EvStore(id)];
    var t := Apply(after, rows, ttl, EvStore(id));
    assert events[1..] == [] && Run(t, rows, ttl, []) == t;
    assert Run(after, rows, ttl, events) == t;
    assert t.cache == Store(after.cache, key, Entry(Stored(s.pending[id].row), s.now, s.pending[id].readAt), ttl);
    assert key in t.cache && t.cache[key].readAt < s.now;
  }

  /**
    Dropping the entry makes every later request see the change exactly when no request that read the row before
    it is still to store what it read.
   */
  lemma InvalidationHoldsExactlyWhenNothingInFlight(s: State, rows: Timeline, ttl: nat, tenant: string, user: string)
    requires ttl > 0
    ensures InvalidationHolds(s, rows, ttl, tenant, user) <==> NothingInFlight(s, Key(tenant, user))
  {
    var key := Key(tenant, user);
    var after := Apply(s, rows, ttl, EvInvalidate(tenant, user));
    if NothingInFlight(s, key) {
      forall events: seq<Event> ensures var t := Run(after, rows, ttl, events); key in t.cache ==> s.now <= t.cache[key].readAt {
        RunKeepsReadSince(after, rows, ttl, events, key, s.now);
      }
    } else {
      var id :| id in s.pending && Key(s.pending[id].tenant, s.pending[id].user) == key && !(s.now <= s.pending[id].readAt);
      InFlightReadOutlives(s, rows, ttl, tenant, user, id);
    }
  }

  /** A role taken away at time 5. */
  const DEMOTED: Timeline := (tenant, user, at) => if at < 5 then Some(UserState("Admin", "")) else None

  /** A request reads at 0; the role is taken away and dropped from the cache at 5; the request stores; the next one is answered. */
  lemma DroppedRoleIsAnsweredAgain(ttl: nat)
    requires ttl > 0
    ensures var t := Run(Start(0), DEMOTED, ttl, [EvAsk(0, "t", "u", true), EvTick(5), EvInvalidate("t", "u"), EvStore(0),
                                                  EvAsk(1, "t", "u", true)]);
            && t.answers != [] && DEMOTED("t", "u", t.now) == None
            && t.answers[|t.answers| - 1] == Answer("t", "u", Some(UserState("Admin", "")), 5, true)
  {
    var e1, e2, e3, e4, e5 := EvAsk(0, "t", "u", true), EvTick(5), EvInvalidate("t", "u"), EvStore(0), EvAsk(1, "t", "u", true);
    var s0 := Start(0);
    var s1 := Apply(s0, DEMOTED, ttl, e1);
    var s2 := Apply(s1, DEMOTED, ttl, e2);
    var s3 := Apply(s2, DEMOTED, ttl, e3);
    var s4 := Apply(s3, DEMOTED, ttl, e4);
    assert s3.pending[0] == Read("t", "u", Some(UserState("Admin", "")), 0);
    assert s4.cache[Key("t", "u")] == Entry(UserState("Admin", ""), 5, 0);
    RunOfFive(s0, DEMOTED, ttl, e1, e2, e3, e4, e5);
  }

  lemma RunOfFive(s: State, rows: Timeline, ttl: nat, a: Event, b: Event, c: Event, d: Event, e: Event)
    ensures Run(s, rows, ttl, [a, b, c, d, e])
            == Apply(Apply(Apply(Apply(Apply(s, rows, ttl, a), rows, ttl, b), rows, ttl, c), rows, ttl, d), rows, ttl, e)
  {
    var s1 := Apply(s, rows, ttl, a);
    var s2 := Apply(s1, rows, ttl, b);
    var s3 := Apply(s2, rows, ttl, c);
    var s4 := Apply(s3, rows, ttl, d);
    RunStep(s4, rows, ttl, e, []);
    RunStep(s3, rows, ttl, d, [e]);
    RunStep(s2, rows, ttl, c, [d, e]);
    RunStep(s1, rows, ttl, b, [c, d, e]);
    RunStep(s, rows, ttl, a, [b, c, d, e]);
    assert [e] == [e] + [] && [d, e] == [d] + [e] && [c, d, e] == [c] + [d, e];
    assert [b, c, d, e] == [b] + [c, d, e] && [a, b, c, d, e] == [a] + [b, c, d, e];
  }

  lemma RunStep(s: State, rows: Timeline, ttl: nat, e: Event, rest: seq<Event>)
    ensures Run(s, rows, ttl, [e] + rest) == Run(Apply(s, rows, ttl, e), rows, ttl, rest)
  {
    assert ([e] + rest)[1..] == rest;
  }

  // ---- the cache -----------------------------------------------------------------------------------------------

  class AuthStateCache {
    var cache: map<string, Entry>

    constructor ()
      ensures cache == map[]
    {
      cache := map[];
    }

    /** The read-locked look at the cache: Some(answer) on a hit. */
    method Lookup(tenant: string, user: string, ttl: nat, now: nat) returns (r: Option<Option<UserState>>)
      ensures r.Some? <==> Hit(State(cache, map[], [], now), Key(tenant, user), ttl)
      ensures var key := tenant + "|" + user;
              && (r.Some? <==> ttl > 0 && key in cache && now - cache[key].fetchedAt < ttl)
              && (r.Some? ==> r.value == if cache[key].state.role == "" then None else Some(cache[key].state))
      ensures r.Some? && r.value.Some? ==> r.value.value.role != ""
    {
      var key := Key(tenant, user);
      if ttl > 0 && key in cache && now - cache[key].fetchedAt < ttl {
        var entry := cache[key];
        return Some(if entry.state.role == "" then None else Some(entry.state));
      }
      r := None;
    }

    /** Normalise what the query found, store it, answer. */
    method Settle(tenant: string, user: string, row: Option<UserState>, readAt: nat, ttl: nat, now: nat) returns (r: Option<UserState>)
      modifies this
      ensures cache == Store(old(cache), Key(tenant, user), Entry(Stored(row), now, readAt), ttl)
      ensures r == if row.Some? && row.value.role != "" then row else None
      ensures var key := tenant + "|" + user;
              ttl > 0 ==> key in cache && cache[key].fetchedAt == now && (cache[key].state.role != "" ==> Some(cache[key].state) == row)
                          && (r.None? ==> cache[key].state.role == "") && (r.Some? ==> cache[key].state == r.value)
    {
      var key := Key(tenant, user);
      if row.None? || row.value.role == "" {
        CacheAuthState(key, NOBODY, readAt, ttl, now);
        return None;
      }
      CacheAuthState(key, row.value, readAt, ttl, now);
      r := row;
    }

    method CacheAuthState(key: string, state: UserState, readAt: nat, ttl: nat, now: nat)
      modifies this
      ensures cache == Store(old(cache), key, Entry(state, now, readAt), ttl)
      ensures ttl == 0 ==> cache == old(cache)
      ensures ttl > 0 ==> key in cache && cache[key] == Entry(state, now, readAt)
                          && forall k :: k != key ==> (k in cache <==> k in old(cache) && |old(cache)| < MAX_ENTRIES)
                                                      && (k in cache ==> cache[k] == old(cache)[k])
    {
      if ttl == 0 { return; }
      if |cache| >= MAX_ENTRIES { cache := map[]; }
      cache := cache[key := Entry(state, now, readAt)];
    }

    method InvalidateLiveUserState(tenant: string, user: string)
      modifies this
      ensures cache == old(cache) - {Key(tenant, user)}
    {
      cache := cache - {Key(tenant, user)};
    }

    /** Every key with the tenant's prefix goes. */
    method InvalidateLiveUserStatesForTenant(tenant: string)
      modifies this
      ensures cache == OfTenant(old(cache), tenant)
    {
      var prefix := tenant + "|";
      var left := cache.Keys;
      ghost var before := cache;
      while left != {}
        invariant left <= before.Keys
        invariant forall k :: k in cache <==> k in before && (k in left || !(prefix <= k))
        invariant forall k :: k in cache ==> cache[k] == before[k]
        decreases |left|
      {
        var k :| k in left;
        if prefix <= k { cache := cache - {k}; }
        left := left - {k};
      }
      assert cache == OfTenant(before, tenant);
    }

    /** tenantHasCachedUserState. */
    method HasCachedUserState(tenant: string) returns (has: bool)
      ensures has <==> exists k :: k in cache && tenant + "|" <= k
    {
      has := exists k :: k in cache && tenant + "|" <= k;
    }
  }

  /** Dropping a tenant drops exactly its users: no other tenant's entry, and none of its own stays. */
  lemma TenantDropIsExact(cache: map<string, Entry>, tenant: string, other: string, user: string)
    requires '|' !in tenant && '|' !in other && Key(other, user) in cache
    ensures Key(other, user) in OfTenant(cache, tenant) <==> other != tenant
  {
    if other == tenant {
      assert tenant + "|" <= Key(tenant, user);
    } else if tenant + "|" <= Key(other, user) {
      var rest := Key(other, user)[|tenant| + 1..];
      assert Key(other, user) == Key(tenant, rest);
      KeysTellUsersApart(tenant, rest, other, user);
    }
  }
}
