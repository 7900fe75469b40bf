/** Checking a token step by step, and the key ring a deployment's environment gives (engines/auth.go). */
module TokenRing {
  import opened Text
  import opened TokenText
  import opened Tokens

  method VerifyClaimSignature(mac: Mac, ring: seq<Key>, encoded: string, signature: string) returns (ok: bool)
    requires MacOk(mac)
    ensures ok <==> Verifies(mac, ring, encoded, signature)
  {
    for i := 0 to |ring|
      invariant forall j :: 0 <= j < i ==> signature != Hex(mac(ring[j].secret, encoded))
    {
      if signature == Hex(mac(ring[i].secret, encoded)) { return true; }
    }
    ok := false;
  }

  method ReadPairs(pairs: seq<string>) returns (claims: map<string, string>)
    ensures claims == AddPairs(pairs)
  {
    claims := map[];
    for i := 0 to |pairs|
      invariant claims == AddPairs(pairs[..i])
    {
      assert pairs[..i + 1][..i] == pairs[..i];
      var eq := IndexOf(pairs[i], '=');
      if eq == |pairs[i]| { continue; }
      var raw := pairs[i][eq + 1..];
      var value := Unescape(raw);
      claims := claims[pairs[i][..eq] := if value.Some? then value.value else raw];
    }
    assert pairs[..|pairs|] == pairs;
  }

  method ParseToken(mac: Mac, ring: seq<Key>, now: int, token: string) returns (r: Option<map<string, string>>)
    requires MacOk(mac)
    ensures r == Parse(mac, ring, now, token)
  {
    var parts := Split(token, '.');
    if |parts| != 2 { return None; }
    var ok := VerifyClaimSignature(mac, ring, parts[0], parts[1]);
    if !ok { return None; }
    var decoded := Decode64(parts[0]);
    if decoded.None? { return None; }
    var claims := ReadPairs(Split(decoded.value, '&'));
    if "exp" !in claims { return None; }
    var exp := ParseInt(claims["exp"]);
    if exp.None? || now > exp.value { return None; }
    r := Some(claims);
  }

  // ---- the key ring --------------------------------------------------------------------------------

  datatype Numbered = Numbered(n: int, key: Key)

  const PREFIX := "JWT_SECRET_"

  /** What one environment entry contributes. */
  function EntryKey(kv: string): Option<Numbered>
  {
    var eq := IndexOf(kv, '=');
    if eq == |kv| || !(PREFIX <= kv[..eq]) || kv[eq + 1..] == "" then None
    else
      var suffix := kv[..eq][|PREFIX|..];
      match ParseInt(suffix)
      case None => None
      case Some(n) => if n <= 0 then None else Some(Numbered(n, Key(suffix, kv[eq + 1..])))
  }

  function Found(env: seq<string>): seq<Numbered>
  {
    if env == [] then []
    else
      Found(env[..|env| - 1]) + (match EntryKey(env[|env| - 1]) case Some(k) => [k] case None => [])
  }

  predicate NewestFirst(ks: seq<Numbered>) { forall i, j :: 0 <= i < j < |ks| ==> ks[i].n >= ks[j].n }

  method CollectKeys(env: seq<string>) returns (found: seq<Numbered>)
    ensures found == Found(env)
  {
    found := [];
    for i := 0 to |env|
      invariant found == Found(env[..i])
    {
      assert env[..i + 1][..i] == env[..i];
      var entry := EntryKey(env[i]);
      if entry.Some? { found := found + [entry.value]; }
    }
    assert env[..|env|] == env;
  }

  /** Put one key into a list that is newest first. */
  method InsertKey(ks: seq<Numbered>, k: Numbered) returns (t: seq<Numbered>)
    requires NewestFirst(ks)
    ensures NewestFirst(t) && multiset(t) == multiset(ks) + multiset{k}
  {
    var i := 0;
    while i < |ks| && ks[i].n > k.n
      invariant 0 <= i <= |ks|
      invariant forall j :: 0 <= j < i ==> ks[j].n > k.n
    {
      i := i + 1;
    }
    Inserted(ks, i, k);
    t := ks[..i] + [k] + ks[i..];
  }

  lemma Inserted(ks: seq<Numbered>, i: nat, k: Numbered)
    requires NewestFirst(ks) && i <= |ks| && (i < |ks| ==> ks[i].n <= k.n)
    requires forall j :: 0 <= j < i ==> ks[j].n > k.n
    ensures var t := ks[..i] + [k] + ks[i..]; NewestFirst(t) && multiset(t) == multiset(ks) + multiset{k}
  {
    var t := ks[..i] + [k] + ks[i..];
    forall a, b | 0 <= a < b < |t| ensures t[a].n >= t[b].n {
      assert t[a] == if a < i then ks[a] else if a == i then k else ks[a - 1];
      assert t[b] == if b < i then ks[b] else if b == i then k else ks[b - 1];
      if b > i && i < |ks| { assert ks[i].n >= ks[b - 1].n; }
    }
    assert ks == ks[..i] + ks[i..];
  }

  method SortNewestFirst(found: seq<Numbered>) returns (t: seq<Numbered>)
    ensures NewestFirst(t) && multiset(t) == multiset(found)
  {
    t := [];
    for i := 0 to |found|
      invariant NewestFirst(t) && multiset(t) == multiset(found[..i])
    {
      assert found[..i + 1] == found[..i] + [found[i]];
      t := InsertKey(t, found[i]);
    }
    assert found[..|found|] == found;
  }

  /** The ring a key list and the legacy secret make: the legacy key is always last. */
  ghost predicate IsRing(ring: seq<Key>, env: seq<string>, legacy: string)
  {
    && ring != [] && ring[|ring| - 1] == Key("", legacy)
    && (forall i :: 0 <= i < |ring| - 1 ==> exists k :: k in Found(env) && k.key == ring[i])
    && (forall k :: k in Found(env) ==> k.key in ring[..|ring| - 1])
    && (|ring| > 1 ==> exists k :: k in Found(env) && k.key == ring[0] && forall q :: q in Found(env) ==> q.n <= k.n)
  }

  method KeysOf(sorted: seq<Numbered>) returns (numbered: seq<Key>)
    ensures |numbered| == |sorted| && forall j :: 0 <= j < |sorted| ==> numbered[j] == sorted[j].key
  {
    numbered := [];
    for i := 0 to |sorted|
      invariant |numbered| == i && forall j :: 0 <= j < i ==> numbered[j] == sorted[j].key
    {
      numbered := numbered + [sorted[i].key];
    }
  }

  /** Every numbered key and the legacy one verify; the highest number, or else the legacy key, signs. */
  method LoadJWTKeyring(env: seq<string>, legacy: string) returns (ring: seq<Key>, signing: Key)
    ensures IsRing(ring, env, legacy) && signing == ring[0]
  {
    var found := CollectKeys(env);
    var sorted := SortNewestFirst(found);
    var numbered := KeysOf(sorted);
    SortedMakesRing(sorted, numbered, env, legacy);
    ring := numbered + [Key("", legacy)];
    signing := ring[0];
  }

  lemma SameMembers(a: seq<Numbered>, b: seq<Numbered>)
    requires multiset(a) == multiset(b)
    ensures forall k :: k in a <==> k in b
  {
    assert forall k :: k in a <==> k in multiset(a);
    assert forall k :: k in b <==> k in multiset(b);
  }

  lemma SortedMakesRing(sorted: seq<Numbered>, numbered: seq<Key>, env: seq<string>, legacy: string)
    requires NewestFirst(sorted) && multiset(sorted) == multiset(Found(env))
    requires |numbered| == |sorted| && forall j :: 0 <= j < |sorted| ==> numbered[j] == sorted[j].key
    ensures IsRing(numbered + [Key("", legacy)], env, legacy)
  {
    var ring := numbered + [Key("", legacy)];
    SameMembers(sorted, Found(env));
    assert ring[..|ring| - 1] == numbered;
    forall i | 0 <= i < |numbered| ensures exists k :: k in Found(env) && k.key == ring[i] {
      assert sorted[i] in sorted;
    }
    forall k | k in Found(env) ensures k.key in numbered {
      var i :| 0 <= i < |sorted| && sorted[i] == k;
      assert numbered[i] == k.key;
    }
    if |ring| > 1 {
      assert sorted[0] in sorted;
      forall q | q in Found(env) ensures q.n <= sorted[0].n {
        var i :| 0 <= i < |sorted| && sorted[i] == q;
      }
    }
  }

  /** Every numbered key of the old environment is still set in the new one. */
  ghost predicate Keeps(env: seq<string>, later: seq<string>)
  {
    forall k :: k in Found(env) ==> k in Found(later)
  }

  /**
    Rotation logs nobody out: a token signed under one deployment's ring reads back under a later one that
    still has its numbered keys and its legacy secret, whatever new keys it adds.
   */
  lemma RotationKeepsTokens(mac: Mac, ring: seq<Key>, env: seq<string>, later: seq<Key>, laterEnv: seq<string>, legacy: string,
                            k: Kind, iat: int, jti: string, exp: int, now: int)
    requires MacOk(mac) && KindOk(k) && Bytes(jti) && now <= exp && -MAX_INT64 - 1 <= exp <= MAX_INT64
    requires IsRing(ring, env, legacy) && IsRing(later, laterEnv, legacy) && Keeps(env, laterEnv) && Bytes(ring[0].kid)
    ensures var r := Parse(mac, later, now, SignKind(mac, ring[0], k, iat, jti, exp));
            r.Some? && HoldsExactly(r.value, Claims(k, ring[0], iat, jti, exp))
  {
    if |ring| == 1 {
      assert later[|later| - 1].secret == ring[0].secret;
    } else {
      var q :| q in Found(env) && q.key == ring[0];
      assert q.key in later[..|later| - 1];
      var i :| 0 <= i < |later| - 1 && later[i] == ring[0];
    }
    EveryKindReadsBack(mac, later, ring[0], k, iat, jti, exp, now);
  }
}
