/** What an accepted token proves, what each kind says of its holder, and which environment entries are keys (engines/auth.go). */
module TokenAnswers {
  import opened Text
  import opened TokenText
  import opened Tokens
  import opened TokenRing

  // ---- an accepted token --------------------------------------------------------------------

  lemma SplitInTwo(s: string, sep: char)
    requires |Split(s, sep)| == 2
    ensures s == Split(s, sep)[0] + [sep] + Split(s, sep)[1]
  {
    var i := IndexOf(s, sep);
    assert i < |s|;
    assert s == s[..i] + [sep] + s[i + 1..];
    var j := IndexOf(s[i + 1..], sep);
    assert Split(s[i + 1..], sep) == [s[i + 1..]];
  }

  /** The token is a text's base64, a dot, and its MAC in hex under a key of the ring. */
  ghost predicate SignedByRing(mac: Mac, ring: seq<Key>, token: string, encoded: string)
    requires MacOk(mac)
  {
    exists k :: k in ring && token == encoded + "." + Hex(mac(k.secret, encoded))
  }

  /**
    Whatever text is accepted was signed by a key of the ring, decodes, names its expiry as a number and is read no
    later; what is read is what its pairs say.
   */
  lemma AcceptedTokenIsSigned(mac: Mac, ring: seq<Key>, now: int, token: string)
    requires MacOk(mac) && Parse(mac, ring, now, token).Some?
    ensures var claims := Parse(mac, ring, now, token).value;
            exists encoded ::
              && SignedByRing(mac, ring, token, encoded) && '.' !in encoded && Decode64(encoded).Some?
              && claims == AddPairs(Split(Decode64(encoded).value, '&'))
    ensures var claims := Parse(mac, ring, now, token).value;
            "exp" in claims && ParseInt(claims["exp"]).Some? && now <= ParseInt(claims["exp"]).value
  {
    var parts := Split(token, '.');
    SplitInTwo(token, '.');
    var i :| 0 <= i < |ring| && parts[1] == Hex(mac(ring[i].secret, parts[0]));
    assert ring[i] in ring;
    assert SignedByRing(mac, ring, token, parts[0]);
    assert '.' !in parts[0];
  }

  /** And a ring without the key, or one whose keys sign it otherwise, takes none of its tokens. */
  lemma SignedTokenIsAcceptedExactlyWhen(mac: Mac, ring: seq<Key>, signing: Key, now: int, cs: seq<Claim>, exp: int)
    requires MacOk(mac) && AllBytes(cs) && PlainKeys(cs) && -MAX_INT64 - 1 <= exp <= MAX_INT64
    requires cs != [] && cs[|cs| - 1] == Claim("exp", IntText(exp))
    ensures Bytes(Line(cs))
    ensures Parse(mac, ring, now, Sign(mac, signing, Line(cs))).Some? <==>
            now <= exp && exists k :: k in ring && Hex(mac(k.secret, Encode64(Line(cs)))) == Hex(mac(signing.secret, Encode64(Line(cs))))
  {
    TokenReadsBackExactlyWhen(mac, ring, signing, now, cs, exp);
    var encoded := Encode64(Line(cs));
    if k :| k in ring && Hex(mac(k.secret, encoded)) == Hex(mac(signing.secret, encoded)) {
      var i :| 0 <= i < |ring| && ring[i] == k;
      assert Verifies(mac, ring, encoded, Hex(mac(signing.secret, encoded)));
    }
    if Verifies(mac, ring, encoded, Hex(mac(signing.secret, encoded))) {
      var i :| 0 <= i < |ring| && Hex(mac(signing.secret, encoded)) == Hex(mac(ring[i].secret, encoded));
      assert ring[i] in ring;
    }
  }

  // ---- what each kind says ---------------------------------------------------------------------------

  ghost predicate Says(m: map<string, string>, key: string, value: string) { key in m && m[key] == value }

  /** The holder's fields under their own names. */
  ghost predicate SaysHolder(m: map<string, string>, k: Kind)
  {
    match k
    case Session(id, user, role, tenant, loc, cv) =>
      && Says(m, "id", id) && Says(m, "user", user) && Says(m, "role", role) && Says(m, "tenant", tenant) && Says(m, "loc", loc)
      && Says(m, "cv", IntText(cv))
    case StoreDevice(session, device) => SaysHolder(m, session) && Says(m, "dev", device)
    case Purpose(id, user, tenant, purpose) =>
      Says(m, "id", id) && Says(m, "user", user) && Says(m, "tenant", tenant) && Says(m, "purpose", purpose)
    case Extension(tenant, doctype) =>
      Says(m, "tenant", tenant) && Says(m, "purpose", "extension") && Says(m, "scope_doctype", doctype)
  }

  lemma ClaimIsSaid(m: map<string, string>, cs: seq<Claim>, i: nat)
    requires HoldsExactly(m, cs) && i < |cs|
    ensures Says(m, cs[i].key, cs[i].value)
  {
  }

  lemma {:induction false} HolderIsSaid(m: map<string, string>, k: Kind, rest: seq<Claim>)
    requires HoldsExactly(m, KindClaims(k) + rest) && KindOk(k)
    ensures SaysHolder(m, k)
  {
    var cs := KindClaims(k) + rest;
    match k
    case Session(_, _, _, _, _, _) =>
      forall i | 0 <= i < 6 ensures Says(m, KindClaims(k)[i].key, KindClaims(k)[i].value) { ClaimIsSaid(m, cs, i); }
      assert Says(m, KindClaims(k)[0].key, KindClaims(k)[0].value) && Says(m, KindClaims(k)[1].key, KindClaims(k)[1].value);
      assert Says(m, KindClaims(k)[2].key, KindClaims(k)[2].value) && Says(m, KindClaims(k)[3].key, KindClaims(k)[3].value);
      assert Says(m, KindClaims(k)[4].key, KindClaims(k)[4].value) && Says(m, KindClaims(k)[5].key, KindClaims(k)[5].value);
    case StoreDevice(session, _) =>
      assert cs == KindClaims(session) + ([Claim("dev", k.device)] + rest);
      HolderIsSaid(m, session, [Claim("dev", k.device)] + rest);
      ClaimIsSaid(m, cs, 6);
    case Purpose(_, _, _, _) =>
      ClaimIsSaid(m, cs, 0);
      ClaimIsSaid(m, cs, 1);
      ClaimIsSaid(m, cs, 2);
      ClaimIsSaid(m, cs, 3);
    case Extension(_, _) =>
      ClaimIsSaid(m, cs, 0);
      ClaimIsSaid(m, cs, 1);
      ClaimIsSaid(m, cs, 2);
  }

  /** An unexpired token of any kind, read under a key still in the ring, says its holder's fields, its key id and its expiry. */
  lemma TokenSaysItsHolder(mac: Mac, ring: seq<Key>, signing: Key, k: Kind, iat: int, jti: string, exp: int, now: int)
    requires MacOk(mac) && KindOk(k) && Bytes(jti) && Bytes(signing.kid) && now <= exp && -MAX_INT64 - 1 <= exp <= MAX_INT64
    requires exists i :: 0 <= i < |ring| && ring[i].secret == signing.secret
    ensures var r := Parse(mac, ring, now, SignKind(mac, signing, k, iat, jti, exp));
            && r.Some? && SaysHolder(r.value, k) && Says(r.value, "exp", IntText(exp))
            && (signing.kid != "" ==> Says(r.value, "kid", signing.kid))
  {
    var cs := Claims(k, signing, iat, jti, exp);
    EveryKindReadsBack(mac, ring, signing, k, iat, jti, exp, now);
    var m := Parse(mac, ring, now, SignKind(mac, signing, k, iat, jti, exp)).value;
    HolderIsSaid(m, k, Closing(signing, iat, jti, exp));
    ClaimIsSaid(m, cs, |cs| - 1);
    if signing.kid != "" {
      assert cs[|cs| - 2] == Claim("kid", signing.kid);
      ClaimIsSaid(m, cs, |cs| - 2);
    }
  }

  // ---- the environment's keys ----------------------------------------------------------------------

  ghost predicate IsKeyEntry(kv: string, n: int, kid: string, secret: string)
  {
    kv == "JWT_SECRET_" + kid + "=" + secret && '=' !in kid && secret != "" && n > 0 && ParseInt(kid) == Some(n)
  }

  lemma SplitEntry(kid: string, secret: string)
    requires '=' !in kid
    ensures var kv, name := "JWT_SECRET_" + kid + "=" + secret, "JWT_SECRET_" + kid;
            IndexOf(kv, '=') == |name| && kv[..|name|] == name && kv[|name| + 1..] == secret && name[|"JWT_SECRET_"|..] == kid
  {
    var name := "JWT_SECRET_" + kid;
    assert forall i :: 0 <= i < |"JWT_SECRET_"| ==> "JWT_SECRET_"[i] != '=';
    assert '=' !in name;
    assert "JWT_SECRET_" + kid + "=" + secret == name + ['='] + secret;
    IndexOfConcat(name, '=', secret);
  }

  lemma KeyEntryGivesItsKey(kv: string, n: int, kid: string, secret: string)
    requires IsKeyEntry(kv, n, kid, secret)
    ensures EntryKey(kv) == Some(Numbered(n, Key(kid, secret)))
  {
    SplitEntry(kid, secret);
  }

  lemma KeyComesFromItsEntry(kv: string, n: int, kid: string, secret: string)
    requires EntryKey(kv) == Some(Numbered(n, Key(kid, secret)))
    ensures IsKeyEntry(kv, n, kid, secret)
  {
    var eq := IndexOf(kv, '=');
    var name := kv[..eq];
    assert name == "JWT_SECRET_" + kid;
    assert kv == name + "=" + secret;
    forall i | 0 <= i < |kid| ensures kid[i] != '=' { assert kid[i] == kv[|"JWT_SECRET_"| + i]; }
  }

  /** An environment entry is a key exactly when it is JWT_SECRET_<n>=<secret> with a positive number and a secret. */
  lemma EntryIsKeyExactlyWhen(kv: string, n: int, kid: string, secret: string)
    ensures EntryKey(kv) == Some(Numbered(n, Key(kid, secret))) <==>
            kv == "JWT_SECRET_" + kid + "=" + secret && '=' !in kid && secret != "" && n > 0 && ParseInt(kid) == Some(n)
  {
    if IsKeyEntry(kv, n, kid, secret) { KeyEntryGivesItsKey(kv, n, kid, secret); }
    if EntryKey(kv) == Some(Numbered(n, Key(kid, secret))) { KeyComesFromItsEntry(kv, n, kid, secret); }
  }

  ghost predicate Somewhere(env: seq<string>, good: string -> bool)
  {
    exists i :: 0 <= i < |env| && good(env[i])
  }

  lemma OneMorePlace(env: seq<string>, good: string -> bool)
    requires env != []
    ensures Somewhere(env, good) <==> Somewhere(env[..|env| - 1], good) || good(env[|env| - 1])
  {
    var init := env[..|env| - 1];
    if i :| 0 <= i < |init| && good(init[i]) { assert good(env[i]); }
    if i :| 0 <= i < |env| && good(env[i]) { if i < |init| { assert good(init[i]); } }
  }

  /** The keys found are those of the entries, whatever order they stand in. */
  lemma {:induction false} FoundAreTheEntries(env: seq<string>, k: Numbered)
    ensures k in Found(env) <==> Somewhere(env, kv => EntryKey(kv) == Some(k))
  {
    if env != [] {
      FoundAreTheEntries(env[..|env| - 1], k);
      OneMoreEntry(env, k);
      OneMorePlace(env, kv => EntryKey(kv) == Some(k));
    }
  }

  lemma OneMoreEntry(env: seq<string>, k: Numbered)
    requires env != []
    ensures k in Found(env) <==> k in Found(env[..|env| - 1]) || EntryKey(env[|env| - 1]) == Some(k)
  {
  }
}
