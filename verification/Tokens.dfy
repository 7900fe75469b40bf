/**
  Signed claim tokens (engines/auth.go): how a claim list is printed and signed, how it is parsed back, and the
  ring of keys a rotation leaves valid. The HMAC is a function of key and text; strings are bytes.
 */
module Tokens {
  import opened Text
  import opened TokenText

  /** Every number-and-text field is printed as key=value; the value is escaped, or plain digits or hex. */
  datatype Claim = Claim(key: string, value: string)

  /** kid is "" for the legacy key. */
  datatype Key = Key(kid: string, secret: string)

  /** HMAC-SHA256's bytes. */
  type Mac = (string, string) -> string

  ghost predicate MacOk(mac: Mac) { forall k, t :: Bytes(mac(k, t)) }

  // ---- printing ------------------------------------------------------------------------------

  function IntText(n: int): string { if n < 0 then "-" + Decimal(-n) else Decimal(n) }

  function ClaimText(c: Claim): string
    requires Bytes(c.value)
  {
    c.key + "=" + Escape(c.value)
  }

  predicate AllBytes(cs: seq<Claim>) { forall i :: 0 <= i < |cs| ==> Bytes(cs[i].value) }

  function ClaimTexts(cs: seq<Claim>): (t: seq<string>)
    requires AllBytes(cs)
    ensures |t| == |cs|
  {
    seq(|cs|, i requires 0 <= i < |cs| => ClaimText(cs[i]))
  }

  /** kidSuffix. */
  function KidClaim(signing: Key): seq<Claim> { if signing.kid == "" then [] else [Claim("kid", signing.kid)] }

  /** iat, jti, kid and exp close every claim list. */
  function Closing(signing: Key, iat: int, jti: string, exp: int): seq<Claim>
    requires Bytes(jti)
  {
    [Claim("iat", IntText(iat)), Claim("jti", Hex(jti))] + KidClaim(signing) + [Claim("exp", IntText(exp))]
  }

  /** What each kind of token says of its holder. */
  datatype Kind =
    | Session(id: string, user: string, role: string, tenant: string, loc: string, cv: int)
    | StoreDevice(session: Kind, device: string)
    | Purpose(id: string, user: string, tenant: string, purpose: string)
    | Extension(tenant: string, doctype: string)

  function KindClaims(k: Kind): seq<Claim>
  {
    match k
    case Session(id, user, role, tenant, loc, cv) =>
      [Claim("id", id), Claim("user", user), Claim("role", role), Claim("tenant", tenant), Claim("loc", loc), Claim("cv", IntText(cv))]
    case StoreDevice(session, device) => KindClaims(session) + [Claim("dev", device)]
    case Purpose(id, user, tenant, purpose) =>
      [Claim("id", id), Claim("user", user), Claim("tenant", tenant), Claim("purpose", purpose)]
    case Extension(tenant, doctype) =>
      [Claim("tenant", tenant), Claim("purpose", "extension"), Claim("scope_doctype", doctype)]
  }

  /** The values are byte strings; a device token carries a session. */
  predicate KindOk(k: Kind)
  {
    match k
    case Session(id, user, role, tenant, loc, _) => Bytes(id) && Bytes(user) && Bytes(role) && Bytes(tenant) && Bytes(loc)
    case StoreDevice(session, device) => session.Session? && KindOk(session) && Bytes(device)
    case Purpose(id, user, tenant, purpose) => Bytes(id) && Bytes(user) && Bytes(tenant) && Bytes(purpose)
    case Extension(tenant, doctype) => Bytes(tenant) && Bytes(doctype)
  }

  function Claims(k: Kind, signing: Key, iat: int, jti: string, exp: int): seq<Claim>
    requires Bytes(jti)
  {
    KindClaims(k) + Closing(signing, iat, jti, exp)
  }

  /** signClaims. */
  function Sign(mac: Mac, signing: Key, claims: string): string
    requires MacOk(mac) && Bytes(claims)
  {
    var encoded := Encode64(claims);
    encoded + "." + Hex(mac(signing.secret, encoded))
  }

  // ---- parsing -----------------------------------------------------------------------------------

  predicate Verifies(mac: Mac, ring: seq<Key>, encoded: string, signature: string)
    requires MacOk(mac)
  {
    exists i :: 0 <= i < |ring| && signature == Hex(mac(ring[i].secret, encoded))
  }

  function Or(o: Option<string>, raw: string): string { match o case Some(v) => v case None => raw }

  /** One pair: split at the first "=", the value unescaped, or kept when it cannot be. */
  function AddPair(m: map<string, string>, pair: string): map<string, string>
  {
    var eq := IndexOf(pair, '=');
    if eq == |pair| then m else m[pair[..eq] := Or(Unescape(pair[eq + 1..]), pair[eq + 1..])]
  }

  function AddPairs(pairs: seq<string>): map<string, string>
  {
    if pairs == [] then map[] else AddPair(AddPairs(pairs[..|pairs| - 1]), pairs[|pairs| - 1])
  }

  const MAX_INT64 := 0x7fff_ffff_ffff_ffff

  /** strconv.ParseInt, base 10, 64 bits. */
  function ParseInt(s: string): Option<int>
  {
    var signed := s != "" && s[0] in "+-";
    var digits := if signed then s[1..] else s;
    if digits == "" || !AllDigits(digits) then None
    else
      var n: int := DecimalValue(digits);
      if signed && s[0] == '-' then (if n > MAX_INT64 + 1 then None else Some(-n))
      else if n > MAX_INT64 then None else Some(n)
  }

  /** The claims, unless there is no expiry, an unreadable one, or one that has passed. */
  function Unexpired(claims: map<string, string>, now: int): Option<map<string, string>>
  {
    if "exp" !in claims then None
    else match ParseInt(claims["exp"])
      case None => None
      case Some(exp) => if now > exp then None else Some(claims)
  }

  function Parse(mac: Mac, ring: seq<Key>, now: int, token: string): Option<map<string, string>>
    requires MacOk(mac)
  {
    var parts := Split(token, '.');
    if |parts| != 2 || !Verifies(mac, ring, parts[0], parts[1]) then None
    else match Decode64(parts[0])
      case None => None
      case Some(claims) => Unexpired(AddPairs(Split(claims, '&')), now)
  }

  // ---- a printed claim list reads back ----------------------------------------------------------------

  ghost predicate PlainKeys(cs: seq<Claim>)
  {
    && (forall i :: 0 <= i < |cs| ==> '=' !in cs[i].key && '&' !in cs[i].key && Bytes(cs[i].key))
    && (forall i, j :: 0 <= i < j < |cs| ==> cs[i].key != cs[j].key)
  }

  /** The claims as the token's reader should see them. */
  function ClaimMap(cs: seq<Claim>): map<string, string>
  {
    if cs == [] then map[] else ClaimMap(cs[..|cs| - 1])[cs[|cs| - 1].key := cs[|cs| - 1].value]
  }

  lemma PairReadsBack(m: map<string, string>, c: Claim)
    requires Bytes(c.value) && '=' !in c.key
    ensures AddPair(m, ClaimText(c)) == m[c.key := c.value]
  {
    IndexOfConcat(c.key, '=', Escape(c.value));
    EscapeRoundTrip(c.value);
    var pair := ClaimText(c);
    assert pair == c.key + ['='] + Escape(c.value);
    assert pair[..|c.key|] == c.key && pair[|c.key| + 1..] == Escape(c.value);
  }

  lemma {:induction false} PairsReadBack(cs: seq<Claim>)
    requires AllBytes(cs) && PlainKeys(cs)
    ensures AddPairs(ClaimTexts(cs)) == ClaimMap(cs)
  {
    if cs != [] {
      var n := |cs| - 1;
      PairsReadBack(cs[..n]);
      assert ClaimTexts(cs)[..n] == ClaimTexts(cs[..n]);
      PairReadsBack(ClaimMap(cs[..n]), cs[n]);
    }
  }

  lemma ClaimTextIsOnePair(c: Claim)
    requires Bytes(c.value) && '&' !in c.key && Bytes(c.key)
    ensures '&' !in ClaimText(c) && Bytes(ClaimText(c))
  {
    EscapedIsInert(c.value, '&');
    EscapedIsBytes(c.value);
  }

  lemma {:induction false} EscapedIsBytes(s: string)
    requires Bytes(s)
    ensures Bytes(Escape(s))
  {
    assert forall d: nat :: d < 16 ==> IsByte(HexDigit(d));
    if s != [] { EscapedIsBytes(s[1..]); }
  }

  lemma ClaimsSplitBack(cs: seq<Claim>)
    requires cs != [] && AllBytes(cs) && PlainKeys(cs)
    ensures Split(Join(ClaimTexts(cs), '&'), '&') == ClaimTexts(cs)
    ensures Bytes(Join(ClaimTexts(cs), '&'))
  {
    forall i | 0 <= i < |cs| ensures '&' !in ClaimTexts(cs)[i] && Bytes(ClaimTexts(cs)[i]) { ClaimTextIsOnePair(cs[i]); }
    SplitJoin(ClaimTexts(cs), '&');
    JoinIsBytes(ClaimTexts(cs));
  }

  lemma {:induction false} JoinIsBytes(ts: seq<string>)
    requires forall i :: 0 <= i < |ts| ==> Bytes(ts[i])
    ensures Bytes(Join(ts, '&'))
  {
    if |ts| > 1 { JoinIsBytes(ts[1..]); }
  }

  /** The claims line of a token: every claim, and its expiry among them. */
  function Line(cs: seq<Claim>): string
    requires AllBytes(cs)
  {
    Join(ClaimTexts(cs), '&')
  }

  lemma TokenSplitsInTwo(mac: Mac, signing: Key, claims: string)
    requires MacOk(mac) && Bytes(claims)
    ensures Split(Sign(mac, signing, claims), '.') == [Encode64(claims), Hex(mac(signing.secret, Encode64(claims)))]
  {
    var encoded := Encode64(claims);
    var signature := Hex(mac(signing.secret, encoded));
    EncodedAlphabet(claims);
    HexIsPlain(mac(signing.secret, encoded));
    assert '.' !in encoded;
    assert '.' !in signature;
    var parts := [encoded, signature];
    assert Join(parts, '.') == Sign(mac, signing, claims) by { assert parts[1..] == [signature]; }
    SplitJoin(parts, '.');
  }

  /** What a reader makes of a signed claim list: nothing if no key signs it, else exactly its claims. */
  lemma ParseOfSigned(mac: Mac, ring: seq<Key>, signing: Key, now: int, cs: seq<Claim>)
    requires MacOk(mac) && cs != [] && AllBytes(cs) && PlainKeys(cs)
    ensures Bytes(Line(cs))
    ensures var encoded := Encode64(Line(cs));
            Parse(mac, ring, now, Sign(mac, signing, Line(cs))) ==
              if Verifies(mac, ring, encoded, Hex(mac(signing.secret, encoded))) then Unexpired(ClaimMap(cs), now) else None
  {
    ClaimsSplitBack(cs);
    PairsReadBack(cs);
    TokenSplitsInTwo(mac, signing, Line(cs));
    Base64RoundTrip(Line(cs));
  }

  /** Each claim is there under its own key, and there is no other. */
  lemma {:induction false} ClaimMapIsExact(cs: seq<Claim>)
    requires PlainKeys(cs)
    ensures forall i :: 0 <= i < |cs| ==> cs[i].key in ClaimMap(cs) && ClaimMap(cs)[cs[i].key] == cs[i].value
    ensures forall key :: key in ClaimMap(cs) ==> exists i :: 0 <= i < |cs| && cs[i].key == key
  {
    if cs != [] {
      var n := |cs| - 1;
      ClaimMapIsExact(cs[..n]);
      assert forall i :: 0 <= i < n ==> cs[..n][i] == cs[i];
      assert cs[n].key in ClaimMap(cs);
      forall key | key in ClaimMap(cs) ensures exists i :: 0 <= i < |cs| && cs[i].key == key {
        if key != cs[n].key {
          var i :| 0 <= i < n && cs[..n][i].key == key;
          assert cs[i].key == key;
        }
      }
    }
  }

  ghost predicate HoldsExactly(m: map<string, string>, cs: seq<Claim>)
  {
    && (forall i :: 0 <= i < |cs| ==> cs[i].key in m && m[cs[i].key] == cs[i].value)
    && (forall key :: key in m ==> exists i :: 0 <= i < |cs| && cs[i].key == key)
  }

  /**
    Whatever the values are, no value adds or overrides another claim: a token reads back as exactly the claims put
    in, and it reads back exactly when a key of the ring signs it the same and its time has not passed.
   */
  lemma TokenReadsBackExactlyWhen(mac: Mac, ring: seq<Key>, signing: Key, now: int, cs: seq<Claim>, exp: int)
    requires MacOk(mac) && AllBytes(cs) && PlainKeys(cs) && -MAX_INT64 - 1 <= exp <= MAX_INT64
    requires cs != [] && cs[|cs| - 1] == Claim("exp", IntText(exp))
    ensures Bytes(Line(cs))
    ensures var r := Parse(mac, ring, now, Sign(mac, signing, Line(cs)));
            var encoded := Encode64(Line(cs));
            && (r.Some? <==> now <= exp && Verifies(mac, ring, encoded, Hex(mac(signing.secret, encoded))))
            && (r.Some? ==> HoldsExactly(r.value, cs))
  {
    ParseOfSigned(mac, ring, signing, now, cs);
    ClaimMapIsExact(cs);
    IntRoundTrip(exp);
  }

  /** A key still in the ring verifies whatever it signed. */
  lemma RingKeyVerifies(mac: Mac, ring: seq<Key>, signing: Key, encoded: string)
    requires MacOk(mac) && exists i :: 0 <= i < |ring| && ring[i].secret == signing.secret
    ensures Verifies(mac, ring, encoded, Hex(mac(signing.secret, encoded)))
  {
    var i :| 0 <= i < |ring| && ring[i].secret == signing.secret;
    assert Hex(mac(signing.secret, encoded)) == Hex(mac(ring[i].secret, encoded));
  }

  lemma IntRoundTrip(n: int)
    requires -MAX_INT64 - 1 <= n <= MAX_INT64
    ensures ParseInt(IntText(n)) == Some(n)
  {
    if n < 0 {
      DecimalRoundTrip(-n);
      assert IntText(n)[1..] == Decimal(-n);
    } else {
      DecimalRoundTrip(n);
      assert IsDigit(Decimal(n)[0]);
    }
  }

  lemma DigitsAreBytes(s: string)
    requires AllDigits(s)
    ensures Bytes(s) && Bytes("-" + s)
  {
    forall i | 0 <= i < |s| ensures IsByte(s[i]) { assert IsDigit(s[i]); }
  }

  lemma IntIsBytes(n: int)
    ensures Bytes(IntText(n))
  {
    DigitsAreBytes(Decimal(if n < 0 then -n else n));
  }

  /** Numbers and the token id are printed without escaping; escaping would not change them. */
  lemma PlainFieldsNeedNoEscape(n: int, jti: string)
    requires Bytes(jti)
    ensures Bytes(IntText(n)) && Escape(IntText(n)) == IntText(n)
    ensures Bytes(Hex(jti)) && Escape(Hex(jti)) == Hex(jti)
  {
    var digits := Decimal(if n < 0 then -n else n);
    assert forall i :: 0 <= i < |IntText(n)| ==> IntText(n)[i] == '-' || IsDigit(IntText(n)[i]);
    PlainIsItsOwnEscape(IntText(n));
    HexIsPlain(jti);
    PlainIsItsOwnEscape(Hex(jti));
  }

  // ---- the kinds of token -------------------------------------------------------------------------

  /** Length and first letter tell all the keys in use apart. */
  function Code(key: string): nat { if key == "" then 0 else |key| * 1000 + key[0] as int }

  ghost predicate Coded(cs: seq<Claim>, codes: seq<nat>)
  {
    && |cs| == |codes|
    && (forall i :: 0 <= i < |cs| ==> '=' !in cs[i].key && '&' !in cs[i].key && Bytes(cs[i].key) && Bytes(cs[i].value))
    && (forall i :: 0 <= i < |cs| ==> Code(cs[i].key) == codes[i])
  }

  lemma CodedIsPlain(a: seq<Claim>, b: seq<Claim>, ka: seq<nat>, kb: seq<nat>)
    requires Coded(a, ka) && Coded(b, kb)
    requires AllDiffer(ka) && AllDiffer(kb) && forall x :: x in ka ==> x !in kb
    ensures AllBytes(a + b) && PlainKeys(a + b)
  {
    var cs := a + b;
    forall i, j | 0 <= i < j < |cs| ensures cs[i].key != cs[j].key {
      if i < |a| <= j { assert ka[i] in ka; }
    }
  }

  const CLOSING := [3105, 3106, 3101]
  const CLOSING_KID := [3105, 3106, 3107, 3101]

  lemma ClosingCodes(signing: Key, iat: int, jti: string, exp: int)
    requires Bytes(jti) && Bytes(signing.kid)
    ensures var c := Closing(signing, iat, jti, exp);
            Coded(c, ClosingCodesOf(signing)) && c[|c| - 1] == Claim("exp", IntText(exp))
  {
    IntIsBytes(iat);
    IntIsBytes(exp);
    HexIsPlain(jti);
    ClosingKeyCodes();
  }

  lemma ClosingKeyCodes()
    ensures Code("iat") == 3105 && Code("jti") == 3106 && Code("kid") == 3107 && Code("exp") == 3101
  {
  }

  function KindCodes(k: Kind): seq<nat>
  {
    match k
    case Session(_, _, _, _, _, _) => [2105, 4117, 4114, 6116, 3108, 2099]
    case StoreDevice(session, _) => [2105, 4117, 4114, 6116, 3108, 2099, 3100]
    case Purpose(_, _, _, _) => [2105, 4117, 6116, 7112]
    case Extension(_, _) => [6116, 7112, 13115]
  }

  lemma SessionCodes(k: Kind)
    requires KindOk(k) && k.Session?
    ensures Coded(KindClaims(k), KindCodes(k))
  {
    IntIsBytes(k.cv);
    assert Code("id") == 2105 && Code("user") == 4117 && Code("role") == 4114;
    assert Code("tenant") == 6116 && Code("loc") == 3108 && Code("cv") == 2099;
  }

  lemma DeviceCodes(k: Kind)
    requires KindOk(k) && k.StoreDevice?
    ensures Coded(KindClaims(k), KindCodes(k))
  {
    SessionCodes(k.session);
    assert Code("dev") == 3100;
    assert KindCodes(k) == KindCodes(k.session) + [3100];
  }

  lemma PurposeCodes(k: Kind)
    requires KindOk(k) && k.Purpose?
    ensures Coded(KindClaims(k), KindCodes(k))
  {
    assert Code("id") == 2105 && Code("user") == 4117 && Code("tenant") == 6116 && Code("purpose") == 7112;
  }

  lemma ExtensionCodes(k: Kind)
    requires KindOk(k) && k.Extension?
    ensures Coded(KindClaims(k), KindCodes(k))
  {
    HighCodes();
    assert Code("tenant") == 6116;
  }

  function ClosingCodesOf(signing: Key): seq<nat> { if signing.kid == "" then CLOSING else CLOSING_KID }

  ghost predicate AllDiffer(codes: seq<nat>) { forall i, j :: 0 <= i < j < |codes| ==> codes[i] != codes[j] }

  lemma CodesDiffer(k: Kind, signing: Key)
    ensures AllDiffer(KindCodes(k)) && AllDiffer(ClosingCodesOf(signing))
    ensures forall x :: x in KindCodes(k) ==> x !in ClosingCodesOf(signing)
  {
  }

  lemma KindIsCoded(k: Kind)
    requires KindOk(k)
    ensures Coded(KindClaims(k), KindCodes(k))
  {
    match k
    case Session(_, _, _, _, _, _) => SessionCodes(k);
    case StoreDevice(_, _) => DeviceCodes(k);
    case Purpose(_, _, _, _) => PurposeCodes(k);
    case Extension(_, _) => ExtensionCodes(k);
  }

  lemma KindIsPlain(k: Kind, signing: Key, iat: int, jti: string, exp: int)
    requires KindOk(k) && Bytes(jti) && Bytes(signing.kid)
    ensures var cs := Claims(k, signing, iat, jti, exp);
            AllBytes(cs) && PlainKeys(cs) && cs[|cs| - 1] == Claim("exp", IntText(exp))
  {
    KindIsCoded(k);
    ClosingCodes(signing, iat, jti, exp);
    CodesDiffer(k, signing);
    CodedIsPlain(KindClaims(k), Closing(signing, iat, jti, exp), KindCodes(k), ClosingCodesOf(signing));
  }

  /** SignToken, SignStoreDeviceToken, SignPurposeToken and SignExtensionToken. */
  function SignKind(mac: Mac, signing: Key, k: Kind, iat: int, jti: string, exp: int): string
    requires MacOk(mac) && KindOk(k) && Bytes(jti) && Bytes(signing.kid)
  {
    KindIsPlain(k, signing, iat, jti, exp);
    ClaimsSplitBack(Claims(k, signing, iat, jti, exp));
    Sign(mac, signing, Line(Claims(k, signing, iat, jti, exp)))
  }

  /** Under any key still in the ring, an unexpired token of any kind gives back exactly what it was made with. */
  lemma EveryKindReadsBack(mac: Mac, ring: seq<Key>, signing: Key, k: Kind, iat: int, jti: string, exp: int, now: int)
    requires MacOk(mac) && KindOk(k) && Bytes(jti) && Bytes(signing.kid) && now <= exp && -MAX_INT64 - 1 <= exp <= MAX_INT64
    requires exists i :: 0 <= i < |ring| && ring[i].secret == signing.secret
    ensures var r := Parse(mac, ring, now, SignKind(mac, signing, k, iat, jti, exp));
            r.Some? && HoldsExactly(r.value, Claims(k, signing, iat, jti, exp))
  {
    var cs := Claims(k, signing, iat, jti, exp);
    KindIsPlain(k, signing, iat, jti, exp);
    TokenReadsBackExactlyWhen(mac, ring, signing, now, cs, exp);
    RingKeyVerifies(mac, ring, signing, Encode64(Line(cs)));
  }

  /** In particular no username, location or tenant can set a role or a purpose. */
  lemma SessionKeepsItsRole(mac: Mac, ring: seq<Key>, signing: Key, k: Kind, iat: int, jti: string, exp: int, now: int)
    requires MacOk(mac) && KindOk(k) && k.Session? && Bytes(jti) && Bytes(signing.kid)
    requires now <= exp && -MAX_INT64 - 1 <= exp <= MAX_INT64
    requires exists i :: 0 <= i < |ring| && ring[i].secret == signing.secret
    ensures var r := Parse(mac, ring, now, SignKind(mac, signing, k, iat, jti, exp));
            r.Some? && "role" in r.value && r.value["role"] == k.role && "purpose" !in r.value && "scope_doctype" !in r.value
  {
    EveryKindReadsBack(mac, ring, signing, k, iat, jti, exp, now);
    RoleClaim(k, signing, iat, jti, exp);
    HighCodes();
    SessionHasNoKey(k, signing, iat, jti, exp, "purpose");
    SessionHasNoKey(k, signing, iat, jti, exp, "scope_doctype");
  }

  lemma RoleClaim(k: Kind, signing: Key, iat: int, jti: string, exp: int)
    requires k.Session? && Bytes(jti)
    ensures var cs := Claims(k, signing, iat, jti, exp);
            |cs| > 2 && cs[2].key == "role" && cs[2].value == k.role
  {
  }

  lemma HighCodes()
    ensures Code("purpose") == 7112 && Code("scope_doctype") == 13115
  {
  }

  lemma SessionHasNoKey(k: Kind, signing: Key, iat: int, jti: string, exp: int, key: string)
    requires KindOk(k) && k.Session? && Bytes(jti) && Bytes(signing.kid) && Code(key) > 7000
    ensures forall i :: 0 <= i < |Claims(k, signing, iat, jti, exp)| ==> Claims(k, signing, iat, jti, exp)[i].key != key
  {
    KindIsCoded(k);
    ClosingCodes(signing, iat, jti, exp);
    SessionHasNoCode(k, signing, Code(key));
    NoSuchKey(KindClaims(k), Closing(signing, iat, jti, exp), KindCodes(k), ClosingCodesOf(signing), key);
  }

  lemma SessionHasNoCode(k: Kind, signing: Key, code: nat)
    requires k.Session? && code > 7000
    ensures code !in KindCodes(k) && code !in ClosingCodesOf(signing)
  {
  }

  lemma NoSuchKey(a: seq<Claim>, b: seq<Claim>, ka: seq<nat>, kb: seq<nat>, key: string)
    requires Coded(a, ka) && Coded(b, kb) && Code(key) !in ka && Code(key) !in kb
    ensures forall i :: 0 <= i < |a + b| ==> (a + b)[i].key != key
  {
    forall i | 0 <= i < |a + b| ensures (a + b)[i].key != key {
      assert if i < |a| then ka[i] in ka else kb[i - |a|] in kb;
    }
  }
}
