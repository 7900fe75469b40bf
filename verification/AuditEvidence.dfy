/**
  Independently signed audit rows and sealed checkpoint windows
  (engines/audit_evidence.go). The HMAC, SHA-256 and the archive's
  JSON + gzip + AES pipeline are functions of a Platform value: nothing about
  them is used except what a lemma names in its requires.
 */
module AuditEvidence {
  import opened Text

  type Key = string

  const SIG_VERSION := "v2-hmac-sha256"
  const SIG_VERSION_JWT := "v1-hmac-sha256"

  /** One audit_logs row; "" stands for a NULL text column, as COALESCE reads it. */
  datatype Row = Row(id: string, seqNo: nat, userID: string, action: string, status: string, details: string,
                     entityType: string, entityID: string, correlationID: string, createdAt: int,
                     signature: string, sigVersion: string, checksum: string, sigKey: string)

  /** The decrypted content of one archive file. */
  datatype Manifest = Manifest(checkpointId: nat, fromSeq: nat, toSeq: nat, rowCount: nat, unsignedCount: nat,
                               rowDigest: string, sigVersion: string, createdAt: int, rows: seq<Row>)

  /** mac and sha print hex; stamp prints an instant as RFC 3339; seal takes a fresh nonce. */
  datatype Platform = Platform(mac: (Key, string) -> string, sha: string -> string, stamp: int -> string,
                               fingerprint: Key -> string,
                               seal: (string, Manifest) -> string, open: string -> Option<Manifest>)

  /** What the archive and the verifier rely on: sealing can be undone, a MAC is never empty. */
  ghost predicate Sound(p: Platform)
  {
    && (forall nonce, m :: p.open(p.seal(nonce, m)) == Some(m))
    && (forall k, text :: p.mac(k, text) != "")
  }

  // ---- length-prefixed framing -------------------------------------------

  function Frame(field: string): string { Decimal(|field|) + ":" + field + "|" }

  function FrameAll(fields: seq<string>): string
  {
    if fields == [] then "" else Frame(fields[0]) + FrameAll(fields[1..])
  }

  /** A frame followed by anything determines both its field and what follows. */
  lemma FrameSplits(f: string, g: string, restF: string, restG: string)
    requires Frame(f) + restF == Frame(g) + restG
    ensures f == g && restF == restG
  {
    var a, b := Frame(f) + restF, Frame(g) + restG;
    var tailF, tailG := f + "|" + restF, g + "|" + restG;
    var df, dg := Decimal(|f|), Decimal(|g|);
    assert a == df + [':'] + tailF;
    assert b == dg + [':'] + tailG;
    assert ':' !in df && ':' !in dg;
    IndexOfConcat(df, ':', tailF);
    IndexOfConcat(dg, ':', tailG);
    assert df == a[..|df|] == b[..|dg|] == dg;
    assert tailF == a[|df| + 1..] == b[|dg| + 1..] == tailG;
    DecimalInjective(|f|, |g|);
    assert f == tailF[..|f|] == tailG[..|g|] == g;
    assert restF == tailF[|f| + 1..] == tailG[|g| + 1..] == restG;
  }

  /** The framing is uniquely decodable. */
  lemma {:induction false} FrameAllInjective(a: seq<string>, b: seq<string>)
    requires FrameAll(a) == FrameAll(b)
    ensures a == b
  {
    if a != [] && b != [] {
      FrameSplits(a[0], b[0], FrameAll(a[1..]), FrameAll(b[1..]));
      FrameAllInjective(a[1..], b[1..]);
      assert a == [a[0]] + a[1..] && b == [b[0]] + b[1..];
    }
  }

  lemma {:induction false} FrameAllConcat(a: seq<string>, b: seq<string>)
    ensures FrameAll(a + b) == FrameAll(a) + FrameAll(b)
  {
    if a == [] {
      assert a + b == b;
    } else {
      FrameAllConcat(a[1..], b);
      assert (a + b)[1..] == a[1..] + b;
    }
  }

  // ---- row signatures ------------------------------------------------------

  function SignedFields(p: Platform, version: string, tenant: string, r: Row): seq<string>
  {
    [version, tenant, r.userID, r.action, r.status, r.details, r.entityType, r.entityID, r.correlationID,
     p.stamp(r.createdAt)]
  }

  function SignRowWith(p: Platform, version: string, key: Key, tenant: string, r: Row): string
  {
    p.mac(key, FrameAll(SignedFields(p, version, tenant, r)))
  }

  ghost predicate SameSignedContent(r: Row, q: Row)
  {
    && r.userID == q.userID && r.action == q.action && r.status == q.status && r.details == q.details
    && r.entityType == q.entityType && r.entityID == q.entityID && r.correlationID == q.correlationID
    && r.createdAt == q.createdAt
  }

  /**
    Under a collision-free MAC and an injective timestamp print, two rows share a signature
    exactly when scheme, tenant and every signed column agree: no content can be shifted
    between neighbouring columns.
   */
  lemma SignatureDeterminesRow(p: Platform, key: Key, v: string, w: string, t: string, u: string, r: Row, q: Row)
    requires forall a, b :: p.mac(key, a) == p.mac(key, b) ==> a == b
    requires forall a, b :: p.stamp(a) == p.stamp(b) ==> a == b
    ensures SignRowWith(p, v, key, t, r) == SignRowWith(p, w, key, u, q)
            <==> v == w && t == u && SameSignedContent(r, q)
  {
    var a, b := SignedFields(p, v, t, r), SignedFields(p, w, u, q);
    if SignRowWith(p, v, key, t, r) == SignRowWith(p, w, key, u, q) {
      FrameAllInjective(a, b);
      assert forall i :: 0 <= i < 10 ==> a[i] == b[i];
      assert a[0] == b[0] && a[1] == b[1] && a[2] == b[2] && a[3] == b[3] && a[4] == b[4];
      assert a[5] == b[5] && a[6] == b[6] && a[7] == b[7] && a[8] == b[8] && a[9] == b[9];
    }
  }

  // ---- window digests --------------------------------------------------------

  /** What one row contributes to its window's digest. */
  function Token(r: Row): string { if r.signature == "" then "unsigned:" + r.id else r.signature }

  function Tokens(rows: seq<Row>): (t: seq<string>)
    ensures |t| == |rows| && forall i :: 0 <= i < |rows| ==> t[i] == Token(rows[i])
  {
    seq(|rows|, i requires 0 <= i < |rows| => Token(rows[i]))
  }

  function DigestText(rows: seq<Row>): string { FrameAll(Tokens(rows)) }

  function Digest(p: Platform, rows: seq<Row>): string { p.sha(DigestText(rows)) }

  function CountUnsigned(rows: seq<Row>): nat
  {
    if rows == [] then 0 else CountUnsigned(rows[..|rows| - 1]) + (if rows[|rows| - 1].signature == "" then 1 else 0)
  }

  /** digestSigIDPairs and countUnsigned in one pass over a window's ordered rows. */
  method DigestRange(p: Platform, rows: seq<Row>) returns (digest: string, rowCount: nat, unsignedCount: nat)
    ensures digest == Digest(p, rows) && rowCount == |rows| && unsignedCount == CountUnsigned(rows)
  {
    var text := "";
    unsignedCount := 0;
    for i := 0 to |rows|
      invariant text == DigestText(rows[..i])
      invariant unsignedCount == CountUnsigned(rows[..i])
    {
      var sig := rows[i].signature;
      if sig == "" {
        sig := "unsigned:" + rows[i].id;
        unsignedCount := unsignedCount + 1;
      }
      text := text + Frame(sig);
      assert rows[..i + 1][..i] == rows[..i];
      assert Tokens(rows[..i + 1]) == Tokens(rows[..i]) + [sig];
      FrameAllConcat(Tokens(rows[..i]), [sig]);
      assert FrameAll([sig]) == Frame(sig) + FrameAll([]);
    }
    assert rows[..|rows|] == rows;
    digest, rowCount := p.sha(text), |rows|;
  }

  predicate IsHex(s: string)
  {
    forall i :: 0 <= i < |s| ==> IsDigit(s[i]) || 'a' <= s[i] <= 'f'
  }

  ghost predicate HexSigned(rows: seq<Row>)
  {
    forall i :: 0 <= i < |rows| ==> IsHex(rows[i].signature)
  }

  /** Same length, same signatures in order, same ids where a row is unsigned. */
  ghost predicate SameEvidence(a: seq<Row>, b: seq<Row>)
  {
    && |a| == |b|
    && forall i :: 0 <= i < |a| ==>
         a[i].signature == b[i].signature && (a[i].signature == "" ==> a[i].id == b[i].id)
  }

  lemma TokenDetermines(r: Row, q: Row)
    requires IsHex(r.signature) && IsHex(q.signature)
    ensures Token(r) == Token(q) <==> r.signature == q.signature && (r.signature == "" ==> r.id == q.id)
  {
    var markR, markQ := "unsigned:" + r.id, "unsigned:" + q.id;
    assert markR[0] == markQ[0] == 'u';
    assert !IsHex(markR) && !IsHex(markQ);
    assert markR[9..] == r.id && markQ[9..] == q.id;
  }

  /**
    With hex signatures and a collision-free hash, a window's digest says exactly which ordered
    evidence it holds: every deletion, insertion or reordering moves it, and nothing else does.
   */
  lemma DigestDetectsEveryChange(p: Platform, a: seq<Row>, b: seq<Row>)
    requires HexSigned(a) && HexSigned(b)
    requires forall s, t :: p.sha(s) == p.sha(t) ==> s == t
    ensures Digest(p, a) == Digest(p, b) <==> SameEvidence(a, b)
  {
    if Digest(p, a) == Digest(p, b) {
      FrameAllInjective(Tokens(a), Tokens(b));
      assert |a| == |Tokens(a)| == |Tokens(b)| == |b|;
      forall i | 0 <= i < |a|
        ensures a[i].signature == b[i].signature && (a[i].signature == "" ==> a[i].id == b[i].id)
      {
        assert Tokens(a)[i] == Tokens(b)[i];
        TokenDetermines(a[i], b[i]);
      }
    }
    if SameEvidence(a, b) {
      assert Tokens(a) == Tokens(b);
    }
  }

  /** Without the hex hypothesis the two token shapes can meet: a row signed "unsigned:x" passes for row x. */
  lemma UnsignedMarkerCanBeForged(p: Platform, r: Row)
    ensures var forged := r.(signature := "unsigned:" + r.id);
            r.signature == "" ==> !SameEvidence([r], [forged]) && Digest(p, [r]) == Digest(p, [forged])
  {
    var forged := r.(signature := "unsigned:" + r.id);
    if r.signature == "" {
      assert |forged.signature| > 0;
      assert Tokens([r]) == Tokens([forged]);
      assert [r][0].signature != [forged][0].signature;
    }
  }
}
