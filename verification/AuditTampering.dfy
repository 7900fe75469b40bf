/**
  What VerifyAuditEvidence says of tables anyone may have edited (engines/audit_evidence.go): which rows and
  checkpoints a report calls intact, said of keys, MACs and columns, and which edits of a reachable state it reports.
 */
module AuditTampering {
  import opened Text
  import opened AuditEvidence
  import opened AuditLog
  import opened AuditLogInvariant
  import opened AuditLogTheorems
  import opened AuditStore

  // ---- what a report claims ----------------------------------------------------------------

  /** The keys a scheme's signatures may come from; no scheme but the two has any. */
  ghost function RingOf(db: Db, version: string): seq<Key>
  {
    if version == "v2-hmac-sha256" then db.keys else if version == "v1-hmac-sha256" then db.jwtKeys else []
  }

  /** The text's MAC under some key of the ring is the signature. */
  ghost predicate SignedUnder(p: Platform, ring: seq<Key>, text: string, sig: string)
  {
    exists k :: k in ring && p.mac(k, text) == sig
  }

  /** Some key of its scheme signs the row as it stands. */
  ghost predicate Genuine(p: Platform, db: Db, r: Row)
  {
    SignedUnder(p, RingOf(db, r.sigVersion), FrameAll(SignedFields(p, r.sigVersion, db.tenant, r)), r.signature)
  }

  /** Named by a fingerprint none of its scheme's keys has. */
  ghost predicate KeyMissing(p: Platform, db: Db, r: Row)
  {
    r.sigKey != "" && forall k :: k in RingOf(db, r.sigVersion) ==> p.fingerprint(k) != r.sigKey
  }

  /** Unsigned rows and rows of another scheme are not checked; every other one must be genuine. */
  ghost predicate RowPasses(p: Platform, db: Db, r: Row)
  {
    r.signature != "" && RingOf(db, r.sigVersion) != [] ==> Genuine(p, db, r)
  }

  /** The archive its checkpoint names: its own, its file untouched, signed, and holding what the checkpoint states. */
  ghost predicate ArchivePasses(p: Platform, db: Db, i: nat, a: Archive)
    requires i < |db.checkpoints|
  {
    var c := db.checkpoints[i];
    && a.checkpointId == i && a.path in db.files && p.sha(db.files[a.path]) == a.fileSha
    && (RingOf(db, a.sigVersion) != [] ==> SignedUnder(p, RingOf(db, a.sigVersion), ManifestText(db.tenant, a), a.sig))
    && a.digest == c.digest && a.rowCount == c.rowCount && a.unsignedCount == c.unsignedCount
    && p.open(db.files[a.path]).Some?
    && HoldsAs(p, p.open(db.files[a.path]).value.rows, c)
  }

  /** The rows are as many, as unsigned and of the digest the checkpoint states. */
  ghost predicate HoldsAs(p: Platform, rows: seq<Row>, c: Checkpoint)
  {
    Digest(p, rows) == c.digest && |rows| == c.rowCount && CountUnsigned(rows) == c.unsignedCount
  }

  /** Signed by a key of its scheme, and its window, live or archived, is as it states; other schemes are not checked. */
  ghost predicate CheckpointPasses(p: Platform, db: Db, i: nat)
    requires i < |db.checkpoints|
  {
    var c := db.checkpoints[i];
    RingOf(db, c.sigVersion) != [] ==>
      && SignedUnder(p, RingOf(db, c.sigVersion),
                     CheckpointText(c.sigVersion, db.tenant, c.fromSeq, c.toSeq, c.rowCount, c.unsignedCount, c.digest,
                                    c.prevSig), c.sig)
      && match c.archiveId
         case None => HoldsAs(p, RowsIn(db.live, c.fromSeq, c.toSeq), c)
         case Some(id) => id in db.archives && ArchivePasses(p, db, i, db.archives[id])
  }

  lemma MacMatchesIs(p: Platform, db: Db, version: string, sig: string, text: string)
    ensures VerifyKeys(db, version) == RingOf(db, version)
    ensures MacMatches(p, RingOf(db, version), sig, text) <==> SignedUnder(p, RingOf(db, version), text, sig)
  {
    var ring := RingOf(db, version);
    if SignedUnder(p, ring, text, sig) {
      var k :| k in ring && p.mac(k, text) == sig;
      var i :| 0 <= i < |ring| && ring[i] == k;
      assert p.mac(ring[i], text) == sig;
    }
    if MacMatches(p, ring, sig, text) {
      var i :| 0 <= i < |ring| && p.mac(ring[i], text) == sig;
      assert ring[i] in ring;
    }
  }

  /** Each verdict on a row, in the words of its columns and the keys. */
  lemma RowVerdictMeans(p: Platform, db: Db, r: Row)
    ensures var v := CheckRow(p, db, r);
            && (v == Unsigned <==> r.signature == "")
            && (v == OutOfScheme <==> r.signature != "" && RingOf(db, r.sigVersion) == [])
            && (v == RowVerified <==> r.signature != "" && Genuine(p, db, r))
            && (v == RowKeyMissing <==> !RowPasses(p, db, r) && KeyMissing(p, db, r))
            && (v == Tampered <==> !RowPasses(p, db, r) && !KeyMissing(p, db, r))
  {
    var ring := RingOf(db, r.sigVersion);
    MacMatchesIs(p, db, r.sigVersion, r.signature, FrameAll(SignedFields(p, r.sigVersion, db.tenant, r)));
    if exists k :: k in ring && p.fingerprint(k) == r.sigKey {
      var k :| k in ring && p.fingerprint(k) == r.sigKey;
      var i :| 0 <= i < |ring| && ring[i] == k;
      assert KeyLoaded(p, ring, r.sigKey);
    } else {
      assert !KeyLoaded(p, ring, r.sigKey);
    }
  }

  lemma CheckpointVerdictMeans(p: Platform, db: Db, i: nat)
    requires i < |db.checkpoints|
    ensures var v := CheckCheckpoint(p, db, i);
            && (v == Skipped <==> RingOf(db, db.checkpoints[i].sigVersion) == [])
            && (v in {Skipped, Verified} <==> CheckpointPasses(p, db, i))
  {
    var c := db.checkpoints[i];
    MacMatchesIs(p, db, c.sigVersion, c.sig, CheckpointText(c.sigVersion, db.tenant, c.fromSeq, c.toSeq, c.rowCount,
                                                            c.unsignedCount, c.digest, c.prevSig));
    if c.archiveId.Some? && c.archiveId.value in db.archives {
      var a := db.archives[c.archiveId.value];
      MacMatchesIs(p, db, a.sigVersion, a.sig, ManifestText(db.tenant, a));
    }
  }

  /** A restore goes through its checks exactly when its archive is the one its checkpoint points at and is as recorded. */
  lemma RestoreIsStagedExactlyWhen(p: Platform, db: Db, id: nat)
    ensures StageRestore(p, db, id).Some? <==>
            && id in db.archives && db.archives[id].path in db.files
            && var a, raw := db.archives[id], db.files[db.archives[id].path];
            && p.sha(raw) == a.fileSha && p.open(raw).Some?
            && (RingOf(db, a.sigVersion) != [] ==> SignedUnder(p, RingOf(db, a.sigVersion), ManifestText(db.tenant, a), a.sig))
            && var m := p.open(raw).value;
            && Digest(p, m.rows) == a.digest && |m.rows| == a.rowCount && CountUnsigned(m.rows) == a.unsignedCount
            && m.checkpointId < |db.checkpoints| && db.checkpoints[m.checkpointId].archiveId == Some(id)
    ensures StageRestore(p, db, id).Some? ==> StageRestore(p, db, id) == p.open(db.files[db.archives[id].path])
  {
    if id in db.archives {
      var a := db.archives[id];
      MacMatchesIs(p, db, a.sigVersion, a.sig, ManifestText(db.tenant, a));
    }
  }

  /** A window that is not what its checkpoint states is left where it is, whatever the tables hold. */
  lemma ChangedWindowStays(p: Platform, db: Db, i: nat, pass: Pass)
    requires i < |db.checkpoints| && db.keys != []
    requires var c := db.checkpoints[i];
             var rows := RowsIn(db.live, c.fromSeq, c.toSeq);
             |rows| != c.rowCount || Digest(p, rows) != c.digest
    ensures PassWindow(p, db, i, pass).0 == db && PassWindow(p, db, i, pass).1.Passed?
  {
  }

  // ---- the report as a whole ------------------------------------------------------------------

  ghost predicate IsLive(db: Db, q: nat) { q in db.live && 1 <= q <= db.nextSeq }

  lemma RowIsRead(db: Db, q: nat) returns (i: nat)
    requires IsLive(db, q)
    ensures i < |AllRows(db)| && AllRows(db)[i] == db.live[q]
  {
    RowsInMember(db.live, 1, db.nextSeq, db.live[q]);
    i :| 0 <= i < |AllRows(db)| && AllRows(db)[i] == db.live[q];
  }

  lemma ReadRowIsLive(db: Db, i: nat) returns (q: nat)
    requires i < |AllRows(db)|
    ensures IsLive(db, q) && AllRows(db)[i] == db.live[q]
  {
    RowsInMember(db.live, 1, db.nextSeq, AllRows(db)[i]);
    assert AllRows(db)[i] in AllRows(db);
    q :| 1 <= q <= db.nextSeq && q in db.live && db.live[q] == AllRows(db)[i];
  }

  lemma {:induction false} BadOnesAre(vs: seq<CheckpointVerdict>)
    ensures forall i :: i in BadOnes(vs) <==> 0 <= i < |vs| && vs[i] !in {Skipped, Verified}
  {
    if vs != [] { BadOnesAre(vs[..|vs| - 1]); }
  }

  /**
    A report says intact exactly when every live row that carries a signature of a scheme with keys has a key of that
    scheme under which its own columns have that MAC, and every checkpoint of such a scheme is signed so and its
    window, live or in its archive, is what it states.
   */
  lemma IntactExactlyWhen(p: Platform, db: Db, r: Report)
    requires Describes(p, db, r)
    ensures r.intact <==> (forall q :: IsLive(db, q) ==> RowPasses(p, db, db.live[q]))
                          && (forall i :: 0 <= i < |db.checkpoints| ==> CheckpointPasses(p, db, i))
    ensures forall i :: i in r.checkpointsBad <==> 0 <= i < |db.checkpoints| && !CheckpointPasses(p, db, i)
    ensures r.checkpointsBad == [] <==> forall i :: 0 <= i < |db.checkpoints| ==> CheckpointPasses(p, db, i)
  {
    var rows := AllRows(db);
    var vs := RowVerdicts(p, db, rows);
    BadOnesAre(Verdicts(p, db));
    forall i | 0 <= i < |db.checkpoints|
      ensures i in r.checkpointsBad <==> !CheckpointPasses(p, db, i)
    {
      CheckpointVerdictMeans(p, db, i);
    }
    assert r.checkpointsBad == [] <==> forall i :: 0 <= i < |db.checkpoints| ==> i !in r.checkpointsBad by {
      if r.checkpointsBad != [] { assert r.checkpointsBad[0] in r.checkpointsBad; }
    }
    RowsIntactExactlyWhen(p, db);
  }

  lemma RowsIntactExactlyWhen(p: Platform, db: Db)
    ensures RowsIntact(RowVerdicts(p, db, AllRows(db))) <==> forall q :: IsLive(db, q) ==> RowPasses(p, db, db.live[q])
  {
    var rows := AllRows(db);
    var vs := RowVerdicts(p, db, rows);
    if RowsIntact(vs) {
      forall q | IsLive(db, q) ensures RowPasses(p, db, db.live[q]) {
        var i := RowIsRead(db, q);
        assert vs[i] != RowKeyMissing && vs[i] != Tampered;
        RowVerdictMeans(p, db, rows[i]);
      }
    }
    if forall q :: IsLive(db, q) ==> RowPasses(p, db, db.live[q]) {
      forall i | 0 <= i < |vs| ensures vs[i] != RowKeyMissing && vs[i] != Tampered {
        var q := ReadRowIsLive(db, i);
        RowVerdictMeans(p, db, rows[i]);
      }
    }
  }

  lemma {:induction false} TamperedIdsAre(rows: seq<Row>, vs: seq<RowVerdict>, i: nat)
    requires |rows| == |vs| && i < |vs| && vs[i] == Tampered
    ensures rows[i].id in TamperedIds(rows, vs)
  {
    if i < |vs| - 1 { TamperedIdsAre(rows[..|rows| - 1], vs[..|vs| - 1], i); }
  }

  lemma {:induction false} TamperedIdsFrom(rows: seq<Row>, vs: seq<RowVerdict>, id: string) returns (i: nat)
    requires |rows| == |vs| && id in TamperedIds(rows, vs)
    ensures i < |vs| && vs[i] == Tampered && rows[i].id == id
  {
    var n := |rows| - 1;
    if vs[n] == Tampered && rows[n].id == id { i := n; } else { i := TamperedIdsFrom(rows[..n], vs[..n], id); }
  }

  lemma {:induction false} MissingKeysAre(rows: seq<Row>, vs: seq<RowVerdict>, i: nat)
    requires |rows| == |vs| && i < |vs| && vs[i] == RowKeyMissing
    ensures rows[i].sigKey in MissingRowKeys(rows, vs) && CountVerdict(vs, RowKeyMissing) > 0
  {
    if i < |vs| - 1 { MissingKeysAre(rows[..|rows| - 1], vs[..|vs| - 1], i); }
  }

  /** A row that fails is named: its id among the tampered while there is room, or its missing key's fingerprint. */
  lemma FailingRowIsNamed(p: Platform, db: Db, r: Report, q: nat)
    requires Describes(p, db, r) && IsLive(db, q) && !RowPasses(p, db, db.live[q])
    ensures !r.intact
    ensures !KeyMissing(p, db, db.live[q]) ==> db.live[q].id in r.tampered || |r.tampered| == 50
    ensures KeyMissing(p, db, db.live[q]) ==>
              r.unverifiable > 0 && (db.live[q].sigKey in r.missingKeys || |r.missingKeys| == 10)
  {
    IntactExactlyWhen(p, db, r);
    var rows := AllRows(db);
    var vs := RowVerdicts(p, db, rows);
    var i := RowIsRead(db, q);
    RowVerdictMeans(p, db, rows[i]);
    if KeyMissing(p, db, rows[i]) {
      MissingKeysAre(rows, vs, i);
      NotedAreTheMissing(MissingKeys(p, db));
    } else {
      TamperedIdsAre(rows, vs, i);
    }
  }

  /** Only rows that fail are called tampered. */
  lemma TamperedRowFails(p: Platform, db: Db, r: Report, id: string) returns (q: nat)
    requires Describes(p, db, r) && id in r.tampered
    ensures IsLive(db, q) && db.live[q].id == id && !RowPasses(p, db, db.live[q]) && !KeyMissing(p, db, db.live[q])
  {
    var rows := AllRows(db);
    var vs := RowVerdicts(p, db, rows);
    assert id in TamperedIds(rows, vs);
    var i := TamperedIdsFrom(rows, vs, id);
    RowVerdictMeans(p, db, rows[i]);
    q := ReadRowIsLive(db, i);
  }

  lemma {:induction false} CountsAddUp(vs: seq<RowVerdict>)
    ensures CountVerdict(vs, Unsigned) + CountVerdict(vs, RowVerified) <= |vs|
    ensures CountVerdict(vs, Unsigned) + CountVerdict(vs, RowVerified) == |vs|
            <==> forall i :: 0 <= i < |vs| ==> vs[i] in {Unsigned, RowVerified}
  {
    if vs != [] {
      var n := |vs| - 1;
      CountsAddUp(vs[..n]);
      assert vs == vs[..n] + [vs[n]];
    }
  }

  /** The two counts of a report agree exactly when every signed live row is genuine. */
  lemma AllVerifiedExactlyWhen(p: Platform, db: Db, r: Report)
    requires Describes(p, db, r)
    ensures r.verified <= r.signed
    ensures r.verified == r.signed <==>
            forall q :: IsLive(db, q) && db.live[q].signature != "" ==> Genuine(p, db, db.live[q])
  {
    var rows := AllRows(db);
    var vs := RowVerdicts(p, db, rows);
    CountsAddUp(vs);
    if r.verified == r.signed {
      forall q | IsLive(db, q) && db.live[q].signature != "" ensures Genuine(p, db, db.live[q]) {
        var i := RowIsRead(db, q);
        assert vs[i] in {Unsigned, RowVerified};
        RowVerdictMeans(p, db, rows[i]);
      }
    } else {
      var i :| 0 <= i < |vs| && vs[i] !in {Unsigned, RowVerified};
      RowVerdictMeans(p, db, rows[i]);
      var q := ReadRowIsLive(db, i);
    }
  }

  // ---- an edited row ------------------------------------------------------------------------------

  /** No two texts have one MAC, under whichever keys, and no two instants print alike. */
  ghost predicate CollisionFree(p: Platform)
  {
    && (forall k, l, a, b :: p.mac(k, a) == p.mac(l, b) ==> a == b)
    && (forall a, b :: p.stamp(a) == p.stamp(b) ==> a == b)
  }

  lemma GenuineContent(p: Platform, db: Db, r: Row, e: Row)
    requires CollisionFree(p) && Genuine(p, db, r) && Genuine(p, db, e) && r.signature == e.signature
    ensures r.sigVersion == e.sigVersion && SameSignedContent(r, e)
  {
    var a, b := SignedFields(p, r.sigVersion, db.tenant, r), SignedFields(p, e.sigVersion, db.tenant, e);
    var k :| k in RingOf(db, r.sigVersion) && p.mac(k, FrameAll(a)) == r.signature;
    var l :| l in RingOf(db, e.sigVersion) && p.mac(l, FrameAll(b)) == e.signature;
    assert p.mac(k, FrameAll(a)) == p.mac(l, FrameAll(b));
    FrameAllInjective(a, b);
    assert a[0] == b[0] && a[2] == b[2] && a[3] == b[3] && a[4] == b[4] && a[5] == b[5];
    assert a[6] == b[6] && a[7] == b[7] && a[8] == b[8] && a[9] == b[9];
  }

  ghost predicate SameEvidenceAt(live: map<nat, Row>, now: map<nat, Row>, k: nat)
  {
    && (k in live <==> k in now)
    && (k in live ==> live[k] == now[k] || (live[k].signature == now[k].signature != ""))
  }

  lemma {:induction false} EditKeepsWindow(live: map<nat, Row>, now: map<nat, Row>, lo: nat, hi: nat)
    requires forall k :: SameEvidenceAt(live, now, k)
    ensures SameTokens(RowsIn(live, lo, hi), RowsIn(now, lo, hi))
    decreases hi
  {
    if lo <= hi && hi != 0 {
      EditKeepsWindow(live, now, lo, hi - 1);
      assert SameEvidenceAt(live, now, hi);
      var a, b := RowsIn(live, lo, hi - 1), RowsIn(now, lo, hi - 1);
      assert a + [] == a && b + [] == b;
      if hi in live { OneMoreRow(a, b, live[hi], now[hi]); }
    }
  }

  ghost predicate SameTokens(a: seq<Row>, b: seq<Row>)
  {
    Tokens(a) == Tokens(b) && CountUnsigned(a) == CountUnsigned(b)
  }

  lemma OneMoreRow(a: seq<Row>, b: seq<Row>, r: Row, s: Row)
    requires SameTokens(a, b) && Token(r) == Token(s) && (r.signature == "" <==> s.signature == "")
    ensures SameTokens(a + [r], b + [s])
  {
    assert (a + [r])[..|a|] == a && (b + [s])[..|b|] == b;
    assert Tokens(a + [r]) == Tokens(a) + [Token(r)] && Tokens(b + [s]) == Tokens(b) + [Token(s)];
  }

  ghost function Edited(db: Db, q: nat, e: Row): Db { db.(live := db.live[q := e]) }

  lemma ReachableRowsPass(p: Platform, s: State, q: nat)
    requires Inv(p, s) && Authentic(p, s) && q in s.db.live
    ensures IsLive(s.db, q) && (s.db.live[q].signature != "" ==> Genuine(p, s.db, s.db.live[q]))
  {
    VerificationAccepts(p, s);
    RowVerdictMeans(p, s.db, s.db.live[q]);
  }

  lemma EditKeepsCheckpoints(p: Platform, s: State, q: nat, e: Row, i: nat)
    requires Inv(p, s) && Authentic(p, s) && q in s.db.live && i < |s.db.checkpoints|
    requires s.db.live[q].signature != "" && e.signature == s.db.live[q].signature
    ensures CheckpointPasses(p, Edited(s.db, q, e), i)
  {
    CheckpointVerifies(p, s, i);
    CheckpointVerdictMeans(p, s.db, i);
    EditKeepsWindow(s.db.live, s.db.live[q := e], s.db.checkpoints[i].fromSeq, s.db.checkpoints[i].toSeq);
    assert CheckpointPasses(p, s.db, i);
  }

  /**
    Put any row in the place of a signed one of a reachable state, its signature kept: the report still says intact
    exactly when no signed column and not the scheme changed, or the new scheme is one without keys.
   */
  lemma EditIsReportedExactlyWhen(p: Platform, s: State, q: nat, e: Row, r: Report)
    requires Inv(p, s) && Authentic(p, s) && CollisionFree(p)
    requires q in s.db.live && s.db.live[q].signature != "" && e.signature == s.db.live[q].signature
    requires Describes(p, Edited(s.db, q, e), r)
    ensures r.intact <==> RingOf(s.db, e.sigVersion) == []
                          || (e.sigVersion == s.db.live[q].sigVersion && SameSignedContent(s.db.live[q], e))
    ensures r.verified == r.signed <==> e.sigVersion == s.db.live[q].sigVersion && SameSignedContent(s.db.live[q], e)
    ensures !r.intact ==>
              if KeyMissing(p, s.db, e) then r.unverifiable > 0 && (e.sigKey in r.missingKeys || |r.missingKeys| == 10)
              else e.id in r.tampered || |r.tampered| == 50
    ensures r.checkpointsBad == []
  {
    var db := Edited(s.db, q, e);
    ReachableRowsPass(p, s, q);
    EditedRowIsGenuineExactlyWhen(p, s, q, e);
    OnlyTheEditedRowFails(p, s, q, e, r);
    if !RowPasses(p, db, e) { FailingRowIsNamed(p, db, r, q); }
  }

  lemma EditedRowIsGenuineExactlyWhen(p: Platform, s: State, q: nat, e: Row)
    requires Inv(p, s) && Authentic(p, s) && CollisionFree(p)
    requires q in s.db.live && s.db.live[q].signature != "" && e.signature == s.db.live[q].signature
    ensures Genuine(p, Edited(s.db, q, e), e)
            <==> e.sigVersion == s.db.live[q].sigVersion && SameSignedContent(s.db.live[q], e)
  {
    var row := s.db.live[q];
    ReachableRowsPass(p, s, q);
    if Genuine(p, s.db, e) { GenuineContent(p, s.db, row, e); }
    if e.sigVersion == row.sigVersion && SameSignedContent(row, e) {
      assert SignedFields(p, e.sigVersion, s.db.tenant, e) == SignedFields(p, row.sigVersion, s.db.tenant, row);
    }
    assert Genuine(p, Edited(s.db, q, e), e) <==> Genuine(p, s.db, e);
  }

  lemma OnlyTheEditedRowFails(p: Platform, s: State, q: nat, e: Row, r: Report)
    requires Inv(p, s) && Authentic(p, s)
    requires q in s.db.live && s.db.live[q].signature != "" && e.signature == s.db.live[q].signature
    requires Describes(p, Edited(s.db, q, e), r)
    ensures IsLive(Edited(s.db, q, e), q) && r.checkpointsBad == []
    ensures r.intact <==> RowPasses(p, Edited(s.db, q, e), e)
    ensures r.verified == r.signed <==> Genuine(p, Edited(s.db, q, e), e)
  {
    var db := Edited(s.db, q, e);
    IntactExactlyWhen(p, db, r);
    AllVerifiedExactlyWhen(p, db, r);
    forall i | 0 <= i < |db.checkpoints| ensures CheckpointPasses(p, db, i) { EditKeepsCheckpoints(p, s, q, e, i); }
    OtherRowsPass(p, s, q, e);
    ReachableRowsPass(p, s, q);
    assert IsLive(db, q) && db.live[q] == e;
  }

  lemma OtherRowsPass(p: Platform, s: State, q: nat, e: Row)
    requires Inv(p, s) && Authentic(p, s) && q in s.db.live
    ensures var db := Edited(s.db, q, e);
            forall o :: IsLive(db, o) && o != q && db.live[o].signature != "" ==> Genuine(p, db, db.live[o])
  {
    var db := Edited(s.db, q, e);
    forall o | IsLive(db, o) && o != q && db.live[o].signature != "" ensures Genuine(p, db, db.live[o]) {
      ReachableRowsPass(p, s, o);
      assert Genuine(p, db, db.live[o]) <==> Genuine(p, s.db, s.db.live[o]);
    }
  }

  /** So a row relabelled to a scheme without keys is not checked: its details may say anything, and only the counts differ. */
  lemma RelabelledEditIsNotReported(p: Platform, s: State, q: nat, r: Report)
    requires Inv(p, s) && Authentic(p, s) && CollisionFree(p) && q in s.db.live && s.db.live[q].signature != ""
    requires Describes(p, Edited(s.db, q, s.db.live[q].(details := s.db.live[q].details + "!", sigVersion := "v0")), r)
    ensures r.intact && r.verified < r.signed
  {
    AllVerifiedExactlyWhen(p, Edited(s.db, q, s.db.live[q].(details := s.db.live[q].details + "!", sigVersion := "v0")), r);
    EditIsReportedExactlyWhen(p, s, q, s.db.live[q].(details := s.db.live[q].details + "!", sigVersion := "v0"), r);
  }

  // ---- an edited checkpoint ---------------------------------------------------------------------------

  lemma {:induction false} DigitsHaveNoBar(s: string)
    requires AllDigits(s)
    ensures '|' !in s
  {
  }

  ghost predicate NoBars(tenant: string, c: Checkpoint)
  {
    '|' !in tenant && '|' !in c.sigVersion && '|' !in c.digest && '|' !in c.prevSig
  }

  ghost function SealedColumns(tenant: string, c: Checkpoint): seq<string>
  {
    [c.sigVersion, tenant, Decimal(c.fromSeq), Decimal(c.toSeq), Decimal(c.rowCount), Decimal(c.unsignedCount), c.digest,
     c.prevSig]
  }

  /** All that a checkpoint's signature covers. */
  ghost predicate SameSealedColumns(c: Checkpoint, d: Checkpoint)
  {
    && c.sigVersion == d.sigVersion && c.fromSeq == d.fromSeq && c.toSeq == d.toSeq && c.rowCount == d.rowCount
    && c.unsignedCount == d.unsignedCount && c.digest == d.digest && c.prevSig == d.prevSig
  }

  ghost function TextOf(tenant: string, c: Checkpoint): string
  {
    CheckpointText(c.sigVersion, tenant, c.fromSeq, c.toSeq, c.rowCount, c.unsignedCount, c.digest, c.prevSig)
  }

  lemma TextSplits(tenant: string, c: Checkpoint)
    requires NoBars(tenant, c)
    ensures Split(TextOf(tenant, c), '|') == SealedColumns(tenant, c)
  {
    DigitsHaveNoBar(Decimal(c.fromSeq));
    DigitsHaveNoBar(Decimal(c.toSeq));
    DigitsHaveNoBar(Decimal(c.rowCount));
    DigitsHaveNoBar(Decimal(c.unsignedCount));
    SplitJoin(SealedColumns(tenant, c), '|');
  }

  /** Without bars in its texts, what a checkpoint's signature is taken of determines every column it covers. */
  lemma CheckpointTextDetermines(tenant: string, c: Checkpoint, d: Checkpoint)
    requires NoBars(tenant, c) && NoBars(tenant, d)
    ensures TextOf(tenant, c) == TextOf(tenant, d) <==> SameSealedColumns(c, d)
  {
    if TextOf(tenant, c) == TextOf(tenant, d) {
      TextSplits(tenant, c);
      TextSplits(tenant, d);
      var a, b := SealedColumns(tenant, c), SealedColumns(tenant, d);
      assert a[0] == b[0] && a[2] == b[2] && a[3] == b[3] && a[4] == b[4] && a[5] == b[5] && a[6] == b[6] && a[7] == b[7];
      DecimalInjective(c.fromSeq, d.fromSeq);
      DecimalInjective(c.toSeq, d.toSeq);
      DecimalInjective(c.rowCount, d.rowCount);
      DecimalInjective(c.unsignedCount, d.unsignedCount);
    }
  }

  ghost function Resealed(db: Db, i: nat, d: Checkpoint): Db
    requires i < |db.checkpoints|
  {
    db.(checkpoints := db.checkpoints[i := d])
  }

  lemma EditedCheckpointPassesExactlyWhen(p: Platform, s: State, i: nat, d: Checkpoint)
    requires Inv(p, s) && Authentic(p, s) && CollisionFree(p) && i < |s.db.checkpoints|
    requires d.sig == s.db.checkpoints[i].sig && d.archiveId == s.db.checkpoints[i].archiveId
    requires NoBars(s.db.tenant, s.db.checkpoints[i]) && NoBars(s.db.tenant, d)
    ensures CheckpointPasses(p, Resealed(s.db, i, d), i)
            <==> RingOf(s.db, d.sigVersion) == [] || SameSealedColumns(s.db.checkpoints[i], d)
  {
    var c := s.db.checkpoints[i];
    ReachableCheckpointPasses(p, s, i);
    ReSigned(p, s.db, c, d);
    if SameSealedColumns(c, d) {
      assert d == c.(kind := d.kind, sigKey := d.sigKey);
      assert Resealed(s.db, i, d).checkpoints[i] == d;
    }
  }

  lemma ReachableCheckpointPasses(p: Platform, s: State, i: nat)
    requires Inv(p, s) && Authentic(p, s) && i < |s.db.checkpoints|
    ensures CheckpointPasses(p, s.db, i) && RingOf(s.db, s.db.checkpoints[i].sigVersion) != []
  {
    assert CheckpointAuthentic(p, s.db, s.db.checkpoints[i]);
    CheckpointVerifies(p, s, i);
    CheckpointVerdictMeans(p, s.db, i);
  }

  /** One signature for two checkpoints' texts means the same columns. */
  lemma ReSigned(p: Platform, db: Db, c: Checkpoint, d: Checkpoint)
    requires CollisionFree(p) && NoBars(db.tenant, c) && NoBars(db.tenant, d) && c.sig == d.sig
    requires SignedUnder(p, RingOf(db, c.sigVersion), TextOf(db.tenant, c), c.sig)
    ensures SignedUnder(p, RingOf(db, d.sigVersion), TextOf(db.tenant, d), d.sig) <==> SameSealedColumns(c, d)
  {
    CheckpointTextDetermines(db.tenant, c, d);
    if SignedUnder(p, RingOf(db, d.sigVersion), TextOf(db.tenant, d), d.sig) {
      var k :| k in RingOf(db, d.sigVersion) && p.mac(k, TextOf(db.tenant, d)) == d.sig;
      var l :| l in RingOf(db, c.sigVersion) && p.mac(l, TextOf(db.tenant, c)) == c.sig;
      assert p.mac(k, TextOf(db.tenant, d)) == p.mac(l, TextOf(db.tenant, c));
    }
  }

  /**
    Change a checkpoint of a reachable state, its signature and its archive kept: the report still says intact exactly
    when nothing the signature covers changed, or the new scheme is one without keys.
   */
  lemma CheckpointEditIsReportedExactlyWhen(p: Platform, s: State, i: nat, d: Checkpoint, r: Report)
    requires Inv(p, s) && Authentic(p, s) && CollisionFree(p) && i < |s.db.checkpoints|
    requires d.sig == s.db.checkpoints[i].sig && d.archiveId == s.db.checkpoints[i].archiveId
    requires NoBars(s.db.tenant, s.db.checkpoints[i]) && NoBars(s.db.tenant, d)
    requires Describes(p, Resealed(s.db, i, d), r)
    ensures r.intact <==> RingOf(s.db, d.sigVersion) == [] || SameSealedColumns(s.db.checkpoints[i], d)
    ensures !r.intact ==> i in r.checkpointsBad
    ensures forall j :: j in r.checkpointsBad ==> j == i
  {
    var db := Resealed(s.db, i, d);
    IntactExactlyWhen(p, db, r);
    EditedCheckpointPassesExactlyWhen(p, s, i, d);
    ResealedElsewherePasses(p, s, i, d);
    forall q | IsLive(db, q) ensures RowPasses(p, db, db.live[q]) { ResealedRowPasses(p, s, i, d, q); }
  }

  lemma ResealedElsewherePasses(p: Platform, s: State, i: nat, d: Checkpoint)
    requires Inv(p, s) && Authentic(p, s) && i < |s.db.checkpoints|
    ensures forall j :: 0 <= j < |s.db.checkpoints| && j != i ==> CheckpointPasses(p, Resealed(s.db, i, d), j)
  {
    forall j | 0 <= j < |s.db.checkpoints| && j != i ensures CheckpointPasses(p, Resealed(s.db, i, d), j) {
      ReachableCheckpointPasses(p, s, j);
      assert Resealed(s.db, i, d).checkpoints[j] == s.db.checkpoints[j];
    }
  }

  lemma ResealedRowPasses(p: Platform, s: State, i: nat, d: Checkpoint, q: nat)
    requires Inv(p, s) && Authentic(p, s) && i < |s.db.checkpoints| && q in s.db.live
    ensures RowPasses(p, Resealed(s.db, i, d), s.db.live[q])
  {
    ReachableRowsPass(p, s, q);
    var r, db := s.db.live[q], Resealed(s.db, i, d);
    assert RingOf(db, r.sigVersion) == RingOf(s.db, r.sigVersion) && db.tenant == s.db.tenant;
  }
}
