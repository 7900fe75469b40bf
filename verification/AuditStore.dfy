/**
  The audit engine's entry points over its mutable tables (engines/audit_evidence.go,
  engines/audit_archive.go): each method is proved against the transaction it runs in AuditLog.
 */
module AuditStore {
  import opened Text
  import opened AuditEvidence
  import opened AuditLog
  import opened AuditLogInvariant
  import opened AuditLogTheorems

  const MIN_ARCHIVE_AFTER_DAYS := 30
  const MICROS_PER_DAY := 86_400_000_000

  // ---- legal holds and eligibility -----------------------------------------------

  /** An active legal hold; an unset field is a wildcard. */
  datatype Hold = Hold(entityType: Option<string>, entityID: Option<string>, actor: Option<string>)

  predicate Covers(h: Hold, r: Row)
  {
    && (h.entityType.Some? ==> h.entityType.value == r.entityType)
    && (h.entityID.Some? ==> h.entityID.value == r.entityID)
    && (h.actor.Some? ==> h.actor.value == r.userID)
  }

  predicate Held(holds: seq<Hold>, r: Row)
  {
    exists i :: 0 <= i < |holds| && Covers(holds[i], r)
  }

  function HeldCount(holds: seq<Hold>, rows: seq<Row>): nat
  {
    if rows == [] then 0
    else HeldCount(holds, rows[..|rows| - 1]) + (if Held(holds, rows[|rows| - 1]) then 1 else 0)
  }

  lemma {:induction false} NoneHeld(holds: seq<Hold>, rows: seq<Row>)
    ensures HeldCount(holds, rows) == 0 <==> forall r :: r in rows ==> !Held(holds, r)
  {
    if rows != [] {
      var last := rows[|rows| - 1];
      NoneHeld(holds, rows[..|rows| - 1]);
      assert rows == rows[..|rows| - 1] + [last];
      assert last in rows;
      assert forall r :: r in rows <==> r in rows[..|rows| - 1] || r == last;
    }
  }

  /** Every field the hold sets is the row's. */
  ghost predicate Protects(h: Hold, r: Row)
  {
    && (h.entityType == None || h.entityType == Some(r.entityType))
    && (h.entityID == None || h.entityID == Some(r.entityID))
    && (h.actor == None || h.actor == Some(r.userID))
  }

  method RowIsHeld(holds: seq<Hold>, r: Row) returns (held: bool)
    ensures held == Held(holds, r)
    ensures held <==> exists i :: 0 <= i < |holds| && Protects(holds[i], r)
  {
    for i := 0 to |holds|
      invariant forall j :: 0 <= j < i ==> !Covers(holds[j], r)
    {
      var h := holds[i];
      if h.entityType.Some? && h.entityType.value != r.entityType { continue; }
      if h.entityID.Some? && h.entityID.value != r.entityID { continue; }
      if h.actor.Some? && h.actor.value != r.userID { continue; }
      return true;
    }
    held := false;
  }

  predicate AllOlder(rows: seq<Row>, cutoff: int)
  {
    forall i :: 0 <= i < |rows| ==> rows[i].createdAt < cutoff
  }

  /** archiveEligibleCheckpoints: not archived, of an archivable kind, with rows, all older than the cutoff. */
  predicate Eligible(db: Db, i: nat, cutoff: int)
    requires i < |db.checkpoints|
  {
    var c := db.checkpoints[i];
    var rows := RowsIn(db.live, c.fromSeq, c.toSeq);
    c.archiveId.None? && c.kind in {"Periodic", "Sealed"} && rows != [] && AllOlder(rows, cutoff)
  }

  /** The eligible ones among the first n checkpoints, oldest first. */
  function Candidates(db: Db, cutoff: int, n: nat): (ids: seq<nat>)
    requires n <= |db.checkpoints|
    ensures forall k :: 0 <= k < |ids| ==> ids[k] < n && Eligible(db, ids[k], cutoff)
    ensures forall j, k :: 0 <= j < k < |ids| ==> ids[j] < ids[k]
  {
    if n == 0 then []
    else
      var before := Candidates(db, cutoff, n - 1);
      if Eligible(db, n - 1, cutoff) then before + [n - 1] else before
  }

  lemma {:induction false} CandidatesComplete(db: Db, cutoff: int, n: nat, i: nat)
    requires n <= |db.checkpoints| && i < n && Eligible(db, i, cutoff)
    ensures i in Candidates(db, cutoff, n)
  {
    if i < n - 1 {
      CandidatesComplete(db, cutoff, n - 1, i);
      assert Candidates(db, cutoff, n - 1) <= Candidates(db, cutoff, n);
    }
  }

  // ---- the archive pass ----------------------------------------------------------------

  datatype Reason = TooLarge | CountMismatch | DigestMismatch | HeldRows(count: nat) | SelfCheckFailed | LostRace
                  | NotRecorded                   // the transaction answered with an error

  datatype Outcome = Archived(archiveId: nat) | Passed(reason: Reason)

  /**
    What one archive pass is told: the clock, the file prefix, the holds and the size ceiling; and what befalls it:
    the windows whose transaction does not end as Committed.
   */
  datatype Pass = Pass(now: int, stamp: string, prefix: string, nonce: string, holds: seq<Hold>, maxRows: nat,
                       allowLarge: bool, ends: map<nat, CommitEnd>)

  function EndOf(pass: Pass, i: nat): CommitEnd { if i in pass.ends then pass.ends[i] else Committed }

  /** What is answered for a window whose transaction ends so; archived: another run was first. */
  function RecordOutcome(archived: bool, end: CommitEnd, id: nat): Outcome
  {
    if end == RolledBack then Passed(NotRecorded)
    else if archived then Passed(LostRace)
    else if end == Misreported then Passed(NotRecorded)
    else Archived(id)
  }

  function PathOf(pass: Pass, c: Checkpoint): string
  {
    pass.prefix + Decimal(c.fromSeq) + "-" + Decimal(c.toSeq) + "_" + pass.stamp + ".json.gz.enc"
  }

  /** One candidate window of RunAuditArchive. */
  function PassWindow(p: Platform, db: Db, i: nat, pass: Pass): (Db, Outcome)
    requires i < |db.checkpoints| && db.keys != []
  {
    var c := db.checkpoints[i];
    var rows := RowsIn(db.live, c.fromSeq, c.toSeq);
    if c.rowCount > pass.maxRows && !pass.allowLarge then (db, Passed(TooLarge))
    else if |rows| != c.rowCount then (db, Passed(CountMismatch))
    else if Digest(p, rows) != c.digest then (db, Passed(DigestMismatch))
    else if HeldCount(pass.holds, rows) > 0 then (db, Passed(HeldRows(HeldCount(pass.holds, rows))))
    else match StageArchive(p, db, i, PathOf(pass, c), pass.nonce, pass.now)
      case None => (DeleteFile(db, PathOf(pass, c)), Passed(SelfCheckFailed))
      case Some((staged, a)) =>
        (FinishArchive(staged, a, EndOf(pass, i)), RecordOutcome(c.archiveId.Some?, EndOf(pass, i), db.nextArchive))
  }

  lemma PassWindowKeepsShape(p: Platform, db: Db, i: nat, pass: Pass)
    requires i < |db.checkpoints| && db.keys != []
    ensures var d := PassWindow(p, db, i, pass).0;
            |d.checkpoints| == |db.checkpoints| && d.keys == db.keys
  {
    var path := PathOf(pass, db.checkpoints[i]);
    if StageArchive(p, db, i, path, pass.nonce, pass.now).Some? {
      var (staged, a) := StageArchive(p, db, i, path, pass.nonce, pass.now).value;
      assert |staged.checkpoints| == |db.checkpoints| && staged.keys == db.keys && a.checkpointId == i;
      FinishKeepsShape(staged, a, EndOf(pass, i));
    }
  }

  lemma FinishKeepsShape(db: Db, a: Archive, end: CommitEnd)
    requires a.checkpointId < |db.checkpoints|
    ensures |FinishArchive(db, a, end).checkpoints| == |db.checkpoints| && FinishArchive(db, a, end).keys == db.keys
  {
  }

  /** The whole pass over a fixed list of candidates, oldest first. */
  function PassAll(p: Platform, db: Db, ids: seq<nat>, pass: Pass): (r: (Db, seq<Outcome>))
    requires db.keys != [] && forall k :: 0 <= k < |ids| ==> ids[k] < |db.checkpoints|
    ensures |r.0.checkpoints| == |db.checkpoints| && r.0.keys == db.keys && |r.1| == |ids|
  {
    if ids == [] then (db, [])
    else
      var (before, outcomes) := PassAll(p, db, ids[..|ids| - 1], pass);
      PassWindowKeepsShape(p, before, ids[|ids| - 1], pass);
      var (after, outcome) := PassWindow(p, before, ids[|ids| - 1], pass);
      (after, outcomes + [outcome])
  }

  lemma PassAllStep(p: Platform, db: Db, ids: seq<nat>, k: nat, pass: Pass)
    requires db.keys != [] && k < |ids| && forall j :: 0 <= j < |ids| ==> ids[j] < |db.checkpoints|
    ensures var before := PassAll(p, db, ids[..k], pass);
            var last := PassWindow(p, before.0, ids[k], pass);
            PassAll(p, db, ids[..k + 1], pass) == (last.0, before.1 + [last.1])
  {
    assert ids[..k + 1][..k] == ids[..k];
  }

  // ---- verification report ---------------------------------------------------------------

  datatype Report = Report(total: nat, signed: nat, unsigned: nat, verified: nat, tampered: seq<string>,
                           unverifiable: nat, missingKeys: seq<string>, checkpointsOk: nat, checkpointsBad: seq<nat>,
                           intact: bool)

  function RowVerdicts(p: Platform, db: Db, rows: seq<Row>): (vs: seq<RowVerdict>)
    ensures |vs| == |rows|
  {
    seq(|rows|, i requires 0 <= i < |rows| => CheckRow(p, db, rows[i]))
  }

  function CountVerdict(vs: seq<RowVerdict>, v: RowVerdict): nat
  {
    if vs == [] then 0 else CountVerdict(vs[..|vs| - 1], v) + (if vs[|vs| - 1] == v then 1 else 0)
  }

  function TamperedIds(rows: seq<Row>, vs: seq<RowVerdict>): seq<string>
    requires |rows| == |vs|
  {
    if rows == [] then []
    else TamperedIds(rows[..|rows| - 1], vs[..|vs| - 1])
         + (if vs[|vs| - 1] == Tampered then [rows[|rows| - 1].id] else [])
  }

  /** noteMissingKey: each fingerprint once, ten at most. */
  function Note(noted: seq<string>, key: string): seq<string>
  {
    if key in noted || |noted| >= 10 then noted else noted + [key]
  }

  function NoteAll(noted: seq<string>, keys: seq<string>): seq<string>
  {
    if keys == [] then noted else Note(NoteAll(noted, keys[..|keys| - 1]), keys[|keys| - 1])
  }

  /** What a report can say of the keys it misses: no fingerprint twice, none unmissed, all of them while there is room. */
  lemma {:induction false} NotedAreTheMissing(keys: seq<string>)
    ensures var noted := NoteAll([], keys);
            && |noted| <= 10 && (forall i, j :: 0 <= i < j < |noted| ==> noted[i] != noted[j])
            && (forall k :: k in noted ==> k in keys) && (|noted| < 10 ==> forall k :: k in keys ==> k in noted)
  {
    if keys != [] {
      var n := |keys| - 1;
      NotedAreTheMissing(keys[..n]);
      assert keys == keys[..n] + [keys[n]];
    }
  }

  lemma NoteOne(noted: seq<string>, keys: seq<string>, key: string)
    ensures NoteAll(noted, keys + [key]) == Note(NoteAll(noted, keys), key)
  {
    assert (keys + [key])[..|keys|] == keys;
  }

  lemma {:induction false} NoteAllConcat(noted: seq<string>, a: seq<string>, b: seq<string>)
    ensures NoteAll(noted, a + b) == NoteAll(NoteAll(noted, a), b)
  {
    if b == [] {
      assert a + b == a;
    } else {
      var n := |b| - 1;
      assert (a + b)[..|a + b| - 1] == a + b[..n] && (a + b)[|a + b| - 1] == b[n];
      NoteAllConcat(noted, a, b[..n]);
    }
  }

  /** The fingerprints of rows, and of checkpoints, signed by a key that is not loaded. */
  function MissingRowKeys(rows: seq<Row>, vs: seq<RowVerdict>): seq<string>
    requires |rows| == |vs|
  {
    if rows == [] then []
    else MissingRowKeys(rows[..|rows| - 1], vs[..|vs| - 1])
         + (if vs[|vs| - 1] == RowKeyMissing then [rows[|rows| - 1].sigKey] else [])
  }

  function MissingSealKeys(cs: seq<Checkpoint>, vs: seq<CheckpointVerdict>): seq<string>
    requires |cs| == |vs|
  {
    if cs == [] then []
    else MissingSealKeys(cs[..|cs| - 1], vs[..|vs| - 1])
         + (if vs[|vs| - 1] == KeyNotLoaded then [cs[|cs| - 1].sigKey] else [])
  }

  function MissingKeys(p: Platform, db: Db): seq<string>
  {
    MissingRowKeys(AllRows(db), RowVerdicts(p, db, AllRows(db))) + MissingSealKeys(db.checkpoints, Verdicts(p, db))
  }

  function FirstFifty(ids: seq<string>): seq<string> { if |ids| <= 50 then ids else ids[..50] }

  function Verdicts(p: Platform, db: Db): (vs: seq<CheckpointVerdict>)
    ensures |vs| == |db.checkpoints|
  {
    seq(|db.checkpoints|, i requires 0 <= i < |db.checkpoints| => CheckCheckpoint(p, db, i))
  }

  function BadOnes(vs: seq<CheckpointVerdict>): seq<nat>
  {
    if vs == [] then []
    else BadOnes(vs[..|vs| - 1]) + (if vs[|vs| - 1] in {Skipped, Verified} then [] else [|vs| - 1])
  }

  function GoodOnes(vs: seq<CheckpointVerdict>): nat
  {
    if vs == [] then 0 else GoodOnes(vs[..|vs| - 1]) + (if vs[|vs| - 1] == Verified then 1 else 0)
  }

  function AllRows(db: Db): seq<Row> { RowsIn(db.live, 1, db.nextSeq) }

  ghost predicate RowsIntact(vs: seq<RowVerdict>)
  {
    forall i :: 0 <= i < |vs| ==> vs[i] != RowKeyMissing && vs[i] != Tampered
  }

  ghost predicate RowsDescribed(p: Platform, db: Db, r: Report)
  {
    var rows := AllRows(db);
    var vs := RowVerdicts(p, db, rows);
    && r.total == |rows| && r.unsigned == CountVerdict(vs, Unsigned) && r.signed + r.unsigned == r.total
    && r.verified == CountVerdict(vs, RowVerified) && r.unverifiable == CountVerdict(vs, RowKeyMissing)
    && r.tampered == FirstFifty(TamperedIds(rows, vs))
  }

  /** What VerifyAuditEvidence reports: each row and each checkpoint counted under its own verdict. */
  ghost predicate Describes(p: Platform, db: Db, r: Report)
  {
    && RowsDescribed(p, db, r)
    && r.missingKeys == NoteAll([], MissingKeys(p, db))
    && r.checkpointsOk == GoodOnes(Verdicts(p, db)) && r.checkpointsBad == BadOnes(Verdicts(p, db))
    && (r.intact <==> RowsIntact(RowVerdicts(p, db, AllRows(db))) && r.checkpointsBad == [])
  }

  /** One row: unsigned, out of this verifier's schemes, or re-signed under every key its scheme may have used. */
  method ClassifyRow(p: Platform, db: Db, row: Row) returns (v: RowVerdict)
    ensures v == CheckRow(p, db, row)
  {
    if row.signature == "" { return Unsigned; }
    var ring := VerifyKeys(db, row.sigVersion);
    if ring == [] { return OutOfScheme; }
    var text := FrameAll(SignedFields(p, row.sigVersion, db.tenant, row));
    for i := 0 to |ring|
      invariant forall j :: 0 <= j < i ==> p.mac(ring[j], text) != row.signature
    {
      if p.mac(ring[i], text) == row.signature { return RowVerified; }
    }
    v := if row.sigKey != "" && !KeyLoaded(p, ring, row.sigKey) then RowKeyMissing else Tampered;
  }

  method ClassifyRows(p: Platform, db: Db, rows: seq<Row>) returns (vs: seq<RowVerdict>)
    ensures vs == RowVerdicts(p, db, rows)
  {
    vs := [];
    for i := 0 to |rows|
      invariant vs == RowVerdicts(p, db, rows)[..i]
    {
      var v := ClassifyRow(p, db, rows[i]);
      vs := vs + [v];
    }
  }

  /** The row half of the report: signed rows are counted under their verdict, tampered ids kept up to fifty. */
  method TallyRows(rows: seq<Row>, vs: seq<RowVerdict>) returns (r: Report)
    requires |rows| == |vs|
    ensures r.total == |rows| && r.unsigned == CountVerdict(vs, Unsigned) && r.signed + r.unsigned == r.total
    ensures r.verified == CountVerdict(vs, RowVerified) && r.unverifiable == CountVerdict(vs, RowKeyMissing)
    ensures r.tampered == FirstFifty(TamperedIds(rows, vs))
    ensures r.intact <==> RowsIntact(vs)
  {
    var unsigned, signed, verified, unverifiable, tampered, intact := 0, 0, 0, 0, [], true;
    for i := 0 to |rows|
      invariant unsigned == CountVerdict(vs[..i], Unsigned) && signed + unsigned == i
      invariant verified == CountVerdict(vs[..i], RowVerified)
      invariant unverifiable == CountVerdict(vs[..i], RowKeyMissing)
      invariant tampered == FirstFifty(TamperedIds(rows[..i], vs[..i]))
      invariant intact <==> RowsIntact(vs[..i])
    {
      assert rows[..i + 1][..i] == rows[..i] && vs[..i + 1] == vs[..i] + [vs[i]];
      match vs[i]
      case Unsigned => unsigned := unsigned + 1;
      case OutOfScheme => signed := signed + 1;
      case RowVerified => signed, verified := signed + 1, verified + 1;
      case RowKeyMissing => signed, unverifiable, intact := signed + 1, unverifiable + 1, false;
      case Tampered =>
        signed, intact := signed + 1, false;
        if |tampered| < 50 { tampered := tampered + [rows[i].id]; }
    }
    assert rows[..|rows|] == rows && vs[..|rows|] == vs;
    r := Report(|rows|, signed, unsigned, verified, tampered, unverifiable, [], 0, [], intact);
  }

  /** The checkpoint half: passes are counted, failures listed, out-of-scheme ones neither. */
  method TallyCheckpoints(vs: seq<CheckpointVerdict>) returns (ok: nat, bad: seq<nat>)
    ensures ok == GoodOnes(vs) && bad == BadOnes(vs)
  {
    ok, bad := 0, [];
    for i := 0 to |vs|
      invariant ok == GoodOnes(vs[..i]) && bad == BadOnes(vs[..i])
    {
      assert vs[..i + 1][..i] == vs[..i];
      if vs[i] == Verified { ok := ok + 1; } else if vs[i] != Skipped { bad := bad + [i]; }
    }
    assert vs[..|vs|] == vs;
  }

  method NoteRowKeys(rows: seq<Row>, vs: seq<RowVerdict>) returns (missing: seq<string>)
    requires |rows| == |vs|
    ensures missing == NoteAll([], MissingRowKeys(rows, vs))
  {
    missing := [];
    for i := 0 to |rows|
      invariant missing == NoteAll([], MissingRowKeys(rows[..i], vs[..i]))
    {
      assert rows[..i + 1][..i] == rows[..i] && vs[..i + 1][..i] == vs[..i];
      assert MissingRowKeys(rows[..i], vs[..i]) + [] == MissingRowKeys(rows[..i], vs[..i]);
      if vs[i] == RowKeyMissing {
        NoteOne([], MissingRowKeys(rows[..i], vs[..i]), rows[i].sigKey);
        missing := Note(missing, rows[i].sigKey);
      }
    }
    assert rows[..|rows|] == rows && vs[..|rows|] == vs;
  }

  method NoteSealKeys(noted: seq<string>, cs: seq<Checkpoint>, vs: seq<CheckpointVerdict>) returns (missing: seq<string>)
    requires |cs| == |vs|
    ensures missing == NoteAll(noted, MissingSealKeys(cs, vs))
  {
    missing := noted;
    for i := 0 to |cs|
      invariant missing == NoteAll(noted, MissingSealKeys(cs[..i], vs[..i]))
    {
      assert cs[..i + 1][..i] == cs[..i] && vs[..i + 1][..i] == vs[..i];
      assert MissingSealKeys(cs[..i], vs[..i]) + [] == MissingSealKeys(cs[..i], vs[..i]);
      if vs[i] == KeyNotLoaded {
        NoteOne(noted, MissingSealKeys(cs[..i], vs[..i]), cs[i].sigKey);
        missing := Note(missing, cs[i].sigKey);
      }
    }
    assert cs[..|cs|] == cs && vs[..|vs|] == vs;
  }

  method CountHeld(holds: seq<Hold>, rows: seq<Row>) returns (n: nat)
    ensures n == HeldCount(holds, rows)
  {
    n := 0;
    for k := 0 to |rows|
      invariant n == HeldCount(holds, rows[..k])
    {
      assert rows[..k + 1][..k] == rows[..k];
      var held := RowIsHeld(holds, rows[k]);
      if held { n := n + 1; }
    }
    assert rows[..|rows|] == rows;
  }

  /** The restore's inserts: the seq unique index refuses a number that is taken. */
  method InsertArchivedRows(live: map<nat, Row>, rows: seq<Row>) returns (ok: bool, table: map<nat, Row>)
    ensures ok <==> SeqsFree(live, rows)
    ensures ok ==> table == InsertRows(live, rows)
  {
    table := live;
    for k := 0 to |rows|
      invariant table == InsertRows(live, rows[..k]) && SeqsFree(live, rows[..k])
    {
      InsertFreeStep(live, rows, k);
      if rows[k].seqNo in table { return false, table; }
      table := table[rows[k].seqNo := rows[k]];
    }
    assert rows[..|rows|] == rows;
    ok := true;
  }

  /** The next insert goes through exactly when its number is still free. */
  lemma InsertFreeStep(live: map<nat, Row>, rows: seq<Row>, k: nat)
    requires k < |rows| && SeqsFree(live, rows[..k])
    ensures var table := InsertRows(live, rows[..k]);
            && (rows[k].seqNo in table ==> !SeqsFree(live, rows))
            && (rows[k].seqNo !in table ==> SeqsFree(live, rows[..k + 1]))
            && InsertRows(live, rows[..k + 1]) == table[rows[k].seqNo := rows[k]]
  {
    var init := rows[..k];
    assert rows[..k + 1][..k] == init;
    InsertRowsContent(live, init);
    if rows[k].seqNo in InsertRows(live, init) {
      if rows[k].seqNo !in live {
        var j :| 0 <= j < k && init[j].seqNo == rows[k].seqNo;
        assert rows[j].seqNo == rows[k].seqNo;
      }
    } else {
      assert forall j :: 0 <= j < k ==> rows[j] == init[j];
    }
  }

  // ---- the store --------------------------------------------------------------------------

  class Store {
    const platform: Platform
    const tenant: string
    var keys: seq<Key>
    var jwtKeys: seq<Key>
    var live: map<nat, Row>
    var nextSeq: nat
    var checkpoints: seq<Checkpoint>
    var archives: map<nat, Archive>
    var nextArchive: nat
    var files: map<string, string>

    ghost function View(): Db
      reads this
    {
      Db(tenant, keys, jwtKeys, live, nextSeq, checkpoints, archives, nextArchive, files)
    }

    constructor (platform: Platform, tenant: string, keys: seq<Key>, jwtKeys: seq<Key>)
      ensures View() == Db(tenant, keys, jwtKeys, map[], 1, [], map[], 0, map[])
      ensures this.platform == platform
    {
      this.platform, this.tenant, this.keys, this.jwtKeys := platform, tenant, keys, jwtKeys;
      live, nextSeq, checkpoints, archives, nextArchive, files := map[], 1, [], map[], 0, map[];
    }

    method WriteAuditEvidenceTx(e: Evidence)
      requires keys != []
      modifies this`live, this`nextSeq
      ensures View() == WriteEvidence(platform, old(View()), e)
      ensures nextSeq == old(nextSeq) + 1 && old(nextSeq) in live
      ensures forall q :: q != old(nextSeq) ==> (q in live <==> q in old(live)) && (q in live ==> live[q] == old(live)[q])
      ensures var r := live[old(nextSeq)];
              && r.id == e.id && r.seqNo == old(nextSeq) && r.userID == e.userID && r.action == e.action
              && r.status == e.status && r.details == e.details && r.entityType == e.entityType && r.entityID == e.entityID
              && r.correlationID == e.correlationID && r.createdAt == e.createdAt && r.sigVersion == SIG_VERSION
              && r.sigKey == platform.fingerprint(keys[0])
              && r.signature == platform.mac(keys[0], FrameAll(SignedFields(platform, SIG_VERSION, tenant, r)))
    {
      var key := keys[0];
      var unsigned := Row(e.id, nextSeq, e.userID, e.action, e.status, e.details, e.entityType, e.entityID,
                          e.correlationID, e.createdAt, "", SIG_VERSION, "", platform.fingerprint(key));
      var sig := SignRowWith(platform, SIG_VERSION, key, tenant, unsigned);
      live := live[nextSeq := unsigned.(signature := sig)];
      nextSeq := nextSeq + 1;
    }

    /** Seals every row written since the last checkpoint; no checkpoint when there is nothing new. */
    method WriteAuditCheckpoint(kind: string) returns (cp: Option<Checkpoint>)
      requires keys != []
      modifies this`checkpoints
      ensures View() == Seal(platform, old(View()), kind)
      ensures cp.Some? ==> checkpoints == old(checkpoints) + [cp.value]
      ensures cp.None? ==> checkpoints == old(checkpoints)
    {
      var fromSeq, prevSig := 1, "";
      if checkpoints != [] {
        var last := checkpoints[|checkpoints| - 1];
        fromSeq, prevSig := last.toSeq + 1, last.sig;
      }
      var maxSeq := MaxSeq(live, nextSeq);
      if maxSeq == 0 || maxSeq < fromSeq { return None; }
      var digest, rowCount, unsignedCount := DigestRange(platform, RowsIn(live, fromSeq, maxSeq));
      var sig := platform.mac(keys[0], CheckpointText(SIG_VERSION, tenant, fromSeq, maxSeq, rowCount, unsignedCount,
                                                      digest, prevSig));
      cp := Some(Checkpoint(fromSeq, maxSeq, rowCount, unsignedCount, digest, prevSig, sig, SIG_VERSION, kind, None,
                            platform.fingerprint(keys[0])));
      checkpoints := checkpoints + [cp.value];
    }

    /** Re-signs every row, then verifies every checkpoint. Read only. */
    method VerifyAuditEvidence() returns (r: Report)
      ensures Describes(platform, View(), r)
    {
      var db := Db(tenant, keys, jwtKeys, live, nextSeq, checkpoints, archives, nextArchive, files);
      var rows := AllRows(db);
      var vs := ClassifyRows(platform, db, rows);
      r := TallyRows(rows, vs);
      var cvs := Verdicts(platform, db);
      var ok, bad := TallyCheckpoints(cvs);
      var missing := NoteRowKeys(rows, vs);
      missing := NoteSealKeys(missing, checkpoints, cvs);
      NoteAllConcat([], MissingRowKeys(rows, vs), MissingSealKeys(checkpoints, cvs));
      r := r.(missingKeys := missing, checkpointsOk := ok, checkpointsBad := bad, intact := r.intact && bad == []);
    }

    /** Writes and re-reads the file, then records the archive and deletes the rows in one transaction. */
    method WriteArchiveWindow(i: nat, rows: seq<Row>, path: string, nonce: string, now: int, end: CommitEnd)
      returns (r: Outcome)
      requires i < |checkpoints| && keys != []
      requires rows == RowsIn(live, checkpoints[i].fromSeq, checkpoints[i].toSeq)
      requires |rows| == checkpoints[i].rowCount && Digest(platform, rows) == checkpoints[i].digest
      modifies this`files, this`archives, this`nextArchive, this`checkpoints, this`live
      ensures StageArchive(platform, old(View()), i, path, nonce, now).None? ==>
                r == Passed(SelfCheckFailed) && View() == DeleteFile(old(View()), path)
      ensures StageArchive(platform, old(View()), i, path, nonce, now).Some? ==>
                var (staged, a) := StageArchive(platform, old(View()), i, path, nonce, now).value;
                && View() == FinishArchive(staged, a, end)
                && r == RecordOutcome(old(checkpoints[i]).archiveId.Some?, end, old(nextArchive))
    {
      var c := checkpoints[i];
      var raw := platform.seal(nonce, Manifest(i, c.fromSeq, c.toSeq, c.rowCount, c.unsignedCount, c.digest, SIG_VERSION,
                                               now, rows));
      files := files[path := raw];
      var a := Archive(i, c.fromSeq, c.toSeq, c.rowCount, c.unsignedCount, c.digest, path, platform.sha(raw), "",
                       SIG_VERSION);
      a := a.(sig := platform.mac(keys[0], ManifestText(tenant, a)));
      var db := Db(tenant, keys, jwtKeys, live, nextSeq, checkpoints, archives, nextArchive, files);
      if VerifyArchiveFile(platform, db, a).None? {
        files := files - {path};
        assert files == old(files) - {path};
        return Passed(SelfCheckFailed);
      }
      r := RecordArchive(a, end);
    }

    /**
      The transaction: record, point and delete together, or find another run was first. Whenever it is told of an
      error it removes the file, also when the commit had taken effect.
     */
    method RecordArchive(a: Archive, end: CommitEnd) returns (r: Outcome)
      requires a.checkpointId < |checkpoints|
      modifies this`files, this`archives, this`nextArchive, this`checkpoints, this`live
      ensures View() == FinishArchive(old(View()), a, end)
      ensures r == RecordOutcome(old(checkpoints[a.checkpointId]).archiveId.Some?, end, old(nextArchive))
    {
      var c := checkpoints[a.checkpointId];
      if end == RolledBack {
        files := files - {a.path};
        return Passed(NotRecorded);
      }
      if c.archiveId.Some? {
        files := files - {a.path};
        return Passed(LostRace);
      }
      var id := nextArchive;
      archives, nextArchive := archives[id := a], id + 1;
      checkpoints := checkpoints[a.checkpointId := c.(archiveId := Some(id))];
      live := map q | q in live && !(a.fromSeq <= q <= a.toSeq) :: live[q];
      if end == Misreported {
        files := files - {a.path};
        return Passed(NotRecorded);
      }
      r := Archived(id);
    }

    /**
      Archives every eligible window: nothing without a policy, an error below the 30-day floor,
      otherwise one outcome per candidate, in order.
     */
    method RunAuditArchive(archiveAfterDays: Option<int>, pass: Pass) returns (ok: bool, ids: seq<nat>, outcomes: seq<Outcome>)
      requires keys != []
      modifies this`files, this`archives, this`nextArchive, this`checkpoints, this`live
      ensures archiveAfterDays.None? ==> ok && ids == [] && outcomes == [] && View() == old(View())
      ensures archiveAfterDays.Some? && archiveAfterDays.value < MIN_ARCHIVE_AFTER_DAYS ==>
                !ok && View() == old(View())
      ensures archiveAfterDays.Some? && archiveAfterDays.value >= MIN_ARCHIVE_AFTER_DAYS ==>
                && ok
                && ids == Candidates(old(View()), pass.now - archiveAfterDays.value * MICROS_PER_DAY, |old(checkpoints)|)
                && (View(), outcomes) == PassAll(platform, old(View()), ids, pass)
    {
      if archiveAfterDays.None? { return true, [], []; }
      if archiveAfterDays.value < MIN_ARCHIVE_AFTER_DAYS { return false, [], []; }
      var cutoff := pass.now - archiveAfterDays.value * MICROS_PER_DAY;
      var db := Db(tenant, keys, jwtKeys, live, nextSeq, checkpoints, archives, nextArchive, files);
      ids := Candidates(db, cutoff, |checkpoints|);
      outcomes := ArchiveEach(ids, pass);
      ok := true;
    }

    method ArchiveEach(ids: seq<nat>, pass: Pass) returns (outcomes: seq<Outcome>)
      requires keys != [] && forall k :: 0 <= k < |ids| ==> ids[k] < |checkpoints|
      modifies this`files, this`archives, this`nextArchive, this`checkpoints, this`live
      ensures (View(), outcomes) == PassAll(platform, old(View()), ids, pass)
    {
      outcomes := [];
      for k := 0 to |ids|
        invariant |checkpoints| == |old(checkpoints)| && keys == old(keys)
        invariant (View(), outcomes) == PassAll(platform, old(View()), ids[..k], pass)
      {
        PassAllStep(platform, old(View()), ids, k, pass);
        var outcome := ArchiveOne(ids[k], pass);
        outcomes := outcomes + [outcome];
      }
      assert ids[..|ids|] == ids;
    }

    method ArchiveOne(i: nat, pass: Pass) returns (outcome: Outcome)
      requires i < |checkpoints| && keys != []
      modifies this`files, this`archives, this`nextArchive, this`checkpoints, this`live
      ensures (View(), outcome) == PassWindow(platform, old(View()), i, pass)
    {
      var c := checkpoints[i];
      if c.rowCount > pass.maxRows && !pass.allowLarge { return Passed(TooLarge); }
      var rows := RowsIn(live, c.fromSeq, c.toSeq);
      if |rows| != c.rowCount { return Passed(CountMismatch); }
      var digest, _, _ := DigestRange(platform, rows);
      if digest != c.digest { return Passed(DigestMismatch); }
      var heldCount := CountHeld(pass.holds, rows);
      if heldCount > 0 { return Passed(HeldRows(heldCount)); }
      outcome := WriteArchiveWindow(i, rows, PathOf(pass, c), pass.nonce, pass.now, EndOf(pass, i));
    }

    /** Verifies the archive, puts every row back under its own number and writes the restore as evidence. */
    method RestoreAuditArchive(archiveId: nat, event: Evidence) returns (restored: Option<nat>)
      requires keys != []
      modifies this`live, this`nextSeq, this`checkpoints, this`archives
      ensures var m := StageRestore(platform, old(View()), archiveId);
              if m.None? || CommitRestore(platform, old(View()), archiveId, m.value, event).None?
              then restored == None && View() == old(View())
              else restored == Some(|m.value.rows|)
                   && Some(View()) == CommitRestore(platform, old(View()), archiveId, m.value, event)
    {
      var db := Db(tenant, keys, jwtKeys, live, nextSeq, checkpoints, archives, nextArchive, files);
      var staged := StageRestore(platform, db, archiveId);
      if staged.None? { return None; }
      var m := staged.value;
      var free, table := InsertArchivedRows(live, m.rows);
      if !free { return None; }  // the transaction rolls back
      live := table;
      WriteAuditEvidenceTx(event);
      checkpoints := checkpoints[m.checkpointId := checkpoints[m.checkpointId].(archiveId := None)];
      archives := archives - {archiveId};
      restored := Some(|m.rows|);
    }
  }
}
