/**
  The audit log as a step machine: rows, sealed windows, archives and their files
  (engines/audit_evidence.go, engines/audit_archive.go). Each transaction is one step;
  an archive run and a restore are two steps each, so runs may race or crash between them.
 */
module AuditLog {
  import opened Text
  import opened AuditEvidence

  /** A sealed window; its id is its position. prevSig "" is the NULL of the first one. */
  datatype Checkpoint = Checkpoint(fromSeq: nat, toSeq: nat, rowCount: nat, unsignedCount: nat, digest: string,
                                   prevSig: string, sig: string, sigVersion: string, kind: string,
                                   archiveId: Option<nat>, sigKey: string)

  /** One audit_archives row. */
  datatype Archive = Archive(checkpointId: nat, fromSeq: nat, toSeq: nat, rowCount: nat, unsignedCount: nat,
                             digest: string, path: string, fileSha: string, sig: string, sigVersion: string)

  /** One tenant's audit tables, its keyrings (newest key first) and the archive directory. */
  datatype Db = Db(tenant: string, keys: seq<Key>, jwtKeys: seq<Key>, live: map<nat, Row>, nextSeq: nat,
                   checkpoints: seq<Checkpoint>, archives: map<nat, Archive>, nextArchive: nat,
                   files: map<string, string>)

  /** The caller's part of an evidence row. */
  datatype Evidence = Evidence(id: string, userID: string, action: string, status: string, details: string,
                               entityType: string, entityID: string, correlationID: string, createdAt: int)

  // ---- reading -----------------------------------------------------------

  /** The rows numbered lo..hi, in order; numbering starts at 1. */
  function RowsIn(rows: map<nat, Row>, lo: nat, hi: nat): seq<Row>
    decreases hi
  {
    if hi < lo || hi == 0 then []
    else RowsIn(rows, lo, hi - 1) + (if hi in rows then [rows[hi]] else [])
  }

  lemma {:induction false} RowsInAgree(a: map<nat, Row>, b: map<nat, Row>, lo: nat, hi: nat)
    requires forall q :: lo <= q <= hi ==> (q in a <==> q in b) && (q in a ==> a[q] == b[q])
    ensures RowsIn(a, lo, hi) == RowsIn(b, lo, hi)
    decreases hi
  {
    if lo <= hi && hi != 0 {
      RowsInAgree(a, b, lo, hi - 1);
      assert hi in a <==> hi in b;
    }
  }

  lemma {:induction false} RowsInMember(rows: map<nat, Row>, lo: nat, hi: nat, r: Row)
    requires 1 <= lo
    ensures r in RowsIn(rows, lo, hi) <==> exists q :: lo <= q <= hi && q in rows && rows[q] == r
    decreases hi
  {
    if lo <= hi {
      RowsInMember(rows, lo, hi - 1, r);
      assert r in RowsIn(rows, lo, hi) <==> r in RowsIn(rows, lo, hi - 1) || (hi in rows && rows[hi] == r);
    }
  }

  /** The greatest row number up to n, 0 when there is none. */
  function MaxSeq(rows: map<nat, Row>, n: nat): (m: nat)
    ensures m <= n
    ensures m != 0 ==> m in rows
    ensures forall q :: m < q <= n ==> q !in rows
  {
    if n == 0 || n in rows then n else MaxSeq(rows, n - 1)
  }

  // ---- signatures ------------------------------------------------------------

  function VerifyKeys(db: Db, version: string): seq<Key>
  {
    if version == SIG_VERSION then db.keys else if version == SIG_VERSION_JWT then db.jwtKeys else []
  }

  predicate MacMatches(p: Platform, ring: seq<Key>, sig: string, text: string)
  {
    exists i :: 0 <= i < |ring| && p.mac(ring[i], text) == sig
  }

  predicate KeyLoaded(p: Platform, ring: seq<Key>, fingerprint: string)
  {
    exists i :: 0 <= i < |ring| && p.fingerprint(ring[i]) == fingerprint
  }

  function CheckpointText(version: string, tenant: string, fromSeq: nat, toSeq: nat, rowCount: nat,
                          unsignedCount: nat, digest: string, prevSig: string): string
  {
    Join([version, tenant, Decimal(fromSeq), Decimal(toSeq), Decimal(rowCount), Decimal(unsignedCount), digest,
          prevSig], '|')
  }

  function ManifestText(tenant: string, a: Archive): string
  {
    Join([a.sigVersion, tenant, Decimal(a.checkpointId), Decimal(a.fromSeq), Decimal(a.toSeq), Decimal(a.rowCount),
          Decimal(a.unsignedCount), a.digest, a.fileSha], '|')
  }

  // ---- verification ----------------------------------------------------------

  datatype RowVerdict = Unsigned | OutOfScheme | RowVerified | RowKeyMissing | Tampered

  function CheckRow(p: Platform, db: Db, r: Row): RowVerdict
  {
    var ring := VerifyKeys(db, r.sigVersion);
    if r.signature == "" then Unsigned
    else if ring == [] then OutOfScheme
    else if MacMatches(p, ring, r.signature, FrameAll(SignedFields(p, r.sigVersion, db.tenant, r))) then RowVerified
    else if r.sigKey != "" && !KeyLoaded(p, ring, r.sigKey) then RowKeyMissing
    else Tampered
  }

  /** verifyArchiveFile: the manifest, or nothing when any of its four checks fails. */
  function VerifyArchiveFile(p: Platform, db: Db, a: Archive): Option<Manifest>
  {
    if a.path !in db.files || p.sha(db.files[a.path]) != a.fileSha then None
    else
      var ring := VerifyKeys(db, a.sigVersion);
      if ring != [] && !MacMatches(p, ring, a.sig, ManifestText(db.tenant, a)) then None
      else match p.open(db.files[a.path])
        case None => None
        case Some(m) =>
          if Digest(p, m.rows) != a.digest || |m.rows| != a.rowCount || CountUnsigned(m.rows) != a.unsignedCount
          then None else Some(m)
  }

  datatype CheckpointVerdict = Skipped | Verified | KeyNotLoaded | BadSignature | ArchiveBroken | WindowChanged

  /** One checkpoint of verifyCheckpoints: its own signature, then its window, live or archived. */
  function CheckCheckpoint(p: Platform, db: Db, i: nat): CheckpointVerdict
    requires i < |db.checkpoints|
  {
    var c := db.checkpoints[i];
    var ring := VerifyKeys(db, c.sigVersion);
    if ring == [] then Skipped
    else if !MacMatches(p, ring, c.sig, CheckpointText(c.sigVersion, db.tenant, c.fromSeq, c.toSeq, c.rowCount,
                                                       c.unsignedCount, c.digest, c.prevSig)) then
      if c.sigKey != "" && !KeyLoaded(p, ring, c.sigKey) then KeyNotLoaded else BadSignature
    else match c.archiveId
      case None =>
        var rows := RowsIn(db.live, c.fromSeq, c.toSeq);
        if Digest(p, rows) == c.digest && |rows| == c.rowCount && CountUnsigned(rows) == c.unsignedCount
        then Verified else WindowChanged
      case Some(id) =>
        if id !in db.archives || db.archives[id].checkpointId != i
           || VerifyArchiveFile(p, db, db.archives[id]).None? then ArchiveBroken
        else
          var a := db.archives[id];
          if a.digest == c.digest && a.rowCount == c.rowCount && a.unsignedCount == c.unsignedCount
          then Verified else WindowChanged
  }

  // ---- transactions ------------------------------------------------------------

  function SignedRow(p: Platform, db: Db, e: Evidence): Row
    requires db.keys != []
  {
    var r := Row(e.id, db.nextSeq, e.userID, e.action, e.status, e.details, e.entityType, e.entityID,
                 e.correlationID, e.createdAt, "", SIG_VERSION, "", p.fingerprint(db.keys[0]));
    r.(signature := SignRowWith(p, SIG_VERSION, db.keys[0], db.tenant, r))
  }

  /** WriteAuditEvidenceTx. */
  function WriteEvidence(p: Platform, db: Db, e: Evidence): Db
    requires db.keys != []
  {
    db.(live := db.live[db.nextSeq := SignedRow(p, db, e)], nextSeq := db.nextSeq + 1)
  }

  function NextFrom(db: Db): nat
  {
    if db.checkpoints == [] then 1 else db.checkpoints[|db.checkpoints| - 1].toSeq + 1
  }

  /** WriteAuditCheckpoint: seal everything after the last window, if there is anything. */
  function Seal(p: Platform, db: Db, kind: string): Db
    requires db.keys != []
  {
    var lo, hi := NextFrom(db), MaxSeq(db.live, db.nextSeq);
    if hi == 0 || hi < lo then db
    else
      var rows := RowsIn(db.live, lo, hi);
      var prev := if db.checkpoints == [] then "" else db.checkpoints[|db.checkpoints| - 1].sig;
      var digest, unsigned := Digest(p, rows), CountUnsigned(rows);
      var sig := p.mac(db.keys[0], CheckpointText(SIG_VERSION, db.tenant, lo, hi, |rows|, unsigned, digest, prev));
      db.(checkpoints := db.checkpoints + [Checkpoint(lo, hi, |rows|, unsigned, digest, prev, sig, SIG_VERSION, kind,
                                                      None, p.fingerprint(db.keys[0]))])
  }

  /**
    The first half of writeArchiveWindow: read the window, refuse a discrepancy, write and
    re-read the file. Nothing is recorded or deleted yet.
   */
  function StageArchive(p: Platform, db: Db, i: nat, path: string, nonce: string, now: int): Option<(Db, Archive)>
    requires i < |db.checkpoints| && db.keys != []
  {
    var c := db.checkpoints[i];
    var rows := RowsIn(db.live, c.fromSeq, c.toSeq);
    if |rows| != c.rowCount || Digest(p, rows) != c.digest then None
    else
      var m := Manifest(i, c.fromSeq, c.toSeq, c.rowCount, c.unsignedCount, c.digest, SIG_VERSION, now, rows);
      var raw := p.seal(nonce, m);
      var a := Archive(i, c.fromSeq, c.toSeq, c.rowCount, c.unsignedCount, c.digest, path, p.sha(raw), "", SIG_VERSION);
      var signed := a.(sig := p.mac(db.keys[0], ManifestText(db.tenant, a)));
      var written := db.(files := db.files[path := raw]);
      if VerifyArchiveFile(p, written, signed).None? then None else Some((written, signed))
  }

  function DeleteFile(db: Db, path: string): Db { db.(files := db.files - {path}) }

  /**
    The second half: record the archive, point the checkpoint at it and delete the rows, or
    lose the race and remove the file.
   */
  function CommitArchive(db: Db, a: Archive): Db
    requires a.checkpointId < |db.checkpoints|
  {
    var c := db.checkpoints[a.checkpointId];
    if c.archiveId.Some? then DeleteFile(db, a.path)
    else db.(archives := db.archives[db.nextArchive := a], nextArchive := db.nextArchive + 1,
             checkpoints := db.checkpoints[a.checkpointId := c.(archiveId := Some(db.nextArchive))],
             live := map q | q in db.live && !(a.fromSeq <= q <= a.toSeq) :: db.live[q])
  }

  /** How the archive transaction ends. The source removes the file whenever it is told of an error. */
  datatype CommitEnd = Committed | RolledBack | Misreported

  /** Misreported: the commit took effect, but its answer was an error. */
  function FinishArchive(db: Db, a: Archive, end: CommitEnd): Db
    requires a.checkpointId < |db.checkpoints|
  {
    match end
    case Committed => CommitArchive(db, a)
    case RolledBack => DeleteFile(db, a.path)
    case Misreported => DeleteFile(CommitArchive(db, a), a.path)
  }

  /** What RestoreAuditArchive checks before its transaction. */
  function StageRestore(p: Platform, db: Db, archiveId: nat): Option<Manifest>
  {
    if archiveId !in db.archives then None
    else match VerifyArchiveFile(p, db, db.archives[archiveId])
      case None => None
      case Some(m) =>
        if m.checkpointId < |db.checkpoints| && db.checkpoints[m.checkpointId].archiveId == Some(archiveId)
        then Some(m) else None
  }

  function InsertRows(live: map<nat, Row>, rows: seq<Row>): map<nat, Row>
  {
    if rows == [] then live else InsertRows(live, rows[..|rows| - 1])[rows[|rows| - 1].seqNo := rows[|rows| - 1]]
  }

  predicate SeqsFree(live: map<nat, Row>, rows: seq<Row>)
  {
    && (forall i :: 0 <= i < |rows| ==> rows[i].seqNo !in live)
    && (forall i, j :: 0 <= i < j < |rows| ==> rows[i].seqNo != rows[j].seqNo)
  }

  /** The restore transaction: refused (rolled back) when a row's seq is already live. */
  function CommitRestore(p: Platform, db: Db, archiveId: nat, m: Manifest, event: Evidence): Option<Db>
    requires db.keys != []
  {
    if !SeqsFree(db.live, m.rows) || m.checkpointId >= |db.checkpoints| then None
    else
      var back := WriteEvidence(p, db.(live := InsertRows(db.live, m.rows)), event);
      var c := db.checkpoints[m.checkpointId];
      Some(back.(checkpoints := db.checkpoints[m.checkpointId := c.(archiveId := None)],
                 archives := db.archives - {archiveId}))
  }

  // ---- the machine ---------------------------------------------------------------

  datatype Restore = Restore(archiveId: nat, manifest: Manifest)

  /** The tables, the archive runs and restores now between their two steps, and every row ever committed. */
  datatype State = State(db: Db, uploads: map<nat, Archive>, restores: map<nat, Restore>, history: map<nat, Row>)

  datatype Event =
    | EvWrite(evidence: Evidence)
    | EvBurnSeq                                   // a rolled-back insert consumes its sequence number
    | EvRotate(key: Key)                          // a new signing key is put in front of the ring
    | EvSeal(kind: string)
    | EvStageArchive(run: nat, checkpoint: nat, path: string, nonce: string, now: int)
    | EvCommitArchive(run: nat)
    | EvFailArchive(run: nat)                     // the transaction fails: its file is removed
    | EvMisreportedCommit(run: nat)               // it took effect, but an error was answered: its file is removed
    | EvCrashArchive(run: nat)                    // the process dies: its file stays behind
    | EvStageRestore(job: nat, archiveId: nat)
    | EvCommitRestore(job: nat, evidence: Evidence)
    | EvDropRestore(job: nat)

  function Apply(p: Platform, s: State, e: Event): (t: State)
    requires s.db.keys != []
    ensures t.db.keys != []
  {
    match e
    case EvWrite(ev) =>
      s.(db := WriteEvidence(p, s.db, ev), history := s.history[s.db.nextSeq := SignedRow(p, s.db, ev)])
    case EvBurnSeq => s.(db := s.db.(nextSeq := s.db.nextSeq + 1))
    case EvRotate(key) => s.(db := s.db.(keys := [key] + s.db.keys))
    case EvSeal(kind) => s.(db := Seal(p, s.db, kind))
    case EvStageArchive(run, i, path, nonce, now) =>
      if run in s.uploads || i >= |s.db.checkpoints| || s.db.checkpoints[i].archiveId.Some? then s
      else (match StageArchive(p, s.db, i, path, nonce, now)
            case None => s
            case Some(staged) => s.(db := staged.0, uploads := s.uploads[run := staged.1]))
    case EvCommitArchive(run) =>
      if run !in s.uploads || s.uploads[run].checkpointId >= |s.db.checkpoints| then s
      else s.(db := CommitArchive(s.db, s.uploads[run]), uploads := s.uploads - {run})
    case EvFailArchive(run) =>
      if run !in s.uploads then s
      else s.(db := DeleteFile(s.db, s.uploads[run].path), uploads := s.uploads - {run})
    case EvMisreportedCommit(run) =>
      if run !in s.uploads || s.uploads[run].checkpointId >= |s.db.checkpoints| then s
      else s.(db := FinishArchive(s.db, s.uploads[run], Misreported), uploads := s.uploads - {run})
    case EvCrashArchive(run) => s.(uploads := s.uploads - {run})
    case EvStageRestore(job, id) =>
      (match StageRestore(p, s.db, id)
       case None => s
       case Some(m) => if job in s.restores then s else s.(restores := s.restores[job := Restore(id, m)]))
    case EvCommitRestore(job, ev) =>
      if job !in s.restores then s
      else
        var r := s.restores[job];
        var rest := s.(restores := s.restores - {job});
        (match CommitRestore(p, s.db, r.archiveId, r.manifest, ev)
         case None => rest
         case Some(back) =>
           rest.(db := back, history := s.history[s.db.nextSeq := SignedRow(p, s.db, ev)]))
    case EvDropRestore(job) => s.(restores := s.restores - {job})
  }

  /** Neither an archive record nor another archive run names the file. */
  ghost predicate PathFree(s: State, path: string)
  {
    && (forall id :: id in s.db.archives ==> s.db.archives[id].path != path)
    && (forall u :: u in s.uploads ==> s.uploads[u].path != path)
  }

  /** The archive file name a run picks is nobody else's: the source's name has one-second resolution. */
  ghost predicate FreshPath(s: State, e: Event)
  {
    e.EvStageArchive? ==> PathFree(s, e.path)
  }

  /** No archive transaction that took effect is answered with an error; one that lost its race took none. */
  ghost predicate TruthfulCommit(s: State, e: Event)
  {
    e.EvMisreportedCommit? && e.run in s.uploads && s.uploads[e.run].checkpointId < |s.db.checkpoints| ==>
      s.db.checkpoints[s.uploads[e.run].checkpointId].archiveId.Some?
  }

  function Run(p: Platform, s: State, events: seq<Event>): (t: State)
    requires s.db.keys != []
    ensures t.db.keys != []
    decreases |events|
  {
    if events == [] then s else Run(p, Apply(p, s, events[0]), events[1..])
  }

  ghost predicate FreshPaths(p: Platform, s: State, events: seq<Event>)
    requires s.db.keys != []
    decreases |events|
  {
    events == [] || (FreshPath(s, events[0]) && FreshPaths(p, Apply(p, s, events[0]), events[1..]))
  }

  ghost predicate TruthfulCommits(p: Platform, s: State, events: seq<Event>)
    requires s.db.keys != []
    decreases |events|
  {
    events == [] || (TruthfulCommit(s, events[0]) && TruthfulCommits(p, Apply(p, s, events[0]), events[1..]))
  }
}
