/**
  What every run of the audit log keeps: windows stay contiguous, every row ever committed is
  live or in the one archive its checkpoint points at, and verification accepts everything.
 */
module AuditLogInvariant {
  import opened Text
  import opened AuditEvidence
  import opened AuditLog

  /** Live rows are committed rows, each under its own number. */
  ghost predicate RowsOk(s: State)
  {
    && 1 <= s.db.nextSeq
    && (forall q :: q in s.history ==> 1 <= q < s.db.nextSeq && s.history[q].seqNo == q)
    && (forall q :: q in s.db.live ==> q in s.history && s.db.live[q] == s.history[q])
  }

  /** Window i starts where window i - 1 ended and does not reach beyond what was written. */
  ghost predicate WindowOk(s: State, i: nat)
    requires i < |s.db.checkpoints|
  {
    var c := s.db.checkpoints[i];
    && c.fromSeq == (if i == 0 then 1 else s.db.checkpoints[i - 1].toSeq + 1)
    && c.fromSeq <= c.toSeq < s.db.nextSeq
  }

  /** The windows tile 1, 2, ... without gap or overlap. */
  ghost predicate Contiguous(s: State)
  {
    forall i :: 0 <= i < |s.db.checkpoints| ==> WindowOk(s, i)
  }

  ghost function Sealed(s: State, i: nat): seq<Row>
    requires i < |s.db.checkpoints|
  {
    RowsIn(s.history, s.db.checkpoints[i].fromSeq, s.db.checkpoints[i].toSeq)
  }

  /** A checkpoint states exactly what its window held. */
  ghost predicate CheckpointOk(p: Platform, s: State, i: nat)
    requires i < |s.db.checkpoints|
  {
    var c := s.db.checkpoints[i];
    && c.prevSig == (if i == 0 then "" else s.db.checkpoints[i - 1].sig)
    && c.toSeq in s.history
    && c.digest == Digest(p, Sealed(s, i)) && c.rowCount == |Sealed(s, i)|
    && c.unsignedCount == CountUnsigned(Sealed(s, i))
  }

  /** An archive record matches its checkpoint and its file opens to exactly the sealed rows. */
  ghost predicate ArchiveOk(p: Platform, s: State, a: Archive)
  {
    && a.checkpointId < |s.db.checkpoints|
    && var c := s.db.checkpoints[a.checkpointId];
    && a.fromSeq == c.fromSeq && a.toSeq == c.toSeq && a.rowCount == c.rowCount
    && a.unsignedCount == c.unsignedCount && a.digest == c.digest
    && a.path in s.db.files && p.sha(s.db.files[a.path]) == a.fileSha
    && p.open(s.db.files[a.path]).Some?
    && p.open(s.db.files[a.path]).value.checkpointId == a.checkpointId
    && p.open(s.db.files[a.path]).value.rows == Sealed(s, a.checkpointId)
  }

  ghost predicate ArchivesOk(p: Platform, s: State)
  {
    && (forall id :: id in s.db.archives ==> id < s.db.nextArchive && ArchiveOk(p, s, s.db.archives[id]))
    && (forall u :: u in s.uploads ==> ArchiveOk(p, s, s.uploads[u]))
    && PathsDistinct(s)
  }

  /** No archive run writes to a file that a record or another run names. */
  ghost predicate PathsDistinct(s: State)
  {
    && (forall id, u :: id in s.db.archives && u in s.uploads ==> s.db.archives[id].path != s.uploads[u].path)
    && (forall u, v :: u in s.uploads && v in s.uploads && u != v ==> s.uploads[u].path != s.uploads[v].path)
  }

  /** Where a sealed window is: all of it live, or none of it and the checkpoint's own archive holds it. */
  ghost predicate Placed(s: State, i: nat)
    requires i < |s.db.checkpoints|
  {
    var c := s.db.checkpoints[i];
    match c.archiveId
    case None => forall q :: c.fromSeq <= q <= c.toSeq && q in s.history ==> q in s.db.live
    case Some(id) =>
      && id in s.db.archives && s.db.archives[id].checkpointId == i
      && forall q :: c.fromSeq <= q <= c.toSeq ==> q !in s.db.live
  }

  ghost predicate OpenTailLive(s: State)
  {
    forall q :: q in s.history && NextFrom(s.db) <= q ==> q in s.db.live
  }

  ghost predicate RestoresOk(s: State)
  {
    forall j :: j in s.restores ==>
      var r := s.restores[j];
      && r.manifest.checkpointId < |s.db.checkpoints| && r.manifest.rows == Sealed(s, r.manifest.checkpointId)
      && r.archiveId < s.db.nextArchive
      && (r.archiveId in s.db.archives ==> s.db.archives[r.archiveId].checkpointId == r.manifest.checkpointId)
  }

  ghost predicate Inv(p: Platform, s: State)
  {
    && RowsOk(s) && Contiguous(s) && OpenTailLive(s) && ArchivesOk(p, s) && RestoresOk(s)
    && (forall i :: 0 <= i < |s.db.checkpoints| ==> CheckpointOk(p, s, i) && Placed(s, i))
  }

  // ---- helpers ---------------------------------------------------------------

  lemma WindowsAscend(s: State, i: nat, j: nat)
    requires Contiguous(s) && i < j < |s.db.checkpoints|
    ensures s.db.checkpoints[i].toSeq < s.db.checkpoints[j].fromSeq
    decreases j
  {
    assert WindowOk(s, j) && WindowOk(s, j - 1);
    if i < j - 1 { WindowsAscend(s, i, j - 1); }
  }

  /** s and t agree on every number below s.db.nextSeq. */
  ghost predicate SameHistory(s: State, t: State)
  {
    && s.db.nextSeq <= t.db.nextSeq
    && forall q :: 1 <= q < s.db.nextSeq ==>
         (q in s.history <==> q in t.history) && (q in s.history ==> s.history[q] == t.history[q])
  }

  /** The same window under the same seal; only archiveId may differ. */
  ghost predicate SameSeal(c: Checkpoint, d: Checkpoint)
  {
    d.(archiveId := c.archiveId) == c
  }

  /** No sealed window loses its place: t still has all of s's checkpoints, sealed alike. */
  ghost predicate SealsKept(s: State, t: State)
  {
    && |s.db.checkpoints| <= |t.db.checkpoints|
    && forall i :: 0 <= i < |s.db.checkpoints| ==> SameSeal(s.db.checkpoints[i], t.db.checkpoints[i])
  }

  ghost predicate Extends(s: State, t: State)
  {
    SameHistory(s, t) && SealsKept(s, t)
  }

  lemma SealedStable(s: State, t: State, i: nat)
    requires Contiguous(s) && Extends(s, t) && i < |s.db.checkpoints|
    ensures Sealed(t, i) == Sealed(s, i)
  {
    assert WindowOk(s, i) && SameSeal(s.db.checkpoints[i], t.db.checkpoints[i]);
    FromAtLeastOne(s, i);
    RowsInAgree(s.history, t.history, s.db.checkpoints[i].fromSeq, s.db.checkpoints[i].toSeq);
  }

  lemma FromAtLeastOne(s: State, i: nat)
    requires Contiguous(s) && i < |s.db.checkpoints|
    ensures 1 <= s.db.checkpoints[i].fromSeq
  {
    assert WindowOk(s, i);
  }

  lemma CheckpointStable(p: Platform, s: State, t: State, i: nat)
    requires Contiguous(s) && Extends(s, t) && i < |s.db.checkpoints| && CheckpointOk(p, s, i)
    ensures CheckpointOk(p, t, i) && WindowOk(t, i)
  {
    SealedStable(s, t, i);
    assert WindowOk(s, i) && SameSeal(s.db.checkpoints[i], t.db.checkpoints[i]);
    FromAtLeastOne(s, i);
    if i > 0 { assert SameSeal(s.db.checkpoints[i - 1], t.db.checkpoints[i - 1]); }
  }

  lemma ArchiveStable(p: Platform, s: State, t: State, a: Archive)
    requires Contiguous(s) && Extends(s, t) && ArchiveOk(p, s, a)
    requires a.path in t.db.files && t.db.files[a.path] == s.db.files[a.path]
    ensures ArchiveOk(p, t, a)
  {
    SealedStable(s, t, a.checkpointId);
    assert SameSeal(s.db.checkpoints[a.checkpointId], t.db.checkpoints[a.checkpointId]);
  }

  lemma RestoreStable(s: State, t: State)
    requires Contiguous(s) && Extends(s, t) && RestoresOk(s)
    requires forall j :: j in t.restores ==> j in s.restores && t.restores[j] == s.restores[j]
    requires s.db.nextArchive <= t.db.nextArchive
    requires forall id :: id in t.db.archives && id < s.db.nextArchive ==>
      id in s.db.archives && t.db.archives[id] == s.db.archives[id]
    ensures RestoresOk(t)
  {
    forall j | j in t.restores
      ensures t.restores[j].manifest.checkpointId < |t.db.checkpoints|
      ensures t.restores[j].manifest.rows == Sealed(t, t.restores[j].manifest.checkpointId)
    {
      SealedStable(s, t, s.restores[j].manifest.checkpointId);
    }
  }

  ghost predicate CheckpointsOk(p: Platform, s: State)
  {
    forall i :: 0 <= i < |s.db.checkpoints| ==> WindowOk(s, i) && CheckpointOk(p, s, i)
  }

  lemma CheckpointsCarry(p: Platform, s: State, t: State)
    requires CheckpointsOk(p, s) && Extends(s, t)
    ensures forall i :: 0 <= i < |s.db.checkpoints| ==> WindowOk(t, i) && CheckpointOk(p, t, i)
  {
    forall i | 0 <= i < |s.db.checkpoints| ensures WindowOk(t, i) && CheckpointOk(p, t, i) {
      CheckpointStable(p, s, t, i);
    }
  }

  /** t has no archive or upload that s lacked, and their files are untouched. */
  ghost predicate ArchivesShrink(s: State, t: State)
  {
    && s.db.nextArchive <= t.db.nextArchive
    && (forall id :: id in t.db.archives ==>
          && id in s.db.archives && t.db.archives[id] == s.db.archives[id]
          && KeptFile(s, t, t.db.archives[id].path))
    && (forall u :: u in t.uploads ==>
          u in s.uploads && t.uploads[u] == s.uploads[u] && KeptFile(s, t, t.uploads[u].path))
  }

  ghost predicate KeptFile(s: State, t: State, path: string)
  {
    path in s.db.files ==> path in t.db.files && t.db.files[path] == s.db.files[path]
  }

  lemma ArchivesCarry(p: Platform, s: State, t: State)
    requires Contiguous(s) && ArchivesOk(p, s) && Extends(s, t) && ArchivesShrink(s, t)
    ensures ArchivesOk(p, t)
  {
    forall id | id in t.db.archives ensures id < t.db.nextArchive && ArchiveOk(p, t, t.db.archives[id]) {
      assert KeptFile(s, t, t.db.archives[id].path);
      ArchiveStable(p, s, t, s.db.archives[id]);
    }
    forall u | u in t.uploads ensures ArchiveOk(p, t, t.uploads[u]) {
      assert KeptFile(s, t, t.uploads[u].path);
      ArchiveStable(p, s, t, s.uploads[u]);
    }
  }

  ghost predicate AllPlaced(s: State)
  {
    forall i :: 0 <= i < |s.db.checkpoints| ==> Placed(s, i)
  }

  // ---- every step keeps the invariant -------------------------------------------

  /** A step that only adds rows above everything sealed. */
  lemma QuietStepKeepsInv(p: Platform, s: State, t: State)
    requires Inv(p, s) && Extends(s, t) && RowsOk(t) && OpenTailLive(t)
    requires t.db.checkpoints == s.db.checkpoints && t.db.archives == s.db.archives && t.uploads == s.uploads
    requires t.db.nextArchive == s.db.nextArchive && t.restores == s.restores && t.db.files == s.db.files
    requires forall q :: 1 <= q < s.db.nextSeq ==> (q in s.db.live <==> q in t.db.live)
    ensures Inv(p, t)
  {
    RestoreStable(s, t);
    CheckpointsCarry(p, s, t);
    ArchivesCarry(p, s, t);
    QuietStepKeepsPlaces(s, t);
  }

  lemma QuietStepKeepsPlaces(s: State, t: State)
    requires Contiguous(s) && AllPlaced(s) && SameHistory(s, t)
    requires t.db.checkpoints == s.db.checkpoints && t.db.archives == s.db.archives
    requires forall q :: 1 <= q < s.db.nextSeq ==> (q in s.db.live <==> q in t.db.live)
    ensures AllPlaced(t)
  {
    forall i | 0 <= i < |t.db.checkpoints| ensures Placed(t, i) {
      assert WindowOk(s, i) && Placed(s, i);
      FromAtLeastOne(s, i);
    }
  }

  lemma WriteKeepsInv(p: Platform, s: State, e: Evidence)
    requires Inv(p, s) && s.db.keys != []
    ensures Inv(p, Apply(p, s, EvWrite(e)))
  {
    var t := Apply(p, s, EvWrite(e));
    QuietStepKeepsInv(p, s, t);
  }

  lemma BurnKeepsInv(p: Platform, s: State)
    requires Inv(p, s) && s.db.keys != []
    ensures Inv(p, Apply(p, s, EvBurnSeq))
  {
    var t := Apply(p, s, EvBurnSeq);
    QuietStepKeepsInv(p, s, t);
  }

  lemma RotateKeepsInv(p: Platform, s: State, key: Key)
    requires Inv(p, s) && s.db.keys != []
    ensures Inv(p, Apply(p, s, EvRotate(key)))
  {
    var t := Apply(p, s, EvRotate(key));
    QuietStepKeepsInv(p, s, t);
  }

  /** The window a seal adds is in order, correctly described, and wholly live. */
  lemma NewWindowOk(p: Platform, s: State, kind: string)
    requires Inv(p, s) && s.db.keys != [] && Seal(p, s.db, kind) != s.db
    ensures var t, n := Apply(p, s, EvSeal(kind)), |s.db.checkpoints|;
            && |t.db.checkpoints| == n + 1 && WindowOk(t, n) && CheckpointOk(p, t, n) && Placed(t, n)
            && t.db.checkpoints[n].toSeq == MaxSeq(s.db.live, s.db.nextSeq)
  {
    var t, n := Apply(p, s, EvSeal(kind)), |s.db.checkpoints|;
    var lo, hi := NextFrom(s.db), MaxSeq(s.db.live, s.db.nextSeq);
    assert hi in s.db.live && hi in s.history;
    RowsInAgree(s.db.live, s.history, lo, hi);
  }

  lemma SealKeepsInv(p: Platform, s: State, kind: string)
    requires Inv(p, s) && s.db.keys != []
    ensures Inv(p, Apply(p, s, EvSeal(kind)))
  {
    if Seal(p, s.db, kind) != s.db { SealedInv(p, s, kind); }
  }

  lemma SealedInv(p: Platform, s: State, kind: string)
    requires Inv(p, s) && s.db.keys != [] && Seal(p, s.db, kind) != s.db
    ensures Inv(p, Apply(p, s, EvSeal(kind)))
  {
    NewWindowOk(p, s, kind);
    SealCarries(p, s, kind);
    OneMoreWindow(p, Apply(p, s, EvSeal(kind)), |s.db.checkpoints|);
  }

  lemma OneMoreWindow(p: Platform, t: State, n: nat)
    requires RowsOk(t) && OpenTailLive(t) && ArchivesOk(p, t) && RestoresOk(t) && |t.db.checkpoints| == n + 1
    requires forall i :: 0 <= i < n ==> WindowOk(t, i) && CheckpointOk(p, t, i) && Placed(t, i)
    requires WindowOk(t, n) && CheckpointOk(p, t, n) && Placed(t, n)
    ensures Inv(p, t)
  {
  }

  lemma SealCarries(p: Platform, s: State, kind: string)
    requires Inv(p, s) && s.db.keys != [] && Seal(p, s.db, kind) != s.db
    ensures var t := Apply(p, s, EvSeal(kind));
            && RowsOk(t) && OpenTailLive(t) && ArchivesOk(p, t) && RestoresOk(t)
            && forall i :: 0 <= i < |s.db.checkpoints| ==> WindowOk(t, i) && CheckpointOk(p, t, i) && Placed(t, i)
  {
    var t := Apply(p, s, EvSeal(kind));
    SealTail(p, s, kind);
    RestoreStable(s, t);
    CheckpointsCarry(p, s, t);
    ArchivesCarry(p, s, t);
  }

  lemma SealTail(p: Platform, s: State, kind: string)
    requires RowsOk(s) && OpenTailLive(s) && AllPlaced(s) && s.db.keys != [] && Seal(p, s.db, kind) != s.db
    ensures var t := Apply(p, s, EvSeal(kind));
            && Extends(s, t) && RowsOk(t) && OpenTailLive(t) && ArchivesShrink(s, t)
            && forall i :: 0 <= i < |s.db.checkpoints| ==> Placed(t, i)
  {
    var t := Apply(p, s, EvSeal(kind));
    forall i | 0 <= i < |s.db.checkpoints| ensures Placed(t, i) { assert Placed(s, i); }
  }

  lemma StagedArchiveOk(p: Platform, s: State, i: nat, path: string, nonce: string, now: int)
    requires Sound(p) && Inv(p, s) && s.db.keys != [] && i < |s.db.checkpoints| && s.db.checkpoints[i].archiveId.None?
    requires StageArchive(p, s.db, i, path, nonce, now).Some?
    ensures var (db, a) := StageArchive(p, s.db, i, path, nonce, now).value;
            && a.path == path && a.checkpointId == i
            && db == s.db.(files := s.db.files[path := db.files[path]])
            && ArchiveOk(p, s.(db := db), a)
  {
    var (db, a) := StageArchive(p, s.db, i, path, nonce, now).value;
    var c := s.db.checkpoints[i];
    assert CheckpointOk(p, s, i) && Placed(s, i);
    FromAtLeastOne(s, i);
    RowsInAgree(s.db.live, s.history, c.fromSeq, c.toSeq);
    var m := Manifest(i, c.fromSeq, c.toSeq, c.rowCount, c.unsignedCount, c.digest, SIG_VERSION, now, Sealed(s, i));
    assert db.files[path] == p.seal(nonce, m);
    assert p.open(p.seal(nonce, m)) == Some(m);
    assert Sealed(s.(db := db), i) == Sealed(s, i);
  }

  lemma StageArchiveKeepsInv(p: Platform, s: State, run: nat, i: nat, path: string, nonce: string, now: int)
    requires Sound(p) && Inv(p, s) && s.db.keys != [] && PathFree(s, path)
    ensures Inv(p, Apply(p, s, EvStageArchive(run, i, path, nonce, now)))
  {
    var t := Apply(p, s, EvStageArchive(run, i, path, nonce, now));
    if run !in s.uploads && i < |s.db.checkpoints| && s.db.checkpoints[i].archiveId.None?
       && StageArchive(p, s.db, i, path, nonce, now).Some? {
      var (db, a) := StageArchive(p, s.db, i, path, nonce, now).value;
      StagedArchiveOk(p, s, i, path, nonce, now);
      NewFileKeepsInv(p, s, path, db.files[path]);
      AddUploadKeepsInv(p, s.(db := db), run, a);
    }
  }

  /** A path with no file is named by no archive and no upload. */
  lemma PathUnnamed(p: Platform, s: State, path: string)
    requires ArchivesOk(p, s) && path !in s.db.files
    ensures PathFree(s, path)
  {
    forall id | id in s.db.archives ensures s.db.archives[id].path != path { assert ArchiveOk(p, s, s.db.archives[id]); }
    forall u | u in s.uploads ensures s.uploads[u].path != path { assert ArchiveOk(p, s, s.uploads[u]); }
  }

  lemma NewFileKeepsInv(p: Platform, s: State, path: string, raw: string)
    requires Inv(p, s) && PathFree(s, path)
    ensures Inv(p, s.(db := s.db.(files := s.db.files[path := raw])))
  {
    QuietFileStep(p, s, s.(db := s.db.(files := s.db.files[path := raw])));
  }

  lemma AddUploadKeepsInv(p: Platform, s: State, run: nat, a: Archive)
    requires Inv(p, s) && run !in s.uploads && ArchiveOk(p, s, a)
    requires forall id :: id in s.db.archives ==> s.db.archives[id].path != a.path
    requires forall u :: u in s.uploads ==> s.uploads[u].path != a.path
    ensures Inv(p, s.(uploads := s.uploads[run := a]))
  {
    var t := s.(uploads := s.uploads[run := a]);
    SameTablesCarry(p, s, t);
    AddUploadKeepsArchives(p, s, t, run, a);
  }

  lemma AddUploadKeepsArchives(p: Platform, s: State, t: State, run: nat, a: Archive)
    requires Contiguous(s) && ArchivesOk(p, s) && run !in s.uploads && ArchiveOk(p, s, a)
    requires forall id :: id in s.db.archives ==> s.db.archives[id].path != a.path
    requires forall u :: u in s.uploads ==> s.uploads[u].path != a.path
    requires t == s.(uploads := s.uploads[run := a])
    ensures ArchivesOk(p, t)
  {
    assert Extends(s, t) && t.db == s.db;
    forall b | ArchiveOk(p, s, b) ensures ArchiveOk(p, t, b) { ArchiveStable(p, s, t, b); }
    assert PathsDistinct(t);
  }

  /** The two states differ in files and uploads at most. */
  ghost predicate SameTables(s: State, t: State)
  {
    && t.db.live == s.db.live && t.db.nextSeq == s.db.nextSeq && t.db.checkpoints == s.db.checkpoints
    && t.db.archives == s.db.archives && t.db.nextArchive == s.db.nextArchive
    && t.history == s.history && t.restores == s.restores
  }

  /** Writing or removing a file no archive or upload names, or dropping uploads. */
  lemma QuietFileStep(p: Platform, s: State, t: State)
    requires Inv(p, s) && SameTables(s, t)
    requires ArchivesShrink(s, t)
    ensures Inv(p, t)
  {
    ArchivesCarry(p, s, t);
    SameTablesCarry(p, s, t);
  }

  /** Rows, windows, placement and restores do not depend on uploads or files. */
  lemma SameTablesCarry(p: Platform, s: State, t: State)
    requires Inv(p, s) && SameTables(s, t)
    ensures RowsOk(t) && Contiguous(t) && OpenTailLive(t) && RestoresOk(t)
    ensures forall i :: 0 <= i < |t.db.checkpoints| ==> CheckpointOk(p, t, i) && Placed(t, i)
  {
    RestoreStable(s, t);
    CheckpointsCarry(p, s, t);
    forall i | 0 <= i < |t.db.checkpoints| ensures Placed(t, i) { assert Placed(s, i); }
  }

  /** An archive run that ends without recording anything: its file may go, nobody else's does. */
  lemma DropUploadKeepsInv(p: Platform, s: State, run: nat, t: State)
    requires Inv(p, s) && run in s.uploads
    requires t == s.(uploads := s.uploads - {run})
          || t == s.(uploads := s.uploads - {run}, db := DeleteFile(s.db, s.uploads[run].path))
    ensures Inv(p, t)
  {
    DroppedUploadShrinks(s, run, t);
    QuietFileStep(p, s, t);
  }

  lemma DroppedUploadShrinks(s: State, run: nat, t: State)
    requires PathsDistinct(s) && run in s.uploads
    requires t == s.(uploads := s.uploads - {run})
          || t == s.(uploads := s.uploads - {run}, db := DeleteFile(s.db, s.uploads[run].path))
    ensures ArchivesShrink(s, t)
  {
  }

  lemma CommitArchiveKeepsInv(p: Platform, s: State, run: nat)
    requires Inv(p, s) && s.db.keys != []
    ensures Inv(p, Apply(p, s, EvCommitArchive(run)))
  {
    var t := Apply(p, s, EvCommitArchive(run));
    if run in s.uploads && s.uploads[run].checkpointId < |s.db.checkpoints| {
      var a := s.uploads[run];
      if s.db.checkpoints[a.checkpointId].archiveId.Some? {
        DropUploadKeepsInv(p, s, run, t);
      } else {
        assert ArchiveOk(p, s, a);
        CommittedArchiveInv(p, s, run);
      }
    }
  }

  lemma CommittedArchiveInv(p: Platform, s: State, run: nat)
    requires Inv(p, s) && s.db.keys != [] && run in s.uploads && ArchiveOk(p, s, s.uploads[run])
    requires s.db.checkpoints[s.uploads[run].checkpointId].archiveId.None?
    ensures Inv(p, Apply(p, s, EvCommitArchive(run)))
  {
    var t := Apply(p, s, EvCommitArchive(run));
    CommittedArchiveExtends(p, s, run);
    RestoreStable(s, t);
    CheckpointsCarry(p, s, t);
    CommittedArchivesOk(p, s, run);
    CommittedArchivePlaced(p, s, run);
  }

  lemma CommittedArchiveExtends(p: Platform, s: State, run: nat)
    requires RowsOk(s) && s.db.keys != [] && run in s.uploads && s.uploads[run].checkpointId < |s.db.checkpoints|
    requires s.db.checkpoints[s.uploads[run].checkpointId].archiveId.None?
    ensures Extends(s, Apply(p, s, EvCommitArchive(run))) && RowsOk(Apply(p, s, EvCommitArchive(run)))
  {
    assert SealsKept(s, Apply(p, s, EvCommitArchive(run)));
  }

  lemma CommittedArchivesOk(p: Platform, s: State, run: nat)
    requires Contiguous(s) && ArchivesOk(p, s) && s.db.keys != [] && run in s.uploads && ArchiveOk(p, s, s.uploads[run])
    requires s.db.checkpoints[s.uploads[run].checkpointId].archiveId.None?
    requires Extends(s, Apply(p, s, EvCommitArchive(run)))
    ensures ArchivesOk(p, Apply(p, s, EvCommitArchive(run)))
  {
    var t := Apply(p, s, EvCommitArchive(run));
    assert t.db.files == s.db.files;
    forall a | ArchiveOk(p, s, a) ensures ArchiveOk(p, t, a) { ArchiveStable(p, s, t, a); }
    assert PathsDistinct(t);
  }

  lemma CommittedArchivePlaced(p: Platform, s: State, run: nat)
    requires Contiguous(s) && AllPlaced(s) && OpenTailLive(s)
    requires forall id :: id in s.db.archives ==> id < s.db.nextArchive
    requires s.db.keys != [] && run in s.uploads && ArchiveOk(p, s, s.uploads[run])
    requires s.db.checkpoints[s.uploads[run].checkpointId].archiveId.None?
    ensures AllPlaced(Apply(p, s, EvCommitArchive(run))) && OpenTailLive(Apply(p, s, EvCommitArchive(run)))
  {
    var t := Apply(p, s, EvCommitArchive(run));
    var i, n := s.uploads[run].checkpointId, |s.db.checkpoints|;
    forall j | 0 <= j < n ensures Placed(t, j) {
      assert WindowOk(s, j) && Placed(s, j);
      if j < i { WindowsAscend(s, j, i); } else if i < j { WindowsAscend(s, i, j); }
    }
    if i < n - 1 { WindowsAscend(s, i, n - 1); }
    assert WindowOk(s, n - 1);
  }

  lemma StageRestoreKeepsInv(p: Platform, s: State, job: nat, id: nat)
    requires Inv(p, s) && s.db.keys != []
    ensures Inv(p, Apply(p, s, EvStageRestore(job, id)))
  {
    var t := Apply(p, s, EvStageRestore(job, id));
    if t != s {
      assert s == t.(restores := s.restores);
      RestoresUntouchedCarry(p, s, t);
      StagedRestoreOk(p, s, job, id);
    }
  }

  lemma StagedRestoreOk(p: Platform, s: State, job: nat, id: nat)
    requires ArchivesOk(p, s) && RestoresOk(s) && s.db.keys != [] && Apply(p, s, EvStageRestore(job, id)) != s
    ensures RestoresOk(Apply(p, s, EvStageRestore(job, id)))
  {
    var t := Apply(p, s, EvStageRestore(job, id));
    assert ArchiveOk(p, s, s.db.archives[id]);
    assert t.restores[job].manifest == p.open(s.db.files[s.db.archives[id].path]).value;
    forall j | j in t.restores && j != job
      ensures t.restores[j].manifest.rows == Sealed(t, t.restores[j].manifest.checkpointId) {
      assert s.restores[j].manifest.rows == Sealed(s, s.restores[j].manifest.checkpointId);
    }
  }

  /** Nothing but RestoresOk looks at the pending restores. */
  lemma RestoresUntouchedCarry(p: Platform, s: State, t: State)
    requires Inv(p, s) && t == s.(restores := t.restores)
    ensures RowsOk(t) && Contiguous(t) && OpenTailLive(t) && ArchivesOk(p, t)
    ensures forall i :: 0 <= i < |t.db.checkpoints| ==> CheckpointOk(p, t, i) && Placed(t, i)
  {
    CheckpointsCarry(p, s, t);
    ArchivesCarry(p, s, t);
    forall i | 0 <= i < |t.db.checkpoints| ensures Placed(t, i) { assert Placed(s, i); }
  }

  lemma DropRestoreKeepsInv(p: Platform, s: State, job: nat)
    requires Inv(p, s) && s.db.keys != []
    ensures Inv(p, Apply(p, s, EvDropRestore(job)))
  {
    var t := Apply(p, s, EvDropRestore(job));
    RestoresUntouchedCarry(p, s, t);
    RestoreStable(s, t);
  }

  /** Inserting rows adds exactly their numbers, each with its row. */
  lemma {:induction false} InsertRowsContent(live: map<nat, Row>, rows: seq<Row>)
    requires forall i, j :: 0 <= i < j < |rows| ==> rows[i].seqNo != rows[j].seqNo
    ensures var out := InsertRows(live, rows);
            && (forall q :: q in out <==> q in live || exists i :: 0 <= i < |rows| && rows[i].seqNo == q)
            && (forall i :: 0 <= i < |rows| ==> out[rows[i].seqNo] == rows[i])
            && (forall q :: q in live && (forall i :: 0 <= i < |rows| ==> rows[i].seqNo != q) ==> out[q] == live[q])
  {
    if rows != [] {
      var init, last := rows[..|rows| - 1], rows[|rows| - 1];
      InsertRowsContent(live, init);
      assert forall i :: 0 <= i < |init| ==> init[i] == rows[i];
      forall q ensures q in InsertRows(live, rows) <==> q in live || exists i :: 0 <= i < |rows| && rows[i].seqNo == q {
        if i :| 0 <= i < |rows| && rows[i].seqNo == q {
          if i < |init| { assert init[i].seqNo == q; } else { assert q == last.seqNo; }
        }
      }
    }
  }

  lemma CommitRestoreKeepsInv(p: Platform, s: State, job: nat, ev: Evidence)
    requires Inv(p, s) && s.db.keys != []
    ensures Inv(p, Apply(p, s, EvCommitRestore(job, ev)))
  {
    var t := Apply(p, s, EvCommitRestore(job, ev));
    if job in s.restores {
      var r := s.restores[job];
      if CommitRestore(p, s.db, r.archiveId, r.manifest, ev).None? {
        assert t == Apply(p, s, EvDropRestore(job));
        DropRestoreKeepsInv(p, s, job);
      } else {
        CommittedRestoreInv(p, s, job, ev);
      }
    }
  }

  lemma CommittedRestoreInv(p: Platform, s: State, job: nat, ev: Evidence)
    requires Inv(p, s) && s.db.keys != [] && job in s.restores
    requires CommitRestore(p, s.db, s.restores[job].archiveId, s.restores[job].manifest, ev).Some?
    ensures Inv(p, Apply(p, s, EvCommitRestore(job, ev)))
  {
    var t := Apply(p, s, EvCommitRestore(job, ev));
    RestoredRows(p, s, job, ev);
    RestoreStable(s, t);
    CheckpointsCarry(p, s, t);
    ArchivesCarry(p, s, t);
    forall j | 0 <= j < |t.db.checkpoints| ensures Placed(t, j) { RestoredPlaced(p, s, job, ev, j); }
  }

  lemma RestoredRows(p: Platform, s: State, job: nat, ev: Evidence)
    requires RowsOk(s) && Contiguous(s) && OpenTailLive(s) && RestoresOk(s) && s.db.keys != [] && job in s.restores
    requires CommitRestore(p, s.db, s.restores[job].archiveId, s.restores[job].manifest, ev).Some?
    ensures var t := Apply(p, s, EvCommitRestore(job, ev));
            Extends(s, t) && RowsOk(t) && OpenTailLive(t) && ArchivesShrink(s, t)
  {
    var t := Apply(p, s, EvCommitRestore(job, ev));
    RestoredLive(p, s, job, ev);
    RestoredSeals(p, s, job, ev);
    OneMoreRowOk(s, t, SignedRow(p, s.db, ev));
    RestoredTail(s, t);
  }

  lemma OneMoreRowOk(s: State, t: State, row: Row)
    requires RowsOk(s) && row.seqNo == s.db.nextSeq && t.db.nextSeq == s.db.nextSeq + 1
    requires t.history == s.history[s.db.nextSeq := row]
    requires forall q :: q in t.db.live ==>
      if q == s.db.nextSeq then t.db.live[q] == row else q in s.history && t.db.live[q] == s.history[q]
    ensures RowsOk(t) && SameHistory(s, t)
  {
  }

  lemma RestoredTail(s: State, t: State)
    requires OpenTailLive(s) && SealsKept(s, t) && |t.db.checkpoints| == |s.db.checkpoints|
    requires t.history.Keys == s.history.Keys + {s.db.nextSeq} && s.db.nextSeq in t.db.live
    requires forall q :: q in s.db.live ==> q in t.db.live
    ensures OpenTailLive(t)
  {
    var n := |s.db.checkpoints|;
    if n > 0 { assert SameSeal(s.db.checkpoints[n - 1], t.db.checkpoints[n - 1]); }
    assert NextFrom(t.db) == NextFrom(s.db);
  }

  lemma RestoredSeals(p: Platform, s: State, job: nat, ev: Evidence)
    requires s.db.keys != [] && job in s.restores
    requires CommitRestore(p, s.db, s.restores[job].archiveId, s.restores[job].manifest, ev).Some?
    ensures SealsKept(s, Apply(p, s, EvCommitRestore(job, ev)))
    ensures ArchivesShrink(s, Apply(p, s, EvCommitRestore(job, ev)))
  {
  }

  lemma RestoredPlaced(p: Platform, s: State, job: nat, ev: Evidence, j: nat)
    requires RowsOk(s) && Contiguous(s) && RestoresOk(s) && s.db.keys != [] && job in s.restores
    requires j < |s.db.checkpoints| && Placed(s, j)
    requires CommitRestore(p, s.db, s.restores[job].archiveId, s.restores[job].manifest, ev).Some?
    ensures Placed(Apply(p, s, EvCommitRestore(job, ev)), j)
  {
    var i := s.restores[job].manifest.checkpointId;
    RestoredLive(p, s, job, ev);
    assert WindowOk(s, j);
    if j < i { WindowsAscend(s, j, i); } else if i < j { WindowsAscend(s, i, j); }
  }

  /** The rows of a window, by number: a number is among them exactly when it is in range and was committed. */
  lemma SealedByNumber(s: State, i: nat)
    requires RowsOk(s) && Contiguous(s) && i < |s.db.checkpoints|
    ensures var c, rows := s.db.checkpoints[i], Sealed(s, i);
            && (forall k :: 0 <= k < |rows| ==>
                  && c.fromSeq <= rows[k].seqNo <= c.toSeq && rows[k].seqNo in s.history
                  && s.history[rows[k].seqNo] == rows[k])
            && (forall q :: c.fromSeq <= q <= c.toSeq && q in s.history ==>
                  exists k :: 0 <= k < |rows| && rows[k].seqNo == q)
  {
    var c, rows := s.db.checkpoints[i], Sealed(s, i);
    FromAtLeastOne(s, i);
    forall k | 0 <= k < |rows|
      ensures c.fromSeq <= rows[k].seqNo <= c.toSeq && rows[k].seqNo in s.history
      ensures s.history[rows[k].seqNo] == rows[k]
    {
      assert rows[k] in rows;
      RowsInMember(s.history, c.fromSeq, c.toSeq, rows[k]);
    }
    forall q | c.fromSeq <= q <= c.toSeq && q in s.history
      ensures exists k :: 0 <= k < |rows| && rows[k].seqNo == q
    {
      RowsInMember(s.history, c.fromSeq, c.toSeq, s.history[q]);
      var k :| 0 <= k < |rows| && rows[k] == s.history[q];
      assert rows[k].seqNo == q;
    }
  }

  /** Putting a sealed window's rows back adds exactly the numbers committed in its range. */
  lemma InsertedWindow(s: State, i: nat)
    requires RowsOk(s) && Contiguous(s) && i < |s.db.checkpoints| && SeqsFree(s.db.live, Sealed(s, i))
    ensures var c, mid := s.db.checkpoints[i], InsertRows(s.db.live, Sealed(s, i));
            && (forall q :: q in mid <==> q in s.db.live || (c.fromSeq <= q <= c.toSeq && q in s.history))
            && (forall q :: q in mid ==> q in s.history && mid[q] == s.history[q])
  {
    var c, rows := s.db.checkpoints[i], Sealed(s, i);
    SealedByNumber(s, i);
    InsertRowsContent(s.db.live, rows);
    var mid := InsertRows(s.db.live, rows);
    forall q ensures q in mid <==> q in s.db.live || (c.fromSeq <= q <= c.toSeq && q in s.history)
             ensures q in mid ==> q in s.history && mid[q] == s.history[q] {
      if k :| 0 <= k < |rows| && rows[k].seqNo == q {
        assert mid[q] == rows[k];
      }
    }
  }

  /** After a committed restore, live is what it was plus the sealed window plus the event row. */
  lemma RestoredLive(p: Platform, s: State, job: nat, ev: Evidence)
    requires RowsOk(s) && Contiguous(s) && RestoresOk(s) && s.db.keys != [] && job in s.restores
    requires CommitRestore(p, s.db, s.restores[job].archiveId, s.restores[job].manifest, ev).Some?
    ensures var t := Apply(p, s, EvCommitRestore(job, ev));
            var c := s.db.checkpoints[s.restores[job].manifest.checkpointId];
            && (forall q :: q in t.db.live <==>
                  q in s.db.live || (c.fromSeq <= q <= c.toSeq && q in s.history) || q == s.db.nextSeq)
            && (forall q :: q in t.db.live && q != s.db.nextSeq ==> q in s.history && t.db.live[q] == s.history[q])
            && t.db.live[s.db.nextSeq] == SignedRow(p, s.db, ev)
            && t.history == s.history[s.db.nextSeq := SignedRow(p, s.db, ev)]
  {
    var m := s.restores[job].manifest;
    InsertedWindow(s, m.checkpointId);
    assert Apply(p, s, EvCommitRestore(job, ev)).db.live
        == InsertRows(s.db.live, m.rows)[s.db.nextSeq := SignedRow(p, s.db, ev)];
  }

  lemma LostRaceKeepsInv(p: Platform, s: State, run: nat)
    requires Inv(p, s) && s.db.keys != [] && TruthfulCommit(s, EvMisreportedCommit(run))
    ensures Inv(p, Apply(p, s, EvMisreportedCommit(run)))
  {
    if run in s.uploads && s.uploads[run].checkpointId < |s.db.checkpoints| {
      LostRaceState(p, s, run);
      DropUploadKeepsInv(p, s, run, Apply(p, s, EvMisreportedCommit(run)));
    }
  }

  lemma LostRaceState(p: Platform, s: State, run: nat)
    requires s.db.keys != [] && run in s.uploads && s.uploads[run].checkpointId < |s.db.checkpoints|
    requires s.db.checkpoints[s.uploads[run].checkpointId].archiveId.Some?
    ensures Apply(p, s, EvMisreportedCommit(run))
            == s.(uploads := s.uploads - {run}, db := DeleteFile(s.db, s.uploads[run].path))
  {
  }

  // ---- over whole runs ---------------------------------------------------------------

  lemma StepKeepsInv(p: Platform, s: State, e: Event)
    requires Sound(p) && Inv(p, s) && s.db.keys != [] && FreshPath(s, e) && TruthfulCommit(s, e)
    ensures Inv(p, Apply(p, s, e))
  {
    match e
    case EvWrite(ev) => WriteKeepsInv(p, s, ev);
    case EvBurnSeq => BurnKeepsInv(p, s);
    case EvRotate(key) => RotateKeepsInv(p, s, key);
    case EvSeal(kind) => SealKeepsInv(p, s, kind);
    case EvStageArchive(run, i, path, nonce, now) => StageArchiveKeepsInv(p, s, run, i, path, nonce, now);
    case EvCommitArchive(run) => CommitArchiveKeepsInv(p, s, run);
    case EvFailArchive(run) => if run in s.uploads { DropUploadKeepsInv(p, s, run, Apply(p, s, e)); }
    case EvMisreportedCommit(run) => LostRaceKeepsInv(p, s, run);
    case EvCrashArchive(run) =>
      if run in s.uploads { DropUploadKeepsInv(p, s, run, Apply(p, s, e)); }
      else { assert s.uploads - {run} == s.uploads; }
    case EvStageRestore(job, id) => StageRestoreKeepsInv(p, s, job, id);
    case EvCommitRestore(job, ev) => CommitRestoreKeepsInv(p, s, job, ev);
    case EvDropRestore(job) => DropRestoreKeepsInv(p, s, job);
  }

  /** Every reachable state of every run with truthful commits, whatever races and crashes, satisfies the invariant. */
  lemma {:induction false} RunKeepsInv(p: Platform, s: State, events: seq<Event>)
    requires Sound(p) && Inv(p, s) && s.db.keys != [] && FreshPaths(p, s, events) && TruthfulCommits(p, s, events)
    ensures Inv(p, Run(p, s, events))
    decreases |events|
  {
    if events != [] {
      StepKeepsInv(p, s, events[0]);
      RunKeepsInv(p, Apply(p, s, events[0]), events[1..]);
    }
  }
}
