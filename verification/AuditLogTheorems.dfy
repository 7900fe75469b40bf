/** The promises of the audit log: nothing is lost, clean evidence always verifies, restore undoes archive. */
module AuditLogTheorems {
  import opened Text
  import opened AuditEvidence
  import opened AuditLog
  import opened AuditLogInvariant

  // ---- signatures over every run -------------------------------------------------

  ghost predicate RowAuthentic(p: Platform, db: Db, r: Row)
  {
    r.signature == "" || CheckRow(p, db, r) == RowVerified
  }

  ghost predicate CheckpointAuthentic(p: Platform, db: Db, c: Checkpoint)
  {
    && c.sigVersion == SIG_VERSION
    && MacMatches(p, db.keys, c.sig, CheckpointText(c.sigVersion, db.tenant, c.fromSeq, c.toSeq, c.rowCount,
                                                    c.unsignedCount, c.digest, c.prevSig))
  }

  ghost predicate ArchiveAuthentic(p: Platform, db: Db, a: Archive)
  {
    a.sigVersion == SIG_VERSION && MacMatches(p, db.keys, a.sig, ManifestText(db.tenant, a))
  }

  /** Every row, checkpoint and archive carries a signature some key in the ring still matches. */
  ghost predicate Authentic(p: Platform, s: State)
  {
    && s.db.keys != []
    && (forall q :: q in s.history ==> RowAuthentic(p, s.db, s.history[q]))
    && (forall i :: 0 <= i < |s.db.checkpoints| ==> CheckpointAuthentic(p, s.db, s.db.checkpoints[i]))
    && (forall id :: id in s.db.archives ==> ArchiveAuthentic(p, s.db, s.db.archives[id]))
    && (forall u :: u in s.uploads ==> ArchiveAuthentic(p, s.db, s.uploads[u]))
  }

  lemma MacMatchesLongerRing(p: Platform, key: Key, ring: seq<Key>, sig: string, text: string)
    requires MacMatches(p, ring, sig, text)
    ensures MacMatches(p, [key] + ring, sig, text)
  {
    var i :| 0 <= i < |ring| && p.mac(ring[i], text) == sig;
    assert ([key] + ring)[i + 1] == ring[i];
  }

  lemma SignedRowAuthentic(p: Platform, db: Db, e: Evidence)
    requires Sound(p) && db.keys != []
    ensures RowAuthentic(p, db, SignedRow(p, db, e)) && SignedRow(p, db, e).signature != ""
  {
    var r := SignedRow(p, db, e);
    assert p.mac(db.keys[0], FrameAll(SignedFields(p, SIG_VERSION, db.tenant, r))) == r.signature;
  }

  lemma RotateKeepsAuthentic(p: Platform, s: State, key: Key)
    requires Authentic(p, s)
    ensures Authentic(p, Apply(p, s, EvRotate(key)))
  {
    var t := Apply(p, s, EvRotate(key));
    forall sig, text | MacMatches(p, s.db.keys, sig, text) ensures MacMatches(p, t.db.keys, sig, text) {
      MacMatchesLongerRing(p, key, s.db.keys, sig, text);
    }
    forall q | q in t.history ensures RowAuthentic(p, t.db, t.history[q]) {
      RingGrowthKeepsRow(p, s.db, t.db, s.history[q]);
    }
  }

  lemma RingGrowthKeepsRow(p: Platform, d: Db, e: Db, r: Row)
    requires RowAuthentic(p, d, r) && e.tenant == d.tenant && e.jwtKeys == d.jwtKeys && e.keys != []
    requires forall sig, text :: MacMatches(p, d.keys, sig, text) ==> MacMatches(p, e.keys, sig, text)
    ensures RowAuthentic(p, e, r)
  {
  }

  lemma SealKeepsAuthentic(p: Platform, s: State, kind: string)
    requires Authentic(p, s)
    ensures Authentic(p, Apply(p, s, EvSeal(kind)))
  {
    var t := Apply(p, s, EvSeal(kind));
    NewCheckpointAuthentic(p, s.db, kind);
    SealedAuthentic(p, s, t);
  }

  lemma NewCheckpointAuthentic(p: Platform, db: Db, kind: string)
    requires db.keys != []
    ensures var t := Seal(p, db, kind);
            t == db || exists c :: CheckpointAuthentic(p, db, c) && t == db.(checkpoints := db.checkpoints + [c])
  {
    var t, n := Seal(p, db, kind), |db.checkpoints|;
    if t != db {
      var c := t.checkpoints[n];
      assert p.mac(db.keys[0], CheckpointText(SIG_VERSION, db.tenant, c.fromSeq, c.toSeq, c.rowCount,
                                              c.unsignedCount, c.digest, c.prevSig)) == c.sig;
      assert CheckpointAuthentic(p, db, c);
    }
  }

  lemma SealedAuthentic(p: Platform, s: State, t: State)
    requires Authentic(p, s) && t == s.(db := s.db.(checkpoints := t.db.checkpoints))
    requires forall i :: 0 <= i < |t.db.checkpoints| ==> CheckpointAuthentic(p, s.db, t.db.checkpoints[i])
    ensures Authentic(p, t)
  {
    SameKeysCarry(p, s, t);
  }

  /** With the rings unchanged, whatever was authentic stays so. */
  lemma SameKeysCarry(p: Platform, s: State, t: State)
    requires Authentic(p, s)
    requires t.db.tenant == s.db.tenant && t.db.keys == s.db.keys && t.db.jwtKeys == s.db.jwtKeys
    ensures forall r :: RowAuthentic(p, s.db, r) ==> RowAuthentic(p, t.db, r)
    ensures forall c :: CheckpointAuthentic(p, s.db, c) ==> CheckpointAuthentic(p, t.db, c)
    ensures forall a :: ArchiveAuthentic(p, s.db, a) ==> ArchiveAuthentic(p, t.db, a)
  {
  }

  lemma StageKeepsAuthentic(p: Platform, s: State, run: nat, i: nat, path: string, nonce: string, now: int)
    requires Authentic(p, s)
    ensures Authentic(p, Apply(p, s, EvStageArchive(run, i, path, nonce, now)))
  {
    var t := Apply(p, s, EvStageArchive(run, i, path, nonce, now));
    if t != s {
      StagedArchiveAuthentic(p, s.db, i, path, nonce, now);
      UploadKeepsAuthentic(p, s, t, run);
    }
  }

  lemma UploadKeepsAuthentic(p: Platform, s: State, t: State, run: nat)
    requires Authentic(p, s) && t.history == s.history && t.db == s.db.(files := t.db.files) && run in t.uploads
    requires t.uploads == s.uploads[run := t.uploads[run]] && ArchiveAuthentic(p, s.db, t.uploads[run])
    ensures Authentic(p, t)
  {
    SameKeysCarry(p, s, t);
  }

  lemma StagedArchiveAuthentic(p: Platform, db: Db, i: nat, path: string, nonce: string, now: int)
    requires db.keys != [] && i < |db.checkpoints| && StageArchive(p, db, i, path, nonce, now).Some?
    ensures ArchiveAuthentic(p, db, StageArchive(p, db, i, path, nonce, now).value.1)
  {
    var a := StageArchive(p, db, i, path, nonce, now).value.1;
    assert ManifestText(db.tenant, a) == ManifestText(db.tenant, a.(sig := ""));
    assert p.mac(db.keys[0], ManifestText(db.tenant, a)) == a.sig;
  }

  lemma CommitArchiveKeepsAuthentic(p: Platform, s: State, run: nat)
    requires Authentic(p, s)
    ensures Authentic(p, Apply(p, s, EvCommitArchive(run)))
  {
    if run in s.uploads && s.uploads[run].checkpointId < |s.db.checkpoints| {
      var t := Apply(p, s, EvCommitArchive(run));
      RepointedCheckpointsAuthentic(p, s.db, t.db, s.uploads[run].checkpointId);
      CommittedRecords(p, s, run);
      RecordsCarry(p, s, t, s.uploads[run]);
    }
  }

  lemma MisreportKeepsAuthentic(p: Platform, s: State, run: nat)
    requires Authentic(p, s)
    ensures Authentic(p, Apply(p, s, EvMisreportedCommit(run)))
  {
    CommitArchiveKeepsAuthentic(p, s, run);
    MisreportTouchesFilesOnly(p, s, run);
    FilesAreNotSigned(p, Apply(p, s, EvCommitArchive(run)), Apply(p, s, EvMisreportedCommit(run)));
  }

  lemma MisreportTouchesFilesOnly(p: Platform, s: State, run: nat)
    requires s.db.keys != []
    ensures var c, t := Apply(p, s, EvCommitArchive(run)), Apply(p, s, EvMisreportedCommit(run));
            t == c.(db := c.db.(files := t.db.files))
  {
  }

  lemma FilesAreNotSigned(p: Platform, s: State, t: State)
    requires Authentic(p, s) && t == s.(db := s.db.(files := t.db.files))
    ensures Authentic(p, t)
  {
    SameKeysCarry(p, s, t);
  }

  /** Same keys, same history, no record but known ones: rows and records stay authentic. */
  lemma RecordsCarry(p: Platform, s: State, t: State, a: Archive)
    requires Authentic(p, s) && ArchiveAuthentic(p, s.db, a) && t.history == s.history
    requires t.db.tenant == s.db.tenant && t.db.keys == s.db.keys && t.db.jwtKeys == s.db.jwtKeys
    requires forall id :: id in t.db.archives ==>
      (id in s.db.archives && t.db.archives[id] == s.db.archives[id]) || t.db.archives[id] == a
    requires forall u :: u in t.uploads ==> u in s.uploads && t.uploads[u] == s.uploads[u]
    ensures forall q :: q in t.history ==> RowAuthentic(p, t.db, t.history[q])
    ensures forall id :: id in t.db.archives ==> ArchiveAuthentic(p, t.db, t.db.archives[id])
    ensures forall u :: u in t.uploads ==> ArchiveAuthentic(p, t.db, t.uploads[u])
  {
    SameKeysCarry(p, s, t);
  }

  lemma CommittedRecords(p: Platform, s: State, run: nat)
    requires s.db.keys != [] && run in s.uploads && s.uploads[run].checkpointId < |s.db.checkpoints|
    ensures var t := Apply(p, s, EvCommitArchive(run));
            && (forall id :: id in t.db.archives ==>
                  (id in s.db.archives && t.db.archives[id] == s.db.archives[id]) || t.db.archives[id] == s.uploads[run])
            && (forall u :: u in t.uploads ==> u in s.uploads && t.uploads[u] == s.uploads[u])
  {
  }

  /** archiveId is outside the signature. */
  lemma RepointedCheckpointsAuthentic(p: Platform, d: Db, e: Db, k: nat)
    requires forall i :: 0 <= i < |d.checkpoints| ==> CheckpointAuthentic(p, d, d.checkpoints[i])
    requires k < |d.checkpoints| && |e.checkpoints| == |d.checkpoints| && e.tenant == d.tenant && e.keys == d.keys
    requires forall i :: 0 <= i < |d.checkpoints| ==> SameSeal(d.checkpoints[i], e.checkpoints[i])
    ensures forall i :: 0 <= i < |e.checkpoints| ==> CheckpointAuthentic(p, e, e.checkpoints[i])
  {
    forall i | 0 <= i < |e.checkpoints| ensures CheckpointAuthentic(p, e, e.checkpoints[i]) {
      assert CheckpointAuthentic(p, d, d.checkpoints[i]) && SameSeal(d.checkpoints[i], e.checkpoints[i]);
    }
  }

  lemma CommitRestoreKeepsAuthentic(p: Platform, s: State, job: nat, ev: Evidence)
    requires Sound(p) && Authentic(p, s)
    ensures Authentic(p, Apply(p, s, EvCommitRestore(job, ev)))
  {
    var t := Apply(p, s, EvCommitRestore(job, ev));
    if t.db == s.db {
      assert t == s.(restores := t.restores);
    } else {
      SignedRowAuthentic(p, s.db, ev);
      RepointedCheckpointsAuthentic(p, s.db, t.db, s.restores[job].manifest.checkpointId);
      RestoredAuthentic(p, s, t);
    }
  }

  lemma RestoredAuthentic(p: Platform, s: State, t: State)
    requires Authentic(p, s) && t.uploads == s.uploads
    requires t.db.tenant == s.db.tenant && t.db.keys == s.db.keys && t.db.jwtKeys == s.db.jwtKeys
    requires forall q :: q in t.history ==> (q in s.history && t.history[q] == s.history[q]) || RowAuthentic(p, s.db, t.history[q])
    requires forall id :: id in t.db.archives ==> id in s.db.archives && t.db.archives[id] == s.db.archives[id]
    requires forall i :: 0 <= i < |t.db.checkpoints| ==> CheckpointAuthentic(p, t.db, t.db.checkpoints[i])
    ensures Authentic(p, t)
  {
    SameKeysCarry(p, s, t);
  }

  lemma StepKeepsAuthentic(p: Platform, s: State, e: Event)
    requires Sound(p) && Authentic(p, s)
    ensures Authentic(p, Apply(p, s, e))
  {
    match e
    case EvWrite(ev) => SignedRowAuthentic(p, s.db, ev); SameKeysCarry(p, s, Apply(p, s, e));
    case EvBurnSeq => SameKeysCarry(p, s, Apply(p, s, e));
    case EvRotate(key) => RotateKeepsAuthentic(p, s, key);
    case EvSeal(kind) => SealKeepsAuthentic(p, s, kind);
    case EvStageArchive(run, i, path, nonce, now) => StageKeepsAuthentic(p, s, run, i, path, nonce, now);
    case EvCommitArchive(run) => CommitArchiveKeepsAuthentic(p, s, run);
    case EvFailArchive(run) => SameKeysCarry(p, s, Apply(p, s, e));
    case EvMisreportedCommit(run) => MisreportKeepsAuthentic(p, s, run);
    case EvCrashArchive(run) => SameKeysCarry(p, s, Apply(p, s, e));
    case EvStageRestore(job, id) => SameKeysCarry(p, s, Apply(p, s, e));
    case EvCommitRestore(job, ev) => CommitRestoreKeepsAuthentic(p, s, job, ev);
    case EvDropRestore(job) => SameKeysCarry(p, s, Apply(p, s, e));
  }

  lemma {:induction false} RunKeepsAuthentic(p: Platform, s: State, events: seq<Event>)
    requires Sound(p) && Authentic(p, s)
    ensures Authentic(p, Run(p, s, events))
    decreases |events|
  {
    if events != [] {
      StepKeepsAuthentic(p, s, events[0]);
      RunKeepsAuthentic(p, Apply(p, s, events[0]), events[1..]);
    }
  }

  /** A tenant before its first checkpoint: any rows, numbered, each unsigned or verifying. */
  ghost predicate Initial(p: Platform, s: State)
  {
    && s.db.keys != [] && 1 <= s.db.nextSeq
    && s.db.checkpoints == [] && s.db.archives == map[] && s.uploads == map[] && s.restores == map[]
    && s.history == s.db.live
    && forall q :: q in s.db.live ==>
         1 <= q < s.db.nextSeq && s.db.live[q].seqNo == q && RowAuthentic(p, s.db, s.db.live[q])
  }

  /** Both invariants hold after every run from a fresh tenant whose archive commits are truthful. */
  lemma ReachableStates(p: Platform, s: State, events: seq<Event>)
    requires Sound(p) && Initial(p, s) && FreshPaths(p, s, events) && TruthfulCommits(p, s, events)
    ensures Inv(p, Run(p, s, events)) && Authentic(p, Run(p, s, events))
  {
    assert Inv(p, s) && Authentic(p, s);
    RunKeepsInv(p, s, events);
    RunKeepsAuthentic(p, s, events);
  }

  // ---- consequences -------------------------------------------------------------------

  /** Row q sits in the archive that checkpoint i points at. */
  ghost predicate ArchivedAt(p: Platform, s: State, q: nat, i: nat)
  {
    && i < |s.db.checkpoints| && s.db.checkpoints[i].fromSeq <= q <= s.db.checkpoints[i].toSeq
    && s.db.checkpoints[i].archiveId.Some?
    && var id := s.db.checkpoints[i].archiveId.value;
    && id in s.db.archives && s.db.archives[id].path in s.db.files
    && p.open(s.db.files[s.db.archives[id].path]).Some?
    && q in s.history && s.history[q] in p.open(s.db.files[s.db.archives[id].path]).value.rows
  }

  /** The window that holds a sealed number. */
  lemma {:induction false} FindWindow(s: State, q: nat, n: nat) returns (i: nat)
    requires Contiguous(s) && n < |s.db.checkpoints| && 1 <= q <= s.db.checkpoints[n].toSeq
    ensures i <= n && s.db.checkpoints[i].fromSeq <= q <= s.db.checkpoints[i].toSeq
  {
    assert WindowOk(s, n);
    if q >= s.db.checkpoints[n].fromSeq { i := n; } else { i := FindWindow(s, q, n - 1); }
  }

  /**
    Conservation: every row ever committed is either live and in no archive its checkpoint points
    at, or gone from the live table and in exactly one such archive.
   */
  lemma EveryRowInExactlyOnePlace(p: Platform, s: State, q: nat)
    requires Inv(p, s) && q in s.history
    ensures q in s.db.live ==> forall i :: !ArchivedAt(p, s, q, i)
    ensures q !in s.db.live ==>
      exists i :: ArchivedAt(p, s, q, i) && forall j :: ArchivedAt(p, s, q, j) ==> j == i
  {
    forall i | ArchivedAt(p, s, q, i) ensures q !in s.db.live { assert Placed(s, i); }
    if q !in s.db.live {
      assert q < NextFrom(s.db);
      var i := FindWindow(s, q, |s.db.checkpoints| - 1);
      assert Placed(s, i);
      var id := s.db.checkpoints[i].archiveId.value;
      assert ArchiveOk(p, s, s.db.archives[id]);
      FromAtLeastOne(s, i);
      RowsInMember(s.history, s.db.checkpoints[i].fromSeq, s.db.checkpoints[i].toSeq, s.history[q]);
      assert ArchivedAt(p, s, q, i);
      forall j | ArchivedAt(p, s, q, j) ensures j == i {
        if j < i { WindowsAscend(s, j, i); } else if i < j { WindowsAscend(s, i, j); }
      }
    }
  }

  /** Above every window. */
  ghost predicate Unsealed(s: State, q: nat)
  {
    q in s.db.live && forall i :: 0 <= i < |s.db.checkpoints| ==> s.db.checkpoints[i].toSeq < q
  }

  lemma UnsealedIsAfterTheLast(s: State, q: nat)
    requires Contiguous(s) && q in s.db.live && 1 <= q
    ensures Unsealed(s, q) <==> NextFrom(s.db) <= q
  {
    var n := |s.db.checkpoints|;
    forall i | 0 <= i < n - 1 ensures s.db.checkpoints[i].toSeq < s.db.checkpoints[n - 1].toSeq {
      WindowsAscend(s, i, n - 1);
      assert WindowOk(s, n - 1);
    }
  }

  /**
    A seal adds one window when some live row is above every window, and none otherwise; after it every live row lies
    in one, and the windows before it are as they were.
   */
  lemma SealLeavesNothingOpen(p: Platform, s: State, kind: string)
    requires Inv(p, s) && s.db.keys != []
    ensures var t := Apply(p, s, EvSeal(kind));
            && (forall q :: q in t.db.live ==> !Unsealed(t, q))
            && (if exists q :: Unsealed(s, q)
                then |t.db.checkpoints| == |s.db.checkpoints| + 1 && t.db.checkpoints[..|s.db.checkpoints|] == s.db.checkpoints
                     && t.db.checkpoints[|s.db.checkpoints|].kind == kind
                     && t.db == s.db.(checkpoints := t.db.checkpoints)
                else t == s)
  {
    var t := Apply(p, s, EvSeal(kind));
    SealKeepsInv(p, s, kind);
    var top := MaxSeq(s.db.live, s.db.nextSeq);
    forall q | q in s.db.live ensures 1 <= q <= top && !Unsealed(t, q) {
      assert q in s.history;
      UnsealedIsAfterTheLast(t, q);
    }
    if q :| Unsealed(s, q) {
      assert q in s.history;
      UnsealedIsAfterTheLast(s, q);
    } else if top != 0 {
      UnsealedIsAfterTheLast(s, top);
    }
  }

  // ---- the commit whose answer is lost ---------------------------------------------------

  /**
    writeArchiveWindow removes its file on any error of its commit. When the commit had taken effect, the record,
    the pointer and the deletion stand and every row of the window is in no place at all.
   */
  lemma MisreportedCommitLosesTheWindow(p: Platform, s: State, run: nat, q: nat)
    requires Inv(p, s) && s.db.keys != [] && run in s.uploads
    requires s.uploads[run].checkpointId < |s.db.checkpoints|
    requires var c := s.db.checkpoints[s.uploads[run].checkpointId];
             c.archiveId.None? && c.fromSeq <= q <= c.toSeq && q in s.history
    ensures var t := Apply(p, s, EvMisreportedCommit(run));
            q in t.history && q !in t.db.live && forall i :: !ArchivedAt(p, t, q, i)
  {
    var t, k := Apply(p, s, EvMisreportedCommit(run)), s.uploads[run].checkpointId;
    var a := s.uploads[run];
    assert ArchiveOk(p, s, a);
    assert t.db.archives == s.db.archives[s.db.nextArchive := a] && a.path !in t.db.files;
    forall i | ArchivedAt(p, t, q, i) ensures i == k {
      if i < k { WindowsAscend(s, i, k); } else if k < i { WindowsAscend(s, k, i); }
    }
  }

  /** So the step keeps the invariant exactly when another run had archived the window first. */
  lemma MisreportedCommitKeepsInvExactlyWhenRaceLost(p: Platform, s: State, run: nat)
    requires Inv(p, s) && s.db.keys != [] && run in s.uploads
    ensures s.uploads[run].checkpointId < |s.db.checkpoints|
    ensures Inv(p, Apply(p, s, EvMisreportedCommit(run)))
            <==> s.db.checkpoints[s.uploads[run].checkpointId].archiveId.Some?
  {
    var k := s.uploads[run].checkpointId;
    assert ArchiveOk(p, s, s.uploads[run]);
    if s.db.checkpoints[k].archiveId.Some? {
      LostRaceKeepsInv(p, s, run);
    } else {
      var t, q := Apply(p, s, EvMisreportedCommit(run)), s.db.checkpoints[k].toSeq;
      assert CheckpointOk(p, s, k) && WindowOk(s, k);
      MisreportedCommitLosesTheWindow(p, s, run, q);
      if Inv(p, t) { EveryRowInExactlyOnePlace(p, t, q); }
    }
  }

  lemma RunOfTwo(p: Platform, s: State, a: Event, b: Event)
    requires s.db.keys != []
    ensures Run(p, s, [a, b]) == Apply(p, Apply(p, s, a), b)
  {
    assert [a, b][1..] == [b] && [b][1..] == [];
    assert Run(p, Apply(p, s, a), [b]) == Run(p, Apply(p, Apply(p, s, a), b), []);
  }

  /** A fresh tenant's first row, sealed. */
  lemma FirstWindow(p: Platform, s: State, ev: Evidence, kind: string)
    requires Sound(p) && Initial(p, s) && s.db.live == map[]
    ensures var t, q := Apply(p, Apply(p, s, EvWrite(ev)), EvSeal(kind)), s.db.nextSeq;
            && Inv(p, t) && Authentic(p, t)
            && |t.db.checkpoints| == 1 && t.db.checkpoints[0].archiveId.None?
            && t.db.checkpoints[0].fromSeq <= q <= t.db.checkpoints[0].toSeq && q in t.history
            && t.uploads == map[] && t.restores == map[] && t.db.archives == map[]
            && t.db.files == s.db.files && t.db.nextArchive == s.db.nextArchive
  {
    var e1, e2 := EvWrite(ev), EvSeal(kind);
    var s1 := Apply(p, s, e1);
    assert TruthfulCommits(p, s1, [e2]) && FreshPaths(p, s1, [e2]) by { assert [e2][1..] == []; }
    assert [e1, e2][1..] == [e2];
    ReachableStates(p, s, [e1, e2]);
    RunOfTwo(p, s, e1, e2);
    assert s.db.nextSeq in s1.db.live;
    assert MaxSeq(s1.db.live, s1.db.nextSeq) == s.db.nextSeq;
  }

  /** One row, one seal, one archive whose commit is misreported: the row is gone. */
  lemma MisreportedCommitLosesARow(p: Platform, s: State, ev: Evidence, kind: string, path: string, nonce: string, now: int)
    requires Sound(p) && Initial(p, s) && s.db.live == map[] && path !in s.db.files
    ensures var events := [EvWrite(ev), EvSeal(kind), EvStageArchive(0, 0, path, nonce, now), EvMisreportedCommit(0)];
            var t, q := Run(p, s, events), s.db.nextSeq;
            q in t.history && q !in t.db.live && forall i :: !ArchivedAt(p, t, q, i)
  {
    var e1, e2, e3, e4 := EvWrite(ev), EvSeal(kind), EvStageArchive(0, 0, path, nonce, now), EvMisreportedCommit(0);
    RunOfFour(p, s, e1, e2, e3, e4);
    FirstWindow(p, s, ev, kind);
    var s2 := Apply(p, Apply(p, s, e1), e2);
    StepKeepsInv(p, s2, e3);
    StagedState(p, s2, 0, 0, path, nonce, now);
    MisreportedCommitLosesTheWindow(p, Apply(p, s2, e3), 0, s.db.nextSeq);
  }

  lemma ArchiveVerifies(p: Platform, s: State, a: Archive)
    requires Inv(p, s) && ArchiveOk(p, s, a) && ArchiveAuthentic(p, s.db, a)
    ensures VerifyArchiveFile(p, s.db, a) == p.open(s.db.files[a.path])
  {
    assert CheckpointOk(p, s, a.checkpointId);
  }

  /** The verifier never cries wolf: in every reachable state each checkpoint passes and no row fails. */
  lemma VerificationAccepts(p: Platform, s: State)
    requires Inv(p, s) && Authentic(p, s)
    ensures forall i :: 0 <= i < |s.db.checkpoints| ==> CheckCheckpoint(p, s.db, i) == Verified
    ensures forall q :: q in s.db.live ==> CheckRow(p, s.db, s.db.live[q]) in {Unsigned, RowVerified}
  {
    forall i | 0 <= i < |s.db.checkpoints| ensures CheckCheckpoint(p, s.db, i) == Verified {
      CheckpointVerifies(p, s, i);
    }
    forall q | q in s.db.live ensures CheckRow(p, s.db, s.db.live[q]) in {Unsigned, RowVerified} {
      assert RowAuthentic(p, s.db, s.history[q]);
    }
  }

  lemma CheckpointVerifies(p: Platform, s: State, i: nat)
    requires Inv(p, s) && Authentic(p, s) && i < |s.db.checkpoints|
    ensures CheckCheckpoint(p, s.db, i) == Verified
  {
    var c := s.db.checkpoints[i];
    assert CheckpointOk(p, s, i) && Placed(s, i) && CheckpointAuthentic(p, s.db, c);
    if c.archiveId.None? {
      FromAtLeastOne(s, i);
      RowsInAgree(s.db.live, s.history, c.fromSeq, c.toSeq);
    } else {
      ArchiveVerifies(p, s, s.db.archives[c.archiveId.value]);
    }
  }

  /**
    And it never sleeps: replace the live table of a reachable state by anything whatever, and a
    checkpoint over a live window passes exactly when the window still holds the sealed evidence,
    row for row and in order.
   */
  lemma WindowTamperingIsReported(p: Platform, s: State, i: nat, live: map<nat, Row>)
    requires Inv(p, s) && Authentic(p, s) && i < |s.db.checkpoints| && s.db.checkpoints[i].archiveId.None?
    requires forall a, b :: p.sha(a) == p.sha(b) ==> a == b
    requires HexSigned(Sealed(s, i))
    requires HexSigned(RowsIn(live, s.db.checkpoints[i].fromSeq, s.db.checkpoints[i].toSeq))
    ensures CheckCheckpoint(p, s.db.(live := live), i) == Verified
            <==> SameEvidence(RowsIn(live, s.db.checkpoints[i].fromSeq, s.db.checkpoints[i].toSeq), Sealed(s, i))
  {
    var c := s.db.checkpoints[i];
    var now := RowsIn(live, c.fromSeq, c.toSeq);
    assert CheckpointOk(p, s, i) && CheckpointAuthentic(p, s.db, c);
    DigestDetectsEveryChange(p, now, Sealed(s, i));
    if SameEvidence(now, Sealed(s, i)) { SameEvidenceSameCount(now, Sealed(s, i)); }
  }

  lemma {:induction false} SameEvidenceSameCount(a: seq<Row>, b: seq<Row>)
    requires SameEvidence(a, b)
    ensures CountUnsigned(a) == CountUnsigned(b)
  {
    if a != [] { SameEvidenceSameCount(a[..|a| - 1], b[..|b| - 1]); }
  }

  // ---- restore undoes archive ---------------------------------------------------------

  /** A window that is live can always be staged: nothing in a reachable state makes the self-check fail. */
  lemma LiveWindowStages(p: Platform, s: State, i: nat, path: string, nonce: string, now: int)
    requires Sound(p) && Inv(p, s) && s.db.keys != []
    requires i < |s.db.checkpoints| && s.db.checkpoints[i].archiveId.None?
    ensures StageArchive(p, s.db, i, path, nonce, now).Some?
  {
    var c := s.db.checkpoints[i];
    assert CheckpointOk(p, s, i) && Placed(s, i);
    FromAtLeastOne(s, i);
    RowsInAgree(s.db.live, s.history, c.fromSeq, c.toSeq);
    var m := Manifest(i, c.fromSeq, c.toSeq, c.rowCount, c.unsignedCount, c.digest, SIG_VERSION, now, Sealed(s, i));
    var raw := p.seal(nonce, m);
    assert p.open(raw) == Some(m);
    var a := Archive(i, c.fromSeq, c.toSeq, c.rowCount, c.unsignedCount, c.digest, path, p.sha(raw), "", SIG_VERSION);
    var signed := a.(sig := p.mac(s.db.keys[0], ManifestText(s.db.tenant, a)));
    assert ManifestText(s.db.tenant, signed) == ManifestText(s.db.tenant, a);
    assert MacMatches(p, s.db.keys, signed.sig, ManifestText(s.db.tenant, signed));
  }

  /** Writing an archive file keeps the invariant exactly when no record and no other run names that file. */
  lemma StageKeepsInvExactlyWhenPathFree(p: Platform, s: State, run: nat, i: nat, path: string, nonce: string, now: int)
    requires Sound(p) && Inv(p, s) && s.db.keys != [] && run !in s.uploads
    requires i < |s.db.checkpoints| && s.db.checkpoints[i].archiveId.None?
    ensures Inv(p, Apply(p, s, EvStageArchive(run, i, path, nonce, now))) <==> PathFree(s, path)
  {
    if PathFree(s, path) {
      StageArchiveKeepsInv(p, s, run, i, path, nonce, now);
    } else {
      LiveWindowStages(p, s, i, path, nonce, now);
      StagedState(p, s, i, run, path, nonce, now);
      StagedPath(p, s, run, i, path, nonce, now);
      SharedPathBreaksInv(p, s, Apply(p, s, EvStageArchive(run, i, path, nonce, now)), run, path);
    }
  }

  lemma SharedPathBreaksInv(p: Platform, s: State, t: State, run: nat, path: string)
    requires !PathFree(s, path) && run !in s.uploads && run in t.uploads && t.uploads[run].path == path
    requires t.db.archives == s.db.archives && t.uploads - {run} == s.uploads
    ensures !Inv(p, t)
  {
    if id :| id in s.db.archives && s.db.archives[id].path == path {
      assert t.db.archives[id].path == t.uploads[run].path;
    } else {
      var u :| u in s.uploads && s.uploads[u].path == path;
      assert u in t.uploads - {run} && t.uploads[u].path == t.uploads[run].path;
    }
  }

  /** Two runs of one window that both wrote the same file: the first commits, the second loses the race and removes it. */
  lemma SharedPathLosesTheWindow(p: Platform, s: State, q: nat)
    requires s.db.keys != [] && |s.db.checkpoints| == 1 && s.db.checkpoints[0].archiveId.None?
    requires 0 in s.uploads && 1 in s.uploads && s.uploads[0].path == s.uploads[1].path
    requires s.uploads[0].checkpointId == 0 == s.uploads[1].checkpointId
    requires s.uploads[0].fromSeq <= q <= s.uploads[0].toSeq && q in s.history
    ensures var t := Apply(p, Apply(p, s, EvCommitArchive(0)), EvCommitArchive(1));
            q in t.history && q !in t.db.live && forall i :: !ArchivedAt(p, t, q, i)
  {
    var mid := Apply(p, s, EvCommitArchive(0));
    assert 1 in mid.uploads && mid.uploads[1] == s.uploads[1] && mid.db.checkpoints[0].archiveId == Some(s.db.nextArchive);
    var t := Apply(p, mid, EvCommitArchive(1));
    assert t.db == DeleteFile(mid.db, s.uploads[1].path);
  }

  /** Within one second: one row, one seal, and two archive runs of the window. The row is gone. */
  lemma SameSecondLosesARow(p: Platform, s: State, ev: Evidence, kind: string, path: string, nonce: string, now: int)
    requires Sound(p) && Initial(p, s) && s.db.live == map[] && path !in s.db.files
    ensures var sealed := Run(p, s, [EvWrite(ev), EvSeal(kind)]);
            var t := Run(p, sealed, [EvStageArchive(0, 0, path, nonce, now), EvStageArchive(1, 0, path, nonce, now),
                                     EvCommitArchive(0), EvCommitArchive(1)]);
            var q := s.db.nextSeq;
            q in t.history && q !in t.db.live && forall i :: !ArchivedAt(p, t, q, i)
  {
    var e1, e2 := EvStageArchive(0, 0, path, nonce, now), EvStageArchive(1, 0, path, nonce, now);
    RunOfTwo(p, s, EvWrite(ev), EvSeal(kind));
    var sealed := Run(p, s, [EvWrite(ev), EvSeal(kind)]);
    FirstWindow(p, s, ev, kind);
    RunOfFour(p, sealed, e1, e2, EvCommitArchive(0), EvCommitArchive(1));
    BothStage(p, sealed, path, nonce, now);
    SharedPathLosesTheWindow(p, Apply(p, Apply(p, sealed, e1), e2), s.db.nextSeq);
  }

  lemma BothStage(p: Platform, s: State, path: string, nonce: string, now: int)
    requires Sound(p) && Inv(p, s) && s.db.keys != [] && s.uploads == map[] && PathFree(s, path)
    requires |s.db.checkpoints| == 1 && s.db.checkpoints[0].archiveId.None?
    ensures var t := Apply(p, Apply(p, s, EvStageArchive(0, 0, path, nonce, now)), EvStageArchive(1, 0, path, nonce, now));
            && t.db.keys != [] && t.history == s.history && t.db.checkpoints == s.db.checkpoints
            && 0 in t.uploads && 1 in t.uploads && t.uploads[0].path == path == t.uploads[1].path
            && t.uploads[0].checkpointId == 0 == t.uploads[1].checkpointId
            && t.uploads[0].fromSeq == s.db.checkpoints[0].fromSeq && t.uploads[0].toSeq == s.db.checkpoints[0].toSeq
  {
    var s1 := Apply(p, s, EvStageArchive(0, 0, path, nonce, now));
    StagedState(p, s, 0, 0, path, nonce, now);
    StageArchiveKeepsInv(p, s, 0, 0, path, nonce, now);
    var s2 := Apply(p, s1, EvStageArchive(1, 0, path, nonce, now));
    StagedState(p, s1, 0, 1, path, nonce, now);
    assert 0 in s2.uploads - {1};
    LiveWindowStages(p, s, 0, path, nonce, now);
    StagedPath(p, s, 0, 0, path, nonce, now);
    LiveWindowStages(p, s1, 0, path, nonce, now);
    StagedPath(p, s1, 1, 0, path, nonce, now);
  }

  lemma StagedPath(p: Platform, s: State, run: nat, i: nat, path: string, nonce: string, now: int)
    requires s.db.keys != [] && run !in s.uploads && i < |s.db.checkpoints| && s.db.checkpoints[i].archiveId.None?
    requires StageArchive(p, s.db, i, path, nonce, now).Some?
    ensures var t := Apply(p, s, EvStageArchive(run, i, path, nonce, now)); run in t.uploads && t.uploads[run].path == path
  {
  }

  /** Archive then restore, with nothing in between, as one run of the machine. */
  ghost function RoundTrip(i: nat, run: nat, job: nat, path: string, nonce: string, now: int, id: nat, ev: Evidence)
    : seq<Event>
  {
    [EvStageArchive(run, i, path, nonce, now), EvCommitArchive(run), EvStageRestore(job, id), EvCommitRestore(job, ev)]
  }

  lemma RunOfFour(p: Platform, s: State, a: Event, b: Event, c: Event, d: Event)
    requires s.db.keys != []
    ensures Run(p, s, [a, b, c, d]) == Apply(p, Apply(p, Apply(p, Apply(p, s, a), b), c), d)
  {
    var s1 := Apply(p, s, a);
    var s2 := Apply(p, s1, b);
    var s3 := Apply(p, s2, c);
    assert [a, b, c, d][1..] == [b, c, d] && [b, c, d][1..] == [c, d] && [c, d][1..] == [d] && [d][1..] == [];
    assert Run(p, s, [a, b, c, d]) == Run(p, s1, [b, c, d]);
    assert Run(p, s1, [b, c, d]) == Run(p, s2, [c, d]);
    assert Run(p, s2, [c, d]) == Run(p, s3, [d]);
    assert Run(p, s3, [d]) == Run(p, Apply(p, s3, d), []);
  }

  /** t is s with window i's rows moved out and its checkpoint pointing at the new record. */
  ghost predicate ArchivedFrom(s: State, t: State, i: nat)
  {
    && i < |s.db.checkpoints|
    && t.uploads == s.uploads && t.restores == s.restores && t.history == s.history
    && t.db.nextSeq == s.db.nextSeq && t.db.keys == s.db.keys && t.db.tenant == s.db.tenant
    && t.db.checkpoints == s.db.checkpoints[i := s.db.checkpoints[i].(archiveId := Some(s.db.nextArchive))]
    && s.db.nextArchive in t.db.archives && t.db.archives - {s.db.nextArchive} == s.db.archives - {s.db.nextArchive}
    && t.db.live == map q | q in s.db.live && !(s.db.checkpoints[i].fromSeq <= q <= s.db.checkpoints[i].toSeq)
                    :: s.db.live[q]
  }

  /** t is s with window i's rows and the signed event in the live table and record id gone. */
  ghost predicate RestoredFrom(s: State, t: State, i: nat, id: nat, event: Row)
  {
    && i < |s.db.checkpoints|
    && t.db.checkpoints == s.db.checkpoints[i := s.db.checkpoints[i].(archiveId := None)]
    && t.db.archives == s.db.archives - {id} && t.uploads == s.uploads && t.restores == s.restores
    && t.history == s.history[s.db.nextSeq := event]
    && (forall q :: q in t.db.live <==>
          || q in s.db.live || q == s.db.nextSeq
          || (s.db.checkpoints[i].fromSeq <= q <= s.db.checkpoints[i].toSeq && q in s.history))
    && (forall q :: q in t.db.live && q != s.db.nextSeq ==> q in s.history && t.db.live[q] == s.history[q])
    && t.db.live[s.db.nextSeq] == event
  }

  /** t differs from s by one more committed row. */
  ghost predicate OneEventMore(s: State, t: State, event: Row)
  {
    && t.db.live == s.db.live[s.db.nextSeq := event] && t.history == s.history[s.db.nextSeq := event]
    && t.db.checkpoints == s.db.checkpoints && t.db.archives == s.db.archives
    && t.uploads == s.uploads && t.restores == s.restores
  }

  /**
    Restore undoes archive: the rows, checkpoints and archive records are back as they were, up to
    the one signed event the restore itself writes.
   */
  lemma RestoreUndoesArchive(p: Platform, s: State, i: nat, run: nat, job: nat, path: string, nonce: string, now: int,
                             ev: Evidence)
    requires Sound(p) && Inv(p, s) && Authentic(p, s) && run !in s.uploads && job !in s.restores
    requires i < |s.db.checkpoints| && s.db.checkpoints[i].archiveId.None? && path !in s.db.files
    ensures OneEventMore(s, Run(p, s, RoundTrip(i, run, job, path, nonce, now, s.db.nextArchive, ev)),
                         SignedRow(p, s.db, ev))
  {
    var id := s.db.nextArchive;
    var e1, e2, e3, e4 := EvStageArchive(run, i, path, nonce, now), EvCommitArchive(run), EvStageRestore(job, id),
                          EvCommitRestore(job, ev);
    RunOfFour(p, s, e1, e2, e3, e4);
    ArchivedState(p, s, i, run, path, nonce, now);
    var mid := Apply(p, Apply(p, s, e1), e2);
    RestoredState(p, mid, i, id, job, ev);
    PlacedRowsFreshId(p, s, i);
    BackAgain(s, mid, Apply(p, Apply(p, mid, e3), e4), i, SignedRow(p, s.db, ev));
  }

  lemma PlacedRowsFreshId(p: Platform, s: State, i: nat)
    requires Inv(p, s) && i < |s.db.checkpoints|
    ensures s.db.nextArchive !in s.db.archives && RowsOk(s) && Placed(s, i)
  {
  }

  lemma BackAgain(s: State, mid: State, t: State, i: nat, event: Row)
    requires ArchivedFrom(s, mid, i) && RestoredFrom(mid, t, i, s.db.nextArchive, event)
    requires RowsOk(s) && s.db.nextArchive !in s.db.archives && Placed(s, i) && s.db.checkpoints[i].archiveId.None?
    ensures OneEventMore(s, t, event)
  {
    LiveAgain(s, mid, t, i, event);
    assert t.db.archives == s.db.archives;
  }

  lemma LiveAgain(s: State, mid: State, t: State, i: nat, event: Row)
    requires ArchivedFrom(s, mid, i) && RestoredFrom(mid, t, i, s.db.nextArchive, event)
    requires RowsOk(s) && Placed(s, i) && s.db.checkpoints[i].archiveId.None?
    ensures t.db.live == s.db.live[s.db.nextSeq := event]
  {
    var want := s.db.live[s.db.nextSeq := event];
    forall q ensures q in t.db.live <==> q in want { }
    forall q | q in want ensures t.db.live[q] == want[q] { }
  }

  /** What archiving window i leaves: its rows gone, one new record, the checkpoint pointing at it. */
  lemma ArchivedState(p: Platform, s: State, i: nat, run: nat, path: string, nonce: string, now: int)
    requires Sound(p) && Inv(p, s) && Authentic(p, s) && run !in s.uploads
    requires i < |s.db.checkpoints| && s.db.checkpoints[i].archiveId.None? && path !in s.db.files
    ensures var t := Apply(p, Apply(p, s, EvStageArchive(run, i, path, nonce, now)), EvCommitArchive(run));
            ArchivedFrom(s, t, i) && Inv(p, t) && Authentic(p, t)
  {
    var e1, e2 := EvStageArchive(run, i, path, nonce, now), EvCommitArchive(run);
    StagedState(p, s, i, run, path, nonce, now);
    StepKeepsInv(p, s, e1);
    StepKeepsAuthentic(p, s, e1);
    CommittedState(p, s, Apply(p, s, e1), run);
    StepKeepsInv(p, Apply(p, s, e1), e2);
    StepKeepsAuthentic(p, Apply(p, s, e1), e2);
  }

  /** Staging writes a file and remembers the run; it touches no table. */
  ghost predicate StagedFrom(s: State, t: State, i: nat, run: nat)
  {
    && i < |s.db.checkpoints|
    && SameTables(s, t) && t.db.keys == s.db.keys && t.db.tenant == s.db.tenant
    && run in t.uploads && t.uploads - {run} == s.uploads && t.uploads[run].checkpointId == i
    && t.uploads[run].fromSeq == s.db.checkpoints[i].fromSeq
    && t.uploads[run].toSeq == s.db.checkpoints[i].toSeq
  }

  lemma StagedState(p: Platform, s: State, i: nat, run: nat, path: string, nonce: string, now: int)
    requires Sound(p) && Inv(p, s) && s.db.keys != [] && run !in s.uploads
    requires i < |s.db.checkpoints| && s.db.checkpoints[i].archiveId.None?
    ensures StagedFrom(s, Apply(p, s, EvStageArchive(run, i, path, nonce, now)), i, run)
  {
    LiveWindowStages(p, s, i, path, nonce, now);
  }

  lemma CommittedState(p: Platform, s: State, mid: State, run: nat)
    requires mid.db.keys != [] && run in mid.uploads && mid.uploads[run].checkpointId < |s.db.checkpoints|
    requires StagedFrom(s, mid, mid.uploads[run].checkpointId, run)
    requires s.db.checkpoints[mid.uploads[run].checkpointId].archiveId.None?
    ensures ArchivedFrom(s, Apply(p, mid, EvCommitArchive(run)), mid.uploads[run].checkpointId)
  {
  }

  /** What restoring window i's current archive leaves. */
  lemma RestoredState(p: Platform, s: State, i: nat, id: nat, job: nat, ev: Evidence)
    requires Inv(p, s) && Authentic(p, s) && job !in s.restores
    requires i < |s.db.checkpoints| && s.db.checkpoints[i].archiveId == Some(id)
    ensures RestoredFrom(s, Apply(p, Apply(p, s, EvStageRestore(job, id)), EvCommitRestore(job, ev)), i, id,
                         SignedRow(p, s.db, ev))
  {
    StagedRestoreState(p, s, i, id, job);
    CommittedRestoreState(p, s, Apply(p, s, EvStageRestore(job, id)), i, id, job, ev);
  }

  /** Only the list of pending restores grew, by a verified one. */
  ghost predicate RestoreStagedFrom(s: State, t: State, i: nat, id: nat, job: nat)
  {
    && t == s.(restores := t.restores) && job in t.restores && t.restores - {job} == s.restores
    && i < |s.db.checkpoints| && s.db.checkpoints[i].archiveId == Some(id)
    && t.restores[job].archiveId == id && t.restores[job].manifest.checkpointId == i
    && t.restores[job].manifest.rows == Sealed(t, i)
    && RowsOk(t) && Contiguous(t) && RestoresOk(t) && Placed(t, i)
  }

  lemma StagedRestoreState(p: Platform, s: State, i: nat, id: nat, job: nat)
    requires Inv(p, s) && Authentic(p, s) && job !in s.restores
    requires i < |s.db.checkpoints| && s.db.checkpoints[i].archiveId == Some(id)
    ensures RestoreStagedFrom(s, Apply(p, s, EvStageRestore(job, id)), i, id, job)
  {
    StageRestoreAccepts(p, s, i, id);
    StagedRestoreInvariants(p, s, i, id, job);
    StagedRestoreTables(p, s, i, id, job);
  }

  lemma StagedRestoreInvariants(p: Platform, s: State, i: nat, id: nat, job: nat)
    requires Inv(p, s) && s.db.keys != [] && i < |s.db.checkpoints|
    ensures var t := Apply(p, s, EvStageRestore(job, id));
            && t.db == s.db && RowsOk(t) && Contiguous(t) && RestoresOk(t) && Placed(t, i)
  {
    StageRestoreKeepsInv(p, s, job, id);
    var t := Apply(p, s, EvStageRestore(job, id));
    assert t.db == s.db;
    assert Placed(t, i);
  }

  lemma StagedRestoreTables(p: Platform, s: State, i: nat, id: nat, job: nat)
    requires s.db.keys != [] && job !in s.restores && i < |s.db.checkpoints|
    requires StageRestore(p, s.db, id).Some? && StageRestore(p, s.db, id).value.checkpointId == i
    requires StageRestore(p, s.db, id).value.rows == Sealed(s, i)
    ensures var t := Apply(p, s, EvStageRestore(job, id));
            && t == s.(restores := t.restores) && job in t.restores && t.restores - {job} == s.restores
            && t.restores[job].archiveId == id && t.restores[job].manifest.checkpointId == i
            && t.restores[job].manifest.rows == Sealed(t, i)
  {
  }

  /** The archive a checkpoint points at passes every check a restore makes. */
  lemma StageRestoreAccepts(p: Platform, s: State, i: nat, id: nat)
    requires Inv(p, s) && Authentic(p, s) && i < |s.db.checkpoints| && s.db.checkpoints[i].archiveId == Some(id)
    ensures StageRestore(p, s.db, id).Some? && StageRestore(p, s.db, id).value.checkpointId == i
    ensures StageRestore(p, s.db, id).value.rows == Sealed(s, i)
  {
    assert Placed(s, i);
    ArchiveVerifies(p, s, s.db.archives[id]);
  }

  lemma CommittedRestoreState(p: Platform, s: State, mid: State, i: nat, id: nat, job: nat, ev: Evidence)
    requires RestoreStagedFrom(s, mid, i, id, job) && s.db.keys != []
    ensures RestoredFrom(s, Apply(p, mid, EvCommitRestore(job, ev)), i, id, SignedRow(p, s.db, ev))
  {
    WindowRowsFree(mid, i, mid.restores[job].manifest.rows);
    RestoredLive(p, mid, job, ev);
  }

  lemma WindowRowsFree(s: State, i: nat, rows: seq<Row>)
    requires RowsOk(s) && Contiguous(s) && i < |s.db.checkpoints| && s.db.checkpoints[i].archiveId.Some?
    requires Placed(s, i) && rows == Sealed(s, i)
    ensures SeqsFree(s.db.live, rows)
  {
    var c := s.db.checkpoints[i];
    SealedByNumber(s, i);
    FromAtLeastOne(s, i);
    RowsInAscend(s.history, c.fromSeq, c.toSeq);
  }

  lemma {:induction false} RowsInAscend(rows: map<nat, Row>, lo: nat, hi: nat)
    requires 1 <= lo && forall q :: q in rows ==> rows[q].seqNo == q
    ensures forall k :: 0 <= k < |RowsIn(rows, lo, hi)| ==> lo <= RowsIn(rows, lo, hi)[k].seqNo <= hi
    ensures forall j, k :: 0 <= j < k < |RowsIn(rows, lo, hi)| ==>
      RowsIn(rows, lo, hi)[j].seqNo < RowsIn(rows, lo, hi)[k].seqNo
    decreases hi
  {
    if lo <= hi {
      RowsInAscend(rows, lo, hi - 1);
      var before, w := RowsIn(rows, lo, hi - 1), RowsIn(rows, lo, hi);
      if hi in rows {
        assert w == before + [rows[hi]];
        assert forall k :: 0 <= k < |before| ==> w[k] == before[k] && w[k].seqNo < hi;
      } else {
        assert w == before;
      }
    }
  }

  // ---- the one interleaving that leaves a trace --------------------------------------------

  /** Every recorded archive is the one its checkpoint points at. */
  ghost predicate NoOrphanRecords(s: State)
  {
    forall id :: id in s.db.archives ==>
      && s.db.archives[id].checkpointId < |s.db.checkpoints|
      && s.db.checkpoints[s.db.archives[id].checkpointId].archiveId == Some(id)
  }

  /** The rows of a window that is live cannot be inserted again: their numbers are taken. */
  lemma LiveWindowBlocksRestore(p: Platform, s: State, i: nat, rows: seq<Row>)
    requires RowsOk(s) && Contiguous(s) && i < |s.db.checkpoints| && s.db.checkpoints[i].archiveId.None?
    requires CheckpointOk(p, s, i) && Placed(s, i) && rows == Sealed(s, i)
    ensures !SeqsFree(s.db.live, rows)
  {
    var c := s.db.checkpoints[i];
    assert WindowOk(s, i);
    SealedByNumber(s, i);
    var k :| 0 <= k < |rows| && rows[k].seqNo == c.toSeq;
    assert rows[k].seqNo in s.db.live;
  }

  /**
    A restore that commits after its window was restored and archived again by others still
    loses no row, but leaves the newer archive recorded with no checkpoint pointing at it. It
    leaves no such record exactly when the checkpoint still points at the archive being restored.
   */
  lemma RestoreLeavesOrphanExactlyWhenStale(p: Platform, s: State, job: nat, ev: Evidence)
    requires Inv(p, s) && NoOrphanRecords(s) && s.db.keys != [] && job in s.restores
    requires CommitRestore(p, s.db, s.restores[job].archiveId, s.restores[job].manifest, ev).Some?
    ensures var r := s.restores[job];
            NoOrphanRecords(Apply(p, s, EvCommitRestore(job, ev)))
            <==> s.db.checkpoints[r.manifest.checkpointId].archiveId == Some(r.archiveId)
  {
    var r := s.restores[job];
    var i := r.manifest.checkpointId;
    RestoreHitsArchivedWindow(p, s, job, ev);
    RestoredTables(p, s, job, ev);
    OrphanSplit(s, Apply(p, s, EvCommitRestore(job, ev)), i, r.archiveId);
  }

  lemma RestoreHitsArchivedWindow(p: Platform, s: State, job: nat, ev: Evidence)
    requires Inv(p, s) && s.db.keys != [] && job in s.restores
    requires CommitRestore(p, s.db, s.restores[job].archiveId, s.restores[job].manifest, ev).Some?
    ensures var i := s.restores[job].manifest.checkpointId;
            i < |s.db.checkpoints| && s.db.checkpoints[i].archiveId.Some? && Placed(s, i)
  {
    var r := s.restores[job];
    var i := r.manifest.checkpointId;
    assert Placed(s, i);
    if s.db.checkpoints[i].archiveId.None? { LiveWindowBlocksRestore(p, s, i, r.manifest.rows); }
  }

  lemma RestoredTables(p: Platform, s: State, job: nat, ev: Evidence)
    requires s.db.keys != [] && job in s.restores
    requires CommitRestore(p, s.db, s.restores[job].archiveId, s.restores[job].manifest, ev).Some?
    ensures var t, r := Apply(p, s, EvCommitRestore(job, ev)), s.restores[job];
            && t.db.checkpoints == s.db.checkpoints[r.manifest.checkpointId :=
                                     s.db.checkpoints[r.manifest.checkpointId].(archiveId := None)]
            && t.db.archives == s.db.archives - {r.archiveId}
  {
  }

  lemma OrphanSplit(s: State, t: State, i: nat, id: nat)
    requires NoOrphanRecords(s) && i < |s.db.checkpoints| && s.db.checkpoints[i].archiveId.Some? && Placed(s, i)
    requires t.db.checkpoints == s.db.checkpoints[i := s.db.checkpoints[i].(archiveId := None)]
    requires t.db.archives == s.db.archives - {id}
    ensures NoOrphanRecords(t) <==> s.db.checkpoints[i].archiveId == Some(id)
  {
    var current := s.db.checkpoints[i].archiveId.value;
    if current != id {
      assert current in t.db.archives && t.db.archives[current].checkpointId == i;
    }
  }

  // ---- and it is reachable --------------------------------------------------------------------

  /** One row, sealed and archived under id; the state two restores of it start from. */
  ghost predicate OneArchive(p: Platform, s: State, id: nat)
  {
    && Inv(p, s) && Authentic(p, s)
    && |s.db.checkpoints| == 1 && s.db.checkpoints[0].archiveId == Some(id)
    && s.db.archives.Keys == {id} && s.uploads == map[]
  }

  lemma FilesOfStage(p: Platform, s: State, run: nat, i: nat, path: string, nonce: string, now: int)
    requires s.db.keys != []
    ensures Apply(p, s, EvStageArchive(run, i, path, nonce, now)).db.files.Keys <= s.db.files.Keys + {path}
  {
  }

  lemma FilesOfOthers(p: Platform, s: State, e: Event)
    requires s.db.keys != [] && (e.EvCommitArchive? || e.EvStageRestore? || e.EvCommitRestore?)
    ensures Apply(p, s, e).db.files.Keys <= s.db.files.Keys
  {
  }

  lemma GoodStep(p: Platform, s: State, e: Event)
    requires Sound(p) && Inv(p, s) && Authentic(p, s) && FreshPath(s, e) && TruthfulCommit(s, e)
    ensures Inv(p, Apply(p, s, e)) && Authentic(p, Apply(p, s, e))
  {
    StepKeepsInv(p, s, e);
    StepKeepsAuthentic(p, s, e);
  }

  ghost function FirstArchive(ev: Evidence, kind: string, path: string, nonce: string, now: int): seq<Event>
  {
    [EvWrite(ev), EvSeal(kind), EvStageArchive(0, 0, path, nonce, now), EvCommitArchive(0)]
  }

  ghost function BothRestores(id: nat): seq<Event> { [EvStageRestore(0, id), EvStageRestore(1, id)] }

  ghost function ArchivedInBetween(ev: Evidence, path: string, nonce: string, now: int): seq<Event>
  {
    [EvCommitRestore(0, ev), EvStageArchive(1, 0, path, nonce, now), EvCommitArchive(1), EvCommitRestore(1, ev)]
  }

  lemma ArchivedOnce(p: Platform, s: State, ev: Evidence, kind: string, path: string, nonce: string, now: int)
    requires Sound(p) && Initial(p, s) && s.db.live == map[] && path !in s.db.files
    ensures var t := Run(p, s, FirstArchive(ev, kind, path, nonce, now));
            OneArchive(p, t, s.db.nextArchive) && t.restores == map[] && t.db.files.Keys <= s.db.files.Keys + {path}
  {
    RunOfFour(p, s, EvWrite(ev), EvSeal(kind), EvStageArchive(0, 0, path, nonce, now), EvCommitArchive(0));
    FirstWindow(p, s, ev, kind);
    var s2 := Apply(p, Apply(p, s, EvWrite(ev)), EvSeal(kind));
    ArchivedState(p, s2, 0, 0, path, nonce, now);
    FilesOfStage(p, s2, 0, 0, path, nonce, now);
    var s3 := Apply(p, s2, EvStageArchive(0, 0, path, nonce, now));
    FilesOfOthers(p, s3, EvCommitArchive(0));
    OneRecord(s2, Apply(p, s3, EvCommitArchive(0)));
  }

  lemma OneRecord(s: State, t: State)
    requires ArchivedFrom(s, t, 0) && s.db.archives.Keys <= {s.db.nextArchive}
    ensures t.db.archives.Keys == {s.db.nextArchive}
  {
    forall id | id in t.db.archives && id != s.db.nextArchive ensures id in s.db.archives {
      assert id in t.db.archives - {s.db.nextArchive};
    }
  }

  /** Both restores pass their checks. */
  lemma TwoRestoresWait(p: Platform, s: State, id: nat)
    requires Sound(p) && OneArchive(p, s, id) && s.restores == map[]
    ensures var t := Apply(p, Apply(p, s, EvStageRestore(0, id)), EvStageRestore(1, id));
            && OneArchive(p, t, id) && t.db.files.Keys <= s.db.files.Keys
            && 1 in t.restores && t.restores[1].archiveId == id && t.restores[1].manifest.checkpointId == 0
            && RestoreStagedFrom(t.(restores := t.restores - {0}), t, 0, id, 0)
  {
    var s1 := Apply(p, s, EvStageRestore(0, id));
    RestoreWaits(p, s, 0, id);
    OneWaits(s, s1, id);
    var s2 := Apply(p, s1, EvStageRestore(1, id));
    RestoreWaits(p, s1, 1, id);
    StillStaged(s, s1, s2, s2.(restores := s2.restores - {0}), id);
  }

  lemma OneWaits(s: State, t: State, id: nat)
    requires s.restores == map[] && RestoreStagedFrom(s, t, 0, id, 0)
    ensures 1 !in t.restores
  {
    assert forall j :: j in t.restores && j != 0 ==> j in t.restores - {0};
  }

  lemma RestoreWaits(p: Platform, s: State, job: nat, id: nat)
    requires Sound(p) && OneArchive(p, s, id) && job !in s.restores
    ensures var t := Apply(p, s, EvStageRestore(job, id));
            OneArchive(p, t, id) && t.db == s.db && RestoreStagedFrom(s, t, 0, id, job)
  {
    StagedRestoreState(p, s, 0, id, job);
    GoodStep(p, s, EvStageRestore(job, id));
  }

  /** The first commits: the second still waits, and the window is live again. */
  lemma TwoRestoresOneCommits(p: Platform, s: State, id: nat, ev: Evidence)
    requires Sound(p) && OneArchive(p, s, id)
    requires 1 in s.restores && s.restores[1].archiveId == id && s.restores[1].manifest.checkpointId == 0
    requires RestoreStagedFrom(s.(restores := s.restores - {0}), s, 0, id, 0)
    ensures var t := Apply(p, s, EvCommitRestore(0, ev));
            && Inv(p, t) && Authentic(p, t)
            && |t.db.checkpoints| == 1 && t.db.checkpoints[0].archiveId.None?
            && t.db.archives.Keys == {} && t.uploads == map[]
            && 1 in t.restores && t.restores[1] == s.restores[1] && t.db.files.Keys <= s.db.files.Keys
  {
    CommittedRestoreState(p, s.(restores := s.restores - {0}), s, 0, id, 0, ev);
    GoodStep(p, s, EvCommitRestore(0, ev));
    FilesOfOthers(p, s, EvCommitRestore(0, ev));
  }

  lemma StillStaged(s: State, s1: State, s2: State, base: State, id: nat)
    requires RestoreStagedFrom(s, s1, 0, id, 0) && RestoreStagedFrom(s1, s2, 0, id, 1)
    requires base == s2.(restores := s2.restores - {0})
    ensures RestoreStagedFrom(base, s2, 0, id, 0)
    ensures 1 in s2.restores && s2.restores[1].archiveId == id && s2.restores[1].manifest.checkpointId == 0
  {
    assert 0 in s2.restores - {1} && (s2.restores - {1})[0] == s1.restores[0];
    assert s2 == base.(restores := s2.restores);
  }

  /**
    Two restores of one archive race, the window is archived again in between, and the second restore's commit
    leaves the newer archive recorded with no checkpoint pointing at it.
   */
  lemma StaleRestoreLeavesAnOrphan(p: Platform, s: State, ev: Evidence, kind: string, path: string, later: string,
                                   nonce: string, now: int)
    requires Sound(p) && Initial(p, s) && s.db.live == map[]
    requires path !in s.db.files && later !in s.db.files && later != path
    ensures var waiting := Run(p, Run(p, s, FirstArchive(ev, kind, path, nonce, now)), BothRestores(s.db.nextArchive));
            !NoOrphanRecords(Run(p, waiting, ArchivedInBetween(ev, later, nonce, now)))
  {
    ArchivedOnce(p, s, ev, kind, path, nonce, now);
    RacingRestoresLeaveAnOrphan(p, Run(p, s, FirstArchive(ev, kind, path, nonce, now)), s.db.nextArchive, later, nonce, now, ev);
  }

  lemma RacingRestoresLeaveAnOrphan(p: Platform, s: State, id: nat, path: string, nonce: string, now: int, ev: Evidence)
    requires Sound(p) && OneArchive(p, s, id) && s.restores == map[] && path !in s.db.files
    ensures !NoOrphanRecords(Run(p, Run(p, s, BothRestores(id)), ArchivedInBetween(ev, path, nonce, now)))
  {
    RunOfTwo(p, s, EvStageRestore(0, id), EvStageRestore(1, id));
    TwoRestoresWait(p, s, id);
    var t := Apply(p, Apply(p, s, EvStageRestore(0, id)), EvStageRestore(1, id));
    TwoRestoresOneCommits(p, t, id, ev);
    RunOfFour(p, t, EvCommitRestore(0, ev), EvStageArchive(1, 0, path, nonce, now), EvCommitArchive(1), EvCommitRestore(1, ev));
    LateCommitLeavesOrphan(p, Apply(p, t, EvCommitRestore(0, ev)), id, path, nonce, now, ev);
  }

  lemma LateCommitLeavesOrphan(p: Platform, s: State, id: nat, path: string, nonce: string, now: int, ev: Evidence)
    requires Sound(p) && Inv(p, s) && Authentic(p, s) && path !in s.db.files
    requires |s.db.checkpoints| == 1 && s.db.checkpoints[0].archiveId.None? && s.db.archives.Keys == {} && s.uploads == map[]
    requires 1 in s.restores && s.restores[1].archiveId == id && s.restores[1].manifest.checkpointId == 0
    ensures var t := Apply(p, Apply(p, s, EvStageArchive(1, 0, path, nonce, now)), EvCommitArchive(1));
            !NoOrphanRecords(Apply(p, t, EvCommitRestore(1, ev)))
  {
    var t := Apply(p, Apply(p, s, EvStageArchive(1, 0, path, nonce, now)), EvCommitArchive(1));
    ArchivedState(p, s, 0, 1, path, nonce, now);
    OneRecord(s, t);
    StaleCommit(p, t, s.db.nextArchive, ev);
  }

  lemma StaleCommit(p: Platform, s: State, current: nat, ev: Evidence)
    requires OneArchive(p, s, current) && 1 in s.restores
    requires s.restores[1].archiveId != current && s.restores[1].manifest.checkpointId == 0
    ensures !NoOrphanRecords(Apply(p, s, EvCommitRestore(1, ev)))
  {
    OneArchiveIsNoOrphan(p, s, current);
    WindowRowsFree(s, 0, s.restores[1].manifest.rows);
    RestoreLeavesOrphanExactlyWhenStale(p, s, 1, ev);
  }

  lemma OneArchiveIsNoOrphan(p: Platform, s: State, id: nat)
    requires OneArchive(p, s, id)
    ensures Placed(s, 0) && NoOrphanRecords(s)
  {
  }
}
