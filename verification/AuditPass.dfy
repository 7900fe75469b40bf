/** What a whole archive pass and a whole verification promise, over any reachable state. */
module AuditPass {
  import opened Text
  import opened AuditEvidence
  import opened AuditLog
  import opened AuditLogInvariant
  import opened AuditLogTheorems
  import opened AuditStore

  // ---- a pass is a run of the machine --------------------------------------------

  /** Two windows of one pass never share a file name. */
  lemma PathsDiffer(pass: Pass, c: Checkpoint, d: Checkpoint)
    requires PathOf(pass, c) == PathOf(pass, d)
    ensures c.fromSeq == d.fromSeq
  {
    var x, restX := PathSplits(pass, c);
    var y, restY := PathSplits(pass, d);
    IndexOfConcat(x, '-', restX);
    IndexOfConcat(y, '-', restY);
    assert x == (x + ['-'] + restX)[..|x|] == (y + ['-'] + restY)[..|y|] == y;
    DecimalInjective(c.fromSeq, d.fromSeq);
  }

  lemma PathSplits(pass: Pass, c: Checkpoint) returns (x: string, rest: string)
    ensures x == Decimal(c.fromSeq) && PathOf(pass, c)[|pass.prefix|..] == x + ['-'] + rest
  {
    x, rest := Decimal(c.fromSeq), Decimal(c.toSeq) + "_" + pass.stamp + ".json.gz.enc";
    assert PathOf(pass, c) == pass.prefix + (x + ['-'] + rest);
  }

  /** No window that is still live has a file under this pass's name yet. */
  ghost predicate NamesFree(s: State, pass: Pass)
  {
    forall i :: 0 <= i < |s.db.checkpoints| && s.db.checkpoints[i].archiveId.None? ==>
      PathOf(pass, s.db.checkpoints[i]) !in s.db.files
  }

  ghost predicate Good(p: Platform, s: State) { Inv(p, s) && Authentic(p, s) }

  /** The state after the pass has handled window i. */
  ghost function After(p: Platform, s: State, i: nat, pass: Pass): State
    requires i < |s.db.checkpoints| && s.db.keys != []
  {
    s.(db := PassWindow(p, s.db, i, pass).0)
  }

  ghost predicate Archives(p: Platform, s: State, i: nat, pass: Pass)
    requires i < |s.db.checkpoints|
  {
    var c := s.db.checkpoints[i];
    && c.archiveId.None? && (c.rowCount <= pass.maxRows || pass.allowLarge) && EndOf(pass, i) == Committed
    && forall r :: r in RowsIn(s.db.live, c.fromSeq, c.toSeq) ==> !Held(pass.holds, r)
  }

  /** No transaction of the pass takes effect and answers with an error. */
  ghost predicate TruthfulPass(pass: Pass)
  {
    forall i :: i in pass.ends ==> pass.ends[i] != Misreported
  }

  /**
    In a reachable state a live window is archived exactly when it is within the ceiling, holds no row under a
    legal hold, and its transaction goes through; otherwise nothing changes at all.
   */
  lemma WindowArchivedExactlyWhenAllowed(p: Platform, s: State, i: nat, pass: Pass)
    requires Sound(p) && Good(p, s) && i < |s.db.checkpoints| && s.db.checkpoints[i].archiveId.None?
    requires PathOf(pass, s.db.checkpoints[i]) !in s.db.files && EndOf(pass, i) != Misreported
    ensures PassWindow(p, s.db, i, pass).1.Archived? <==> Archives(p, s, i, pass)
    ensures Archives(p, s, i, pass) ==> ArchivedFrom(s, After(p, s, i, pass), i)
    ensures !Archives(p, s, i, pass) ==> After(p, s, i, pass) == s
    ensures Good(p, After(p, s, i, pass))
    ensures forall path :: path in After(p, s, i, pass).db.files ==>
      path in s.db.files || path == PathOf(pass, s.db.checkpoints[i])
  {
    var c := s.db.checkpoints[i];
    LiveWindowReads(p, s, i);
    NoneHeld(pass.holds, RowsIn(s.db.live, c.fromSeq, c.toSeq));
    LiveWindowStages(p, s, i, PathOf(pass, c), pass.nonce, pass.now);
    if Archives(p, s, i, pass) {
      WindowIsTwoSteps(p, s, i, pass);
    } else {
      RolledBackLeavesNothing(p, s.db, i, PathOf(pass, c), pass.nonce, pass.now);
    }
  }

  lemma LiveWindowReads(p: Platform, s: State, i: nat)
    requires Inv(p, s) && i < |s.db.checkpoints| && s.db.checkpoints[i].archiveId.None?
    ensures var c := s.db.checkpoints[i];
            var rows := RowsIn(s.db.live, c.fromSeq, c.toSeq);
            |rows| == c.rowCount && Digest(p, rows) == c.digest
  {
    assert CheckpointOk(p, s, i) && Placed(s, i);
    FromAtLeastOne(s, i);
    RowsInAgree(s.db.live, s.history, s.db.checkpoints[i].fromSeq, s.db.checkpoints[i].toSeq);
  }

  /** With a misreported transaction the window is reported as not archived, and its rows are nowhere. */
  lemma MisreportedWindowIsLost(p: Platform, s: State, i: nat, pass: Pass, q: nat)
    requires Sound(p) && Good(p, s) && i < |s.db.checkpoints| && EndOf(pass, i) == Misreported
    requires PathOf(pass, s.db.checkpoints[i]) !in s.db.files
    requires Archives(p, s, i, pass.(ends := map[]))
    requires s.db.checkpoints[i].fromSeq <= q <= s.db.checkpoints[i].toSeq && q in s.history
    ensures PassWindow(p, s.db, i, pass).1 == Passed(NotRecorded)
    ensures var t := After(p, s, i, pass); q in t.history && q !in t.db.live && forall j :: !ArchivedAt(p, t, q, j)
  {
    var c := s.db.checkpoints[i];
    var path, run := PathOf(pass, c), FreshRun(s);
    LiveWindowReads(p, s, i);
    NoneHeld(pass.holds, RowsIn(s.db.live, c.fromSeq, c.toSeq));
    LiveWindowStages(p, s, i, path, pass.nonce, pass.now);
    StagedThenMisreported(p, s, i, run, path, pass.nonce, pass.now, q);
    var (staged, a) := StageArchive(p, s.db, i, path, pass.nonce, pass.now).value;
    assert PassWindow(p, s.db, i, pass).0 == FinishArchive(staged, a, Misreported);
    SameDbSamePlaces(p, s.(db := FinishArchive(staged, a, Misreported)), After(p, s, i, pass), q);
  }

  lemma StagedThenMisreported(p: Platform, s: State, i: nat, run: nat, path: string, nonce: string, now: int, q: nat)
    requires Sound(p) && Good(p, s) && run !in s.uploads && path !in s.db.files
    requires i < |s.db.checkpoints| && s.db.checkpoints[i].archiveId.None?
    requires StageArchive(p, s.db, i, path, nonce, now).Some?
    requires s.db.checkpoints[i].fromSeq <= q <= s.db.checkpoints[i].toSeq && q in s.history
    ensures var (staged, a) := StageArchive(p, s.db, i, path, nonce, now).value;
            a.checkpointId < |staged.checkpoints|
            && var t := s.(db := FinishArchive(staged, a, Misreported));
            q !in t.db.live && forall j :: !ArchivedAt(p, t, q, j)
  {
    var mid := Apply(p, s, EvStageArchive(run, i, path, nonce, now));
    PathUnnamed(p, s, path);
    StageArchiveKeepsInv(p, s, run, i, path, nonce, now);
    StagedRun(p, s, i, run, path, nonce, now);
    MisreportedCommitLosesTheWindow(p, mid, run, q);
    var (staged, a) := StageArchive(p, s.db, i, path, nonce, now).value;
    SameDbSamePlaces(p, Apply(p, mid, EvMisreportedCommit(run)), s.(db := FinishArchive(staged, a, Misreported)), q);
  }

  lemma StagedRun(p: Platform, s: State, i: nat, run: nat, path: string, nonce: string, now: int)
    requires s.db.keys != [] && run !in s.uploads && i < |s.db.checkpoints| && s.db.checkpoints[i].archiveId.None?
    requires StageArchive(p, s.db, i, path, nonce, now).Some?
    ensures var (staged, a) := StageArchive(p, s.db, i, path, nonce, now).value;
            var mid := Apply(p, s, EvStageArchive(run, i, path, nonce, now));
            && mid.db == staged && run in mid.uploads && mid.uploads[run] == a && mid.history == s.history
            && a.checkpointId == i && staged.checkpoints == s.db.checkpoints
            && Apply(p, mid, EvMisreportedCommit(run)).db == FinishArchive(staged, a, Misreported)
            && Apply(p, mid, EvMisreportedCommit(run)).history == s.history
  {
  }

  lemma SameDbSamePlaces(p: Platform, s: State, t: State, q: nat)
    requires s.db == t.db && s.history == t.history && forall j :: !ArchivedAt(p, s, q, j)
    ensures forall j :: !ArchivedAt(p, t, q, j)
  {
    forall j ensures !ArchivedAt(p, t, q, j) { assert !ArchivedAt(p, s, q, j); }
  }

  lemma RolledBackLeavesNothing(p: Platform, db: Db, i: nat, path: string, nonce: string, now: int)
    requires db.keys != [] && i < |db.checkpoints| && path !in db.files
    requires StageArchive(p, db, i, path, nonce, now).Some?
    ensures DeleteFile(StageArchive(p, db, i, path, nonce, now).value.0, path) == db
    ensures StageArchive(p, db, i, path, nonce, now).value.1.path == path
  {
    var staged := StageArchive(p, db, i, path, nonce, now).value.0;
    assert staged.files - {path} == db.files;
  }

  lemma WindowIsTwoSteps(p: Platform, s: State, i: nat, pass: Pass)
    requires Sound(p) && Good(p, s) && i < |s.db.checkpoints| && s.db.checkpoints[i].archiveId.None?
    requires PathOf(pass, s.db.checkpoints[i]) !in s.db.files
    requires StageArchive(p, s.db, i, PathOf(pass, s.db.checkpoints[i]), pass.nonce, pass.now).Some?
    requires PassWindow(p, s.db, i, pass) == (
      CommitArchive(StageArchive(p, s.db, i, PathOf(pass, s.db.checkpoints[i]), pass.nonce, pass.now).value.0,
                    StageArchive(p, s.db, i, PathOf(pass, s.db.checkpoints[i]), pass.nonce, pass.now).value.1),
      Archived(s.db.nextArchive))
    ensures ArchivedFrom(s, After(p, s, i, pass), i) && Good(p, After(p, s, i, pass))
    ensures forall path :: path in After(p, s, i, pass).db.files ==>
      path in s.db.files || path == PathOf(pass, s.db.checkpoints[i])
  {
    var path := PathOf(pass, s.db.checkpoints[i]);
    var run: nat := FreshRun(s);
    ArchivedState(p, s, i, run, path, pass.nonce, pass.now);
    TwoStepsState(p, s, i, run, path, pass.nonce, pass.now);
  }

  ghost function FreshRun(s: State): (run: nat)
    ensures run !in s.uploads
  {
    FreshExists(s.uploads.Keys);
    var run: nat :| run !in s.uploads;
    run
  }

  lemma FreshExists(ids: set<nat>)
    ensures exists run: nat :: run !in ids
  {
    var top := Above(ids);
    assert top !in ids;
  }

  lemma {:induction false} Above(ids: set<nat>) returns (top: nat)
    ensures forall k :: k in ids ==> k < top
    decreases ids
  {
    if ids == {} { top := 0; } else {
      var k :| k in ids;
      var rest := Above(ids - {k});
      top := if rest > k then rest else k + 1;
      assert forall j :: j in ids ==> j == k || j in ids - {k};
    }
  }

  lemma TwoStepsState(p: Platform, s: State, i: nat, run: nat, path: string, nonce: string, now: int)
    requires s.db.keys != [] && run !in s.uploads && i < |s.db.checkpoints| && s.db.checkpoints[i].archiveId.None?
    requires StageArchive(p, s.db, i, path, nonce, now).Some?
    ensures var (staged, a) := StageArchive(p, s.db, i, path, nonce, now).value;
            && Apply(p, Apply(p, s, EvStageArchive(run, i, path, nonce, now)), EvCommitArchive(run))
               == s.(db := CommitArchive(staged, a))
            && staged.files.Keys == s.db.files.Keys + {path} && CommitArchive(staged, a).files == staged.files
  {
    var (staged, a) := StageArchive(p, s.db, i, path, nonce, now).value;
    var mid := s.(db := staged, uploads := s.uploads[run := a]);
    assert Apply(p, s, EvStageArchive(run, i, path, nonce, now)) == mid;
    assert mid.uploads - {run} == s.uploads;
    CommitOfRun(p, mid, run);
  }

  lemma CommitOfRun(p: Platform, s: State, run: nat)
    requires s.db.keys != [] && run in s.uploads && s.uploads[run].checkpointId < |s.db.checkpoints|
    ensures Apply(p, s, EvCommitArchive(run)) == s.(db := CommitArchive(s.db, s.uploads[run]), uploads := s.uploads - {run})
  {
  }

  /** ids of live windows, each once. */
  ghost predicate LiveIds(s: State, ids: seq<nat>)
  {
    && (forall k :: 0 <= k < |ids| ==> ids[k] < |s.db.checkpoints| && s.db.checkpoints[ids[k]].archiveId.None?)
    && (forall j, k :: 0 <= j < k < |ids| ==> ids[j] < ids[k])
  }

  ghost function Done(p: Platform, s: State, ids: seq<nat>, pass: Pass): State
    requires s.db.keys != [] && LiveIds(s, ids)
  {
    s.(db := PassAll(p, s.db, ids, pass).0)
  }

  /** Windows the pass has not reached are as they were. */
  ghost predicate Untouched(s: State, t: State, i: nat)
  {
    i < |s.db.checkpoints| && i < |t.db.checkpoints| && t.db.checkpoints[i] == s.db.checkpoints[i]
  }

  /**
    A pass from a reachable state ends in a state the invariants still hold in, with every row still
    in exactly one place; windows off its list are not touched.
   */
  lemma {:induction false} PassKeepsEverything(p: Platform, s: State, ids: seq<nat>, pass: Pass)
    requires Sound(p) && Good(p, s) && LiveIds(s, ids) && NamesFree(s, pass) && TruthfulPass(pass)
    ensures Good(p, Done(p, s, ids, pass)) && NamesFreeAfter(s, Done(p, s, ids, pass), ids, pass)
    ensures forall i :: 0 <= i < |s.db.checkpoints| && i !in ids ==> Untouched(s, Done(p, s, ids, pass), i)
    decreases |ids|
  {
    if ids != [] {
      var init, last := ids[..|ids| - 1], ids[|ids| - 1];
      PassKeepsEverything(p, s, init, pass);
      assert last !in init;
      assert Untouched(s, Done(p, s, init, pass), last);
      PassLast(p, s, ids, pass);
      assert ids == init + [last];
      PassStep(p, s, Done(p, s, init, pass), init, last, pass);
    }
  }

  lemma PassStep(p: Platform, s: State, mid: State, init: seq<nat>, last: nat, pass: Pass)
    requires Sound(p) && Contiguous(s) && Good(p, mid) && NamesFreeAfter(s, mid, init, pass) && TruthfulPass(pass)
    requires last < |s.db.checkpoints| && s.db.checkpoints[last].archiveId.None? && last !in init
    requires Untouched(s, mid, last)
    requires forall i :: 0 <= i < |s.db.checkpoints| && i !in init ==> Untouched(s, mid, i)
    ensures mid.db.keys != []
    ensures var t := After(p, mid, last, pass);
            && Good(p, t) && NamesFreeAfter(s, t, init + [last], pass)
            && forall i :: 0 <= i < |s.db.checkpoints| && i !in init + [last] ==> Untouched(s, t, i)
  {
    WindowArchivedExactlyWhenAllowed(p, mid, last, pass);
    OthersUntouched(p, s, mid, init, last, pass);
    NamesStayFree(s, mid, After(p, mid, last, pass), init, last, pass);
  }

  lemma PassLast(p: Platform, s: State, ids: seq<nat>, pass: Pass)
    requires s.db.keys != [] && LiveIds(s, ids) && ids != []
    ensures Done(p, s, ids, pass) == After(p, Done(p, s, ids[..|ids| - 1], pass), ids[|ids| - 1], pass)
  {
  }

  lemma OthersUntouched(p: Platform, s: State, mid: State, init: seq<nat>, last: nat, pass: Pass)
    requires mid.db.keys != [] && last < |mid.db.checkpoints|
    requires forall i :: 0 <= i < |s.db.checkpoints| && i !in init ==> Untouched(s, mid, i)
    requires After(p, mid, last, pass) == mid || ArchivedFrom(mid, After(p, mid, last, pass), last)
    ensures forall i :: 0 <= i < |s.db.checkpoints| && i !in init + [last] ==> Untouched(s, After(p, mid, last, pass), i)
  {
    forall i | 0 <= i < |s.db.checkpoints| && i !in init + [last] ensures Untouched(s, After(p, mid, last, pass), i) {
      assert (init + [last])[|init|] == last;
      assert forall k :: 0 <= k < |init| ==> (init + [last])[k] == init[k];
      assert i != last && i !in init;
      assert Untouched(s, mid, i);
    }
  }

  /** Every live window off the list still has a free name. */
  ghost predicate NamesFreeAfter(s: State, t: State, ids: seq<nat>, pass: Pass)
  {
    forall i :: 0 <= i < |s.db.checkpoints| && s.db.checkpoints[i].archiveId.None? && i !in ids ==>
      PathOf(pass, s.db.checkpoints[i]) !in t.db.files
  }

  lemma NamesStayFree(s: State, mid: State, t: State, init: seq<nat>, last: nat, pass: Pass)
    requires Contiguous(s) && NamesFreeAfter(s, mid, init, pass) && last < |s.db.checkpoints|
    requires forall path :: path in t.db.files ==>
      path in mid.db.files || path == PathOf(pass, s.db.checkpoints[last])
    ensures NamesFreeAfter(s, t, init + [last], pass)
  {
    forall i | 0 <= i < |s.db.checkpoints| && s.db.checkpoints[i].archiveId.None? && i !in init + [last]
      ensures PathOf(pass, s.db.checkpoints[i]) !in t.db.files
    {
      assert (init + [last])[|init|] == last;
      assert forall k :: 0 <= k < |init| ==> (init + [last])[k] == init[k];
      assert i !in init && i != last;
      DistinctWindowsDistinctPaths(s, i, last, pass);
    }
  }

  lemma DistinctWindowsDistinctPaths(s: State, i: nat, j: nat, pass: Pass)
    requires Contiguous(s) && i < |s.db.checkpoints| && j < |s.db.checkpoints| && i != j
    ensures PathOf(pass, s.db.checkpoints[i]) != PathOf(pass, s.db.checkpoints[j])
  {
    assert WindowOk(s, i) && WindowOk(s, j);
    if i < j { WindowsAscend(s, i, j); } else { WindowsAscend(s, j, i); }
    if PathOf(pass, s.db.checkpoints[i]) == PathOf(pass, s.db.checkpoints[j]) {
      PathsDiffer(pass, s.db.checkpoints[i], s.db.checkpoints[j]);
    }
  }

  // ---- what never leaves the live table ------------------------------------------------

  lemma ProtectedIsHeld(holds: seq<Hold>, r: Row)
    ensures Held(holds, r) <==> exists i :: 0 <= i < |holds| && Protects(holds[i], r)
  {
    assert forall i :: 0 <= i < |holds| ==> (Covers(holds[i], r) <==> Protects(holds[i], r));
  }

  /**
    The windows a run takes up: not archived, periodic or sealed, with at least one row still live and every such row
    older than the cutoff.
   */
  lemma CandidateExactlyWhen(db: Db, cutoff: int, i: nat)
    requires i < |db.checkpoints| && 1 <= db.checkpoints[i].fromSeq
    ensures i in Candidates(db, cutoff, |db.checkpoints|) <==>
            var c := db.checkpoints[i];
            && c.archiveId == None && (c.kind == "Periodic" || c.kind == "Sealed")
            && (exists q :: c.fromSeq <= q <= c.toSeq && q in db.live)
            && (forall q :: c.fromSeq <= q <= c.toSeq && q in db.live ==> db.live[q].createdAt < cutoff)
  {
    var c := db.checkpoints[i];
    var rows := RowsIn(db.live, c.fromSeq, c.toSeq);
    if Eligible(db, i, cutoff) { CandidatesComplete(db, cutoff, |db.checkpoints|, i); }
    forall q | c.fromSeq <= q <= c.toSeq && q in db.live ensures db.live[q] in rows {
      RowsInMember(db.live, c.fromSeq, c.toSeq, db.live[q]);
    }
    forall k | 0 <= k < |rows| ensures exists q :: c.fromSeq <= q <= c.toSeq && q in db.live && db.live[q] == rows[k] {
      assert rows[k] in rows;
      RowsInMember(db.live, c.fromSeq, c.toSeq, rows[k]);
    }
    if rows != [] { assert rows[0] in rows; }
  }

  /**
    A restore's transaction goes through exactly when the checkpoint is there, no row's number is live and no two
    rows share one.
   */
  lemma RestoreCommitsExactlyWhen(p: Platform, db: Db, id: nat, m: Manifest, event: Evidence)
    requires db.keys != []
    ensures var r := CommitRestore(p, db, id, m, event);
            && (r.Some? <==>
                  && m.checkpointId < |db.checkpoints| && (forall i :: 0 <= i < |m.rows| ==> m.rows[i].seqNo !in db.live)
                  && (forall i, j :: 0 <= i < j < |m.rows| ==> m.rows[i].seqNo != m.rows[j].seqNo))
            && (r.Some? ==>
                  && r.value.archives == db.archives - {id} && r.value.nextSeq == db.nextSeq + 1
                  && r.value.checkpoints
                     == db.checkpoints[m.checkpointId := db.checkpoints[m.checkpointId].(archiveId := None)]
                  && db.nextSeq in r.value.live && r.value.live[db.nextSeq].id == event.id)
  {
  }

  /** Each row is then back under its own number, beside all that was live and the restore's event. */
  lemma RestoreBringsBack(p: Platform, db: Db, id: nat, m: Manifest, event: Evidence)
    requires db.keys != [] && CommitRestore(p, db, id, m, event).Some?
    ensures var live := CommitRestore(p, db, id, m, event).value.live;
            && (forall i :: 0 <= i < |m.rows| && m.rows[i].seqNo != db.nextSeq ==>
                  m.rows[i].seqNo in live && live[m.rows[i].seqNo] == m.rows[i])
            && (forall q :: q in db.live && q != db.nextSeq ==> q in live && live[q] == db.live[q])
            && (forall q :: q in live ==>
                  q == db.nextSeq || q in db.live || exists i :: 0 <= i < |m.rows| && m.rows[i].seqNo == q)
  {
    InsertRowsContent(db.live, m.rows);
    var table := InsertRows(db.live, m.rows);
    var live := CommitRestore(p, db, id, m, event).value.live;
    assert forall q :: q != db.nextSeq ==> (q in live <==> q in table) && (q in live ==> live[q] == table[q]);
  }

  /** Nothing under a legal hold, and nothing as recent as the cutoff, is ever deleted by a pass. */
  lemma {:induction false} ProtectedRowsStay(p: Platform, db: Db, ids: seq<nat>, pass: Pass, cutoff: int, q: nat)
    requires db.keys != [] && (forall k :: 0 <= k < |ids| ==> ids[k] < |db.checkpoints| && Eligible(db, ids[k], cutoff))
    requires forall i :: 0 <= i < |db.checkpoints| ==> 1 <= db.checkpoints[i].fromSeq
    requires q in db.live
    requires (exists i :: 0 <= i < |pass.holds| && Protects(pass.holds[i], db.live[q])) || cutoff <= db.live[q].createdAt
    ensures var t := PassAll(p, db, ids, pass).0;
            && q in t.live && t.live[q] == db.live[q] && SameWindows(db, t)
            && forall k :: k in t.live ==> k in db.live && t.live[k] == db.live[k]
    decreases |ids|
  {
    if ids != [] {
      var init, i := ids[..|ids| - 1], ids[|ids| - 1];
      ProtectedRowsStay(p, db, init, pass, cutoff, q);
      ProtectedIsHeld(pass.holds, db.live[q]);
      var mid := PassAll(p, db, init, pass).0;
      var c := db.checkpoints[i];
      assert SameWindow(c, mid.checkpoints[i]);
      if c.fromSeq <= q <= c.toSeq {
        RowsInMember(mid.live, c.fromSeq, c.toSeq, mid.live[q]);
        RowsInMember(db.live, c.fromSeq, c.toSeq, db.live[q]);
        NoneHeld(pass.holds, RowsIn(mid.live, c.fromSeq, c.toSeq));
        assert Eligible(db, i, cutoff);
      }
      WindowDeletesOnlyItself(p, mid, i, pass);
    }
  }

  predicate SameWindow(c: Checkpoint, d: Checkpoint) { d.fromSeq == c.fromSeq && d.toSeq == c.toSeq }

  ghost predicate SameWindows(d: Db, e: Db)
  {
    && |e.checkpoints| == |d.checkpoints| && e.keys == d.keys
    && forall i :: 0 <= i < |d.checkpoints| ==> SameWindow(d.checkpoints[i], e.checkpoints[i])
  }

  lemma WindowDeletesOnlyItself(p: Platform, db: Db, i: nat, pass: Pass)
    requires db.keys != [] && i < |db.checkpoints|
    ensures var (t, o) := PassWindow(p, db, i, pass);
            && SameWindows(db, t)
            && (forall k :: k in t.live ==> k in db.live && t.live[k] == db.live[k])
            && (forall k :: k in db.live && !(db.checkpoints[i].fromSeq <= k <= db.checkpoints[i].toSeq) ==> k in t.live)
            && (HeldCount(pass.holds, RowsIn(db.live, db.checkpoints[i].fromSeq, db.checkpoints[i].toSeq)) > 0 ==>
                  t.live == db.live)
  {
    var path := PathOf(pass, db.checkpoints[i]);
    PassWindowIs(p, db, i, pass);
    if StageArchive(p, db, i, path, pass.nonce, pass.now).Some? {
      var (staged, a) := StageArchive(p, db, i, path, pass.nonce, pass.now).value;
      assert staged == db.(files := staged.files);
      CommitDeletesOnlyItself(staged, a, EndOf(pass, i));
    }
  }

  /** A window is left alone, or its file is removed again, or its transaction ends one way or another. */
  lemma PassWindowIs(p: Platform, db: Db, i: nat, pass: Pass)
    requires db.keys != [] && i < |db.checkpoints|
    ensures var path, t := PathOf(pass, db.checkpoints[i]), PassWindow(p, db, i, pass).0;
            var r := StageArchive(p, db, i, path, pass.nonce, pass.now);
            t == db || t == DeleteFile(db, path)
            || (r.Some? && r.value.1.checkpointId < |r.value.0.checkpoints| && t == FinishArchive(r.value.0, r.value.1, EndOf(pass, i)))
    ensures HeldCount(pass.holds, RowsIn(db.live, db.checkpoints[i].fromSeq, db.checkpoints[i].toSeq)) > 0 ==>
              PassWindow(p, db, i, pass).0 == db
  {
  }

  lemma CommitDeletesOnlyItself(db: Db, a: Archive, end: CommitEnd)
    requires a.checkpointId < |db.checkpoints|
    ensures var t := FinishArchive(db, a, end);
            && SameWindows(db, t)
            && (forall k :: k in t.live ==> k in db.live && t.live[k] == db.live[k])
            && (forall k :: k in db.live && !(a.fromSeq <= k <= a.toSeq) ==> k in t.live)
  {
  }

  // ---- verification of a reachable state --------------------------------------------------

  lemma {:induction false} CleanRowCounts(rows: seq<Row>, vs: seq<RowVerdict>)
    requires |rows| == |vs| && forall i :: 0 <= i < |vs| ==> vs[i] in {Unsigned, RowVerified}
    ensures CountVerdict(vs, Unsigned) + CountVerdict(vs, RowVerified) == |vs|
    ensures CountVerdict(vs, RowKeyMissing) == 0 && TamperedIds(rows, vs) == [] && MissingRowKeys(rows, vs) == []
  {
    if rows != [] { CleanRowCounts(rows[..|rows| - 1], vs[..|vs| - 1]); }
  }

  lemma {:induction false} AllVerifiedCounts(cs: seq<Checkpoint>, vs: seq<CheckpointVerdict>)
    requires |cs| == |vs| && forall i :: 0 <= i < |vs| ==> vs[i] == Verified
    ensures GoodOnes(vs) == |vs| && BadOnes(vs) == [] && MissingSealKeys(cs, vs) == []
  {
    if vs != [] { AllVerifiedCounts(cs[..|cs| - 1], vs[..|vs| - 1]); }
  }

  /**
    VerifyAuditEvidence in any reachable state: intact, every signed row verified, no row called
    tampered or unverifiable, every checkpoint good.
   */
  lemma ReachableReportIsClean(p: Platform, s: State, r: Report)
    requires Good(p, s) && Describes(p, s.db, r)
    ensures r.intact && r.verified == r.signed && r.tampered == [] && r.unverifiable == 0
    ensures r.checkpointsOk == |s.db.checkpoints| && r.checkpointsBad == [] && r.missingKeys == []
  {
    var rows := AllRows(s.db);
    var vs := RowVerdicts(p, s.db, rows);
    forall i | 0 <= i < |rows| ensures vs[i] in {Unsigned, RowVerified} {
      assert rows[i] in rows;
      RowsInMember(s.db.live, 1, s.db.nextSeq, rows[i]);
      VerificationAccepts(p, s);
    }
    forall i | 0 <= i < |s.db.checkpoints| ensures Verdicts(p, s.db)[i] == Verified { CheckpointVerifies(p, s, i); }
    CleanRowCounts(rows, vs);
    AllVerifiedCounts(s.db.checkpoints, Verdicts(p, s.db));
  }
}
