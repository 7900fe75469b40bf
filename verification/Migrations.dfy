/**
  Running the migration files against a ledger (db/migrate.go). Each file runs in its own transaction; an outcome
  says how that transaction went.
 */
module Migrations {
  import opened Text
  import opened MigrationNames

  /** CommitFails(true): the server committed although the runner was told it had not. */
  datatype Outcome = Works | NotRead | NotBegun | ScriptFails | LedgerFails | CommitFails(committed: bool)

  /** ledger names the recorded files; effects lists the files whose changes are in the schema, in order. */
  datatype Db = Db(ledger: set<string>, effects: seq<string>)

  type Outcomes = string -> Outcome

  /** What one file's transaction leaves behind. */
  function Try(d: Db, name: string, o: Outcome): Db
  {
    if o == Works || o == CommitFails(true) then Db(d.ledger + {name}, d.effects + [name]) else d
  }

  function Pending(ledger: set<string>, names: seq<string>): (p: seq<string>)
  {
    if names == [] then []
    else Pending(ledger, names[..|names| - 1]) + (if names[|names| - 1] in ledger then [] else [names[|names| - 1]])
  }

  /** The loop over names: recorded is what the ledger held when the run began; it stops at the first failure. */
  function RunFiles(d: Db, recorded: set<string>, names: seq<string>, o: Outcomes): (Db, bool)
  {
    if names == [] then (d, true)
    else
      var (before, ok) := RunFiles(d, recorded, names[..|names| - 1], o);
      var name := names[|names| - 1];
      if !ok || name in recorded then (before, ok) else (Try(before, name, o(name)), o(name) == Works)
  }

  function ApplyPending(d: Db, names: seq<string>, o: Outcomes): Db { RunFiles(d, d.ledger, names, o).0 }

  function Baseline(d: Db, names: seq<string>): Db { d.(ledger := d.ledger + (set n | n in names)) }

  ghost predicate Distinct(names: seq<string>) { forall i, j :: 0 <= i < j < |names| ==> names[i] != names[j] }

  /** No effect twice, and nothing in the schema that the ledger does not record. */
  ghost predicate Recorded(d: Db, baselined: set<string>)
  {
    && Distinct(d.effects)
    && (forall n :: n in d.ledger <==> n in d.effects || n in baselined)
    && (forall n :: n in d.effects ==> n !in baselined)
  }

  // ---- one run ----------------------------------------------------------------------------------

  ghost predicate IsPrefix(p: seq<string>, q: seq<string>) { |p| <= |q| && p == q[..|p|] }

  lemma {:induction false} PendingMembers(ledger: set<string>, names: seq<string>)
    ensures forall n :: n in Pending(ledger, names) <==> n in names && n !in ledger
    ensures Distinct(names) ==> Distinct(Pending(ledger, names))
  {
    if names != [] {
      var k := |names| - 1;
      PendingMembers(ledger, names[..k]);
      assert names == names[..k] + [names[k]];
      var before := Pending(ledger, names[..k]);
      if Distinct(names) && names[k] !in ledger {
        forall i | 0 <= i < |before| ensures before[i] != names[k] { assert before[i] in names[..k]; }
      }
    }
  }

  /** How many of the pending files a run got through. */
  function Done(d: Db, recorded: set<string>, names: seq<string>, o: Outcomes): seq<string>
  {
    var t := RunFiles(d, recorded, names, o).0;
    if |t.effects| >= |d.effects| then t.effects[|d.effects|..] else []
  }

  /**
    A run applies a prefix of exactly what PendingMigrations names, in that order, records each file it applied,
    and applies them all when it reports success.
   */
  lemma {:induction false} RunAppliesPendingPrefix(d: Db, recorded: set<string>, names: seq<string>, o: Outcomes)
    ensures var (t, ok) := RunFiles(d, recorded, names, o);
            var done := Done(d, recorded, names, o);
            && t == Db(d.ledger + (set n | n in done), d.effects + done)
            && IsPrefix(done, Pending(recorded, names))
            && (ok ==> done == Pending(recorded, names))
  {
    if names != [] {
      var init, name := names[..|names| - 1], names[|names| - 1];
      RunAppliesPendingPrefix(d, recorded, init, o);
      var (before, ok) := RunFiles(d, recorded, init, o);
      var done := Done(d, recorded, init, o);
      var after := RunFiles(d, recorded, names, o).0;
      if ok && name !in recorded {
        var added := if o(name) == Works || o(name) == CommitFails(true) then [name] else [];
        assert after.effects == d.effects + (done + added);
        assert Done(d, recorded, names, o) == done + added;
      } else {
        assert after == before;
      }
    }
  }

  lemma RunKeepsRecorded(d: Db, names: seq<string>, o: Outcomes, baselined: set<string>)
    requires Recorded(d, baselined) && Distinct(names)
    ensures Recorded(ApplyPending(d, names, o), baselined)
  {
    RunAppliesPendingPrefix(d, d.ledger, names, o);
    PendingMembers(d.ledger, names);
    var done := Done(d, d.ledger, names, o);
    var t := ApplyPending(d, names, o);
    assert forall n :: n in done ==> n in Pending(d.ledger, names);
    forall i, j | 0 <= i < j < |t.effects| ensures t.effects[i] != t.effects[j] {
      if j >= |d.effects| {
        assert t.effects[j] == done[j - |d.effects|];
        if i < |d.effects| { assert t.effects[i] in d.effects; assert t.effects[j] in done; }
        else { assert t.effects[i] == done[i - |d.effects|]; }
      }
    }
  }

  // ---- any number of runs -------------------------------------------------------------------------

  datatype Event = Migrate(names: seq<string>, outcomes: Outcomes) | Baselined(names: seq<string>)

  function Apply(d: Db, e: Event): Db
  {
    match e
    case Migrate(names, o) => ApplyPending(d, names, o)
    case Baselined(names) => Baseline(d, names)
  }

  function Run(d: Db, events: seq<Event>): Db
    decreases |events|
  {
    if events == [] then d else Run(Apply(d, events[0]), events[1..])
  }

  ghost predicate FilesDistinct(events: seq<Event>)
  {
    forall i :: 0 <= i < |events| ==> Distinct(events[i].names)
  }

  /** The files the run's baselines recorded without applying them. */
  ghost function BaselinedIn(d: Db, events: seq<Event>): set<string>
    decreases |events|
  {
    if events == [] then {}
    else
      (match events[0] case Migrate(_, _) => {} case Baselined(names) => set n | n in names && n !in d.ledger)
      + BaselinedIn(Apply(d, events[0]), events[1..])
  }

  /**
    Failed, interrupted and repeated runs included, each file's effect is in the schema at most once, and the ledger
    names exactly the files applied and those baselined.
   */
  lemma {:induction false} EffectsAtMostOnce(d: Db, events: seq<Event>, baselined: set<string>)
    requires Recorded(d, baselined) && FilesDistinct(events)
    ensures Recorded(Run(d, events), baselined + BaselinedIn(d, events))
    decreases |events|
  {
    if events == [] {
      assert baselined + BaselinedIn(d, events) == baselined;
    } else {
      var rest := BaselinedIn(Apply(d, events[0]), events[1..]);
      match events[0] {
        case Migrate(names, o) =>
          RunKeepsRecorded(d, names, o, baselined);
          EffectsAtMostOnce(Apply(d, events[0]), events[1..], baselined);
          assert baselined + BaselinedIn(d, events) == baselined + rest;
        case Baselined(names) =>
          var added := set n | n in names && n !in d.ledger;
          EffectsAtMostOnce(Apply(d, events[0]), events[1..], baselined + added);
          assert baselined + BaselinedIn(d, events) == baselined + added + rest;
      }
    }
  }

  // ---- several migrators at once ------------------------------------------------------------------

  /** A migrator under way: what the ledger held when it began, and the files it has not come to yet. */
  datatype Migrator = Migrator(recorded: set<string>, rest: seq<string>)

  datatype Fleet = Fleet(db: Db, migrators: map<nat, Migrator>)

  datatype FleetEvent = Begins(id: nat, names: seq<string>) | Steps(id: nat, outcome: Outcome) | Dies(id: nat)

  predicate TookEffect(o: Outcome) { o == Works || o == CommitFails(true) }

  /** No lock and ON CONFLICT DO NOTHING: a file another migrator has recorded meanwhile is run again all the same. */
  function FleetApply(s: Fleet, e: FleetEvent): Fleet
  {
    match e
    case Begins(id, names) => if id in s.migrators then s else s.(migrators := s.migrators[id := Migrator(s.db.ledger, names)])
    case Steps(id, o) =>
      if id !in s.migrators || s.migrators[id].rest == [] then s
      else
        var m := s.migrators[id];
        var next := m.(rest := m.rest[1..]);
        if m.rest[0] in m.recorded then s.(migrators := s.migrators[id := next])
        else Fleet(Try(s.db, m.rest[0], o), if o == Works then s.migrators[id := next] else s.migrators - {id})
    case Dies(id) => s.(migrators := s.migrators - {id})
  }

  /** This step runs a file that the ledger did not hold when its migrator began. */
  ghost predicate RunsFile(s: Fleet, e: FleetEvent)
  {
    && e.Steps? && e.id in s.migrators && s.migrators[e.id].rest != []
    && s.migrators[e.id].rest[0] !in s.migrators[e.id].recorded && TookEffect(e.outcome)
  }

  /** A file that runs and takes effect is applied once exactly when the ledger does not hold it by then. */
  lemma StepAppliesOnceExactlyWhenUnrecorded(s: Fleet, e: FleetEvent, baselined: set<string>)
    requires Recorded(s.db, baselined) && RunsFile(s, e)
    ensures Recorded(FleetApply(s, e).db, baselined) <==> s.migrators[e.id].rest[0] !in s.db.ledger
  {
    var name, d, t := s.migrators[e.id].rest[0], s.db, FleetApply(s, e).db;
    assert t == Db(d.ledger + {name}, d.effects + [name]);
    assert t.effects[|d.effects|] == name && forall i :: 0 <= i < |d.effects| ==> t.effects[i] == d.effects[i];
    if name in d.effects {
      var i :| 0 <= i < |d.effects| && d.effects[i] == name;
      assert t.effects[i] == t.effects[|d.effects|];
    }
  }

  ghost predicate Unrecorded(s: Fleet, e: FleetEvent)
  {
    RunsFile(s, e) ==> s.migrators[e.id].rest[0] !in s.db.ledger
  }

  function FleetRun(s: Fleet, events: seq<FleetEvent>): Fleet
    decreases |events|
  {
    if events == [] then s else FleetRun(FleetApply(s, events[0]), events[1..])
  }

  ghost predicate UnrecordedRun(s: Fleet, events: seq<FleetEvent>)
    decreases |events|
  {
    events == [] || (Unrecorded(s, events[0]) && UnrecordedRun(FleetApply(s, events[0]), events[1..]))
  }

  /** Over any interleaving in which that is so, however many migrators fail or die, ledger and effects agree. */
  lemma {:induction false} FleetAppliesOnce(s: Fleet, events: seq<FleetEvent>, baselined: set<string>)
    requires Recorded(s.db, baselined) && UnrecordedRun(s, events)
    ensures Recorded(FleetRun(s, events).db, baselined)
    decreases |events|
  {
    if events != [] {
      if RunsFile(s, events[0]) { StepAppliesOnceExactlyWhenUnrecorded(s, events[0], baselined); }
      FleetAppliesOnce(FleetApply(s, events[0]), events[1..], baselined);
    }
  }

  /** Two migrators begin on an empty ledger with the same file. */
  lemma TwoMigratorsApplyTwice()
    ensures FleetRun(Fleet(Db({}, []), map[]), [Begins(0, ["a.sql"]), Begins(1, ["a.sql"]), Steps(0, Works), Steps(1, Works)]).db
            == Db({"a.sql"}, ["a.sql", "a.sql"])
  {
    var s := Fleet(Db({}, []), map[]);
    var events := [Begins(0, ["a.sql"]), Begins(1, ["a.sql"]), Steps(0, Works), Steps(1, Works)];
    var s1 := FleetApply(s, events[0]);
    var s2 := FleetApply(s1, events[1]);
    var s3 := FleetApply(s2, events[2]);
    assert s2.migrators[0] == Migrator({}, ["a.sql"]) == s2.migrators[1];
    assert s3.db == Db({"a.sql"}, ["a.sql"]) && s3.migrators[1] == s2.migrators[1];
    assert FleetRun(s, events) == FleetRun(s1, events[1..]);
    assert events[1..][1..] == events[2..] && events[2..][1..] == events[3..] && events[3..][1..] == [];
    assert FleetRun(s1, events[1..]) == FleetRun(s2, events[2..]);
    assert FleetRun(s2, events[2..]) == FleetRun(s3, events[3..]);
    assert FleetRun(s3, events[3..]) == FleetRun(FleetApply(s3, events[3]), []);
  }

  /** What PendingMigrations names is what a run without failures applies, and afterwards nothing is pending. */
  lemma PendingIsWhatRuns(d: Db, names: seq<string>, o: Outcomes)
    requires forall n :: n in names ==> o(n) == Works
    ensures ApplyPending(d, names, o) == Db(d.ledger + (set n | n in names), d.effects + Pending(d.ledger, names))
    ensures Pending(ApplyPending(d, names, o).ledger, names) == []
  {
    RunAppliesPendingPrefix(d, d.ledger, names, o);
    AllWorkIsOk(d, d.ledger, names, o);
    PendingMembers(d.ledger, names);
    var t := ApplyPending(d, names, o);
    assert t.ledger == d.ledger + (set n | n in names);
    NothingPending(t.ledger, names);
  }

  lemma {:induction false} NothingPending(ledger: set<string>, names: seq<string>)
    requires forall n :: n in names ==> n in ledger
    ensures Pending(ledger, names) == []
  {
    if names != [] { NothingPending(ledger, names[..|names| - 1]); }
  }

  lemma {:induction false} AllWorkIsOk(d: Db, recorded: set<string>, names: seq<string>, o: Outcomes)
    requires forall n :: n in names ==> o(n) == Works
    ensures RunFiles(d, recorded, names, o).1
  {
    if names != [] { AllWorkIsOk(d, recorded, names[..|names| - 1], o); }
  }

  /** A failed file is the next one a repeated run starts with: nothing before it is run again. */
  lemma RetryResumesAtFailure(d: Db, names: seq<string>, o: Outcomes, again: Outcomes)
    requires Distinct(names) && (forall n :: n in names ==> again(n) == Works)
    ensures var t := ApplyPending(d, names, o);
            ApplyPending(t, names, again).effects == d.effects + Pending(d.ledger, names)
  {
    RunAppliesPendingPrefix(d, d.ledger, names, o);
    var done := Done(d, d.ledger, names, o);
    var t := ApplyPending(d, names, o);
    PendingIsWhatRuns(t, names, again);
    PendingAfter(d.ledger, names, done);
    assert done + Pending(t.ledger, names) == Pending(d.ledger, names);
  }

  lemma {:induction false} PendingAfter(ledger: set<string>, names: seq<string>, done: seq<string>)
    requires Distinct(names) && IsPrefix(done, Pending(ledger, names))
    ensures done + Pending(ledger + (set n | n in done), names) == Pending(ledger, names)
  {
    if names != [] {
      var k := |names| - 1;
      var init := names[..k];
      var before := Pending(ledger, init);
      PendingMembers(ledger, init);
      assert forall i :: 0 <= i < k ==> init[i] == names[i];
      if |done| <= |before| {
        assert done == before[..|done|];
        PendingAfter(ledger, init, done);
        assert names[k] !in done by {
          assert forall n :: n in done ==> n in before;
          assert names[k] !in init;
        }
      } else {
        assert done == Pending(ledger, names);
        PendingMembers(ledger, names);
        assert forall n :: n in names ==> n in ledger || n in done;
        NothingPending(ledger + (set n | n in done), names);
      }
    }
  }

  /** Files of one run go in name order. */
  lemma RunFollowsNameOrder(d: Db, names: seq<string>, o: Outcomes)
    requires InOrder(names)
    ensures InOrder(Done(d, d.ledger, names, o))
  {
    RunAppliesPendingPrefix(d, d.ledger, names, o);
    PendingInOrder(d.ledger, names);
    var done := Done(d, d.ledger, names, o);
    forall i, j | 0 <= i < j < |done| ensures NotAfter(done[i], done[j]) {
      assert done[i] == Pending(d.ledger, names)[i] && done[j] == Pending(d.ledger, names)[j];
    }
  }

  lemma {:induction false} PendingInOrder(ledger: set<string>, names: seq<string>)
    requires InOrder(names)
    ensures InOrder(Pending(ledger, names))
  {
    if names != [] {
      var k := |names| - 1;
      PendingInOrder(ledger, names[..k]);
      PendingMembers(ledger, names[..k]);
      var before := Pending(ledger, names[..k]);
      forall i | 0 <= i < |before| ensures NotAfter(before[i], names[k]) {
        assert before[i] in names[..k];
      }
    }
  }

  // ---- the runner -------------------------------------------------------------------------------------

  datatype FileResult = AlreadyApplied(file: string) | Applied(file: string) | Failed(file: string)

  /** The unrecorded files of a directory, in order. */
  ghost predicate PendingOf(ledger: set<string>, entries: seq<string>, pending: seq<string>)
  {
    exists names :: IsFileList(entries, names) && pending == Pending(ledger, names)
  }

  ghost predicate IsFileList(entries: seq<string>, names: seq<string>)
  {
    InOrder(names) && multiset(names) == multiset(MigrationNames.Migrations(entries))
  }

  class Database {
    var ledger: set<string>
    ghost var effects: seq<string>

    ghost function View(): Db
      reads this
    {
      Db(ledger, effects)
    }

    constructor ()
      ensures View() == Db({}, [])
    {
      ledger, effects := {}, [];
    }

    /** One file in its own transaction. */
    method RunFile(name: string, outcome: Outcome) returns (ok: bool)
      modifies this
      ensures View() == Try(old(View()), name, outcome) && (ok <==> outcome == Works)
    {
      match outcome {
        case NotRead => return false;
        case NotBegun => return false;
        case ScriptFails => return false;
        case LedgerFails => return false;
        case CommitFails(committed) =>
          if committed { ledger, effects := ledger + {name}, effects + [name]; }
          return false;
        case Works =>
          ledger, effects := ledger + {name}, effects + [name];
          return true;
      }
    }

    method ApplyPendingMigrations(entries: seq<string>, o: Outcomes) returns (results: seq<FileResult>, ghost names: seq<string>)
      modifies this
      ensures IsFileList(entries, names)
      ensures View() == ApplyPending(old(View()), names, o)
      ensures |results| <= |names| && forall i :: 0 <= i < |results| ==> results[i].file == names[i]
      ensures forall r :: r in results && r.Failed? ==> r == results[|results| - 1]
      ensures RunFiles(old(View()), old(ledger), names, o).1 <==> |results| == |names| && forall r :: r in results ==> !r.Failed?
    {
      var recorded := ledger;
      ghost var before := View();
      var files := MigrationFileNames(entries);
      names := files;
      results := [];
      for i := 0 to |files|
        invariant RunFiles(before, recorded, files[..i], o) == (View(), true)
        invariant |results| == i && forall k :: 0 <= k < i ==> results[k].file == files[k] && !results[k].Failed?
      {
        assert files[..i + 1][..i] == files[..i];
        if files[i] in recorded {
          results := results + [AlreadyApplied(files[i])];
          continue;
        }
        var ok := RunFile(files[i], o(files[i]));
        if !ok {
          results := results + [Failed(files[i])];
          StaysStopped(before, recorded, files, i + 1, o);
          return;
        }
        results := results + [Applied(files[i])];
      }
      assert files[..|files|] == files;
    }

    method PendingMigrations(entries: seq<string>) returns (pending: seq<string>)
      ensures PendingOf(ledger, entries, pending)
    {
      var files := MigrationFileNames(entries);
      pending := [];
      for i := 0 to |files|
        invariant pending == Pending(ledger, files[..i])
      {
        assert files[..i + 1][..i] == files[..i];
        if files[i] !in ledger { pending := pending + [files[i]]; }
      }
      assert files[..|files|] == files;
      assert IsFileList(entries, files);
    }
  }

  lemma {:induction false} StaysStopped(d: Db, recorded: set<string>, names: seq<string>, i: nat, o: Outcomes)
    requires i <= |names| && !RunFiles(d, recorded, names[..i], o).1
    ensures RunFiles(d, recorded, names, o) == RunFiles(d, recorded, names[..i], o)
  {
    if i < |names| {
      var k := |names| - 1;
      assert names[..k][..i] == names[..i];
      StaysStopped(d, recorded, names[..k], i, o);
    } else {
      assert names[..i] == names;
    }
  }
}
