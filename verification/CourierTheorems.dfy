/**
  What the courier guard keeps: while a request may be outstanding no further one is sent, so a courier that is
  described truthfully acts at most once, and a recorded result stays.
 */
module CourierTheorems {
  import opened Text
  import opened CourierGuard

  lemma DigitsAreTrimmed(s: string)
    requires s != [] && AllDigits(s)
    ensures Trim(s) == s
  {
    assert IsDigit(s[0]) && IsDigit(s[|s| - 1]);
    assert TrimLeft(s) == s;
  }

  // ---- what a claim and a resolution answer, in the words of the row --------------------------

  /** The text under a key, trimmed; "" when there is none. */
  ghost function At(d: Data, key: string): string { if key in d then Trim(d[key]) else "" }

  /** Somebody claimed the step no more than two minutes ago and has not called it uncertain. */
  ghost predicate BeingSent(d: Data, k: Step, now: nat)
  {
    && At(d, k.stateKey) != "uncertain" && At(d, k.claimKey) != "" && AllDigits(At(d, k.claimKey))
    && now - DecimalValue(At(d, k.claimKey)) <= 2 * 60 * 1000
  }

  /** Nothing but the step's claim and state differs. */
  ghost predicate OnlyTheClaim(d: Data, t: Data, k: Step)
  {
    forall key :: key != k.claimKey && key != k.stateKey ==> (key in t <==> key in d) && (key in t ==> t[key] == d[key])
  }

  /**
    A done step answers its result. Any other goes to the caller whose precheck passes and who finds it unclaimed, or
    claimed by nobody still sending and can ask the courier first; the claim is then stamped, and marked for asking.
   */
  lemma ClaimAnswers(d: Data, k: Step, canLookup: bool, precheck: bool, now: nat)
    requires IsStep(k)
    ensures var (a, t) := Claim(d, k, canLookup, precheck, now);
            && (At(d, k.doneKey) != "" ==> a == AlreadyDone(At(d, k.doneKey)) && t == d)
            && (At(d, k.doneKey) == "" ==>
                  && (a.Claimed? <==> precheck && (At(d, k.claimKey) == "" || (!BeingSent(d, k, now) && canLookup)))
                  && (!a.Claimed? ==> a == Refused && t == d))
            && (a.Claimed? ==>
                  && (a.lookupFirst <==> At(d, k.claimKey) != "")
                  && k.claimKey in t && t[k.claimKey] == Decimal(now) && OnlyTheClaim(d, t, k)
                  && (if a.lookupFirst then k.stateKey in t && t[k.stateKey] == "checking" else k.stateKey !in t))
  {
  }

  /**
    An operator's word settles a step exactly when it is one of the two outcomes, the reference is short and one word,
    nothing is recorded, and there is a claim nobody is still sending; the claim goes, and for a done step the
    reference (or "portal"), or for a cancellation the time, is recorded.
   */
  lemma ResolveAnswers(d: Data, k: Step, outcome: string, reference: string, now: nat)
    requires IsStep(k)
    ensures Resolve(d, k, outcome, reference, now).Some? <==>
            && (outcome == k.done || outcome == k.notDone)
            && |reference| <= 64 && ' ' !in reference && '\t' !in reference && '\r' !in reference && '\n' !in reference
            && At(d, k.doneKey) == "" && At(d, k.claimKey) != "" && !BeingSent(d, k, now)
    ensures Resolve(d, k, outcome, reference, now).Some? ==>
              var t := Resolve(d, k, outcome, reference, now).value;
              && k.claimKey !in t && k.stateKey !in t
              && (forall key :: key !in {k.claimKey, k.stateKey, k.doneKey} ==>
                    (key in t <==> key in d) && (key in t ==> t[key] == d[key]))
              && (outcome == k.done ==>
                    k.doneKey in t && t[k.doneKey] == if k.name == "cancel" then Decimal(now)
                                                      else if reference == "" then "portal" else reference)
              && (outcome != k.done ==> (k.doneKey in t <==> k.doneKey in d) && (k.doneKey in t ==> t[k.doneKey] == d[k.doneKey]))
  {
    if exists c :: c in reference && IsSpace(c) {
      var c :| c in reference && IsSpace(c);
      assert c == ' ' || c == '\t' || c == '\r' || c == '\n';
    } else {
      assert ' ' in reference ==> IsSpace(' ');
      assert '\t' in reference ==> IsSpace('\t');
      assert '\r' in reference ==> IsSpace('\r');
      assert '\n' in reference ==> IsSpace('\n');
    }
    assert PICKUP.name[0] == 'p' && CANCEL.name[0] == 'c';
    assert PICKUP.done[0] == 's' && CANCEL.done[0] == 'c' && PICKUP.notDone[0] == 'n' && CANCEL.notDone[0] == 'n';
  }

  // ---- the invariant --------------------------------------------------------------------------

  /** A running call holds the claim it wrote, still fresh, and nothing is recorded. */
  ghost predicate CallOk(s: State, k: Step, id: nat)
    requires id in s.calls
  {
    var c := s.calls[id];
    && Value(s.data, k.doneKey) == ""
    && Value(s.data, k.claimKey) == Decimal(c.started)
    && Value(s.data, k.stateKey) != UNCERTAIN
    && c.started <= s.now <= c.started + STALE
    && (c.phase.Asking? ==> s.maybe) && (c.phase.Cleared? ==> !s.maybe) && (c.phase.Sent? && c.phase.wrote ==> s.maybe)
  }

  ghost predicate Guarded(s: State, k: Step)
  {
    && IsStep(k)
    && (forall id :: id in s.calls ==> CallOk(s, k, id))
    && (forall i, j :: i in s.calls && j in s.calls ==> i == j)
    && (Value(s.data, k.doneKey) == "" && s.maybe ==> Value(s.data, k.claimKey) != "")
    && (Value(s.data, k.doneKey) == "" && Value(s.data, k.claimKey) != "" && s.calls == map[] ==> s.maybe)
    && (Value(s.data, k.doneKey) == "" ==> k.doneKey !in s.data)
    && s.blind == 0
  }

  /** What the guard asks of its surroundings. */
  ghost predicate Orderly(s: State, k: Step, e: Event)
  {
    match e
    case EvTick(ms) => forall id :: id in s.calls ==> s.now + ms <= s.calls[id].started + STALE
    case EvLeave(id) => id in s.calls ==> !s.calls[id].phase.Asking?
    case EvLookup(_, Some(Some(result))) => Trim(result) != ""
    case EvSucceeded(_, result) => Trim(result) != ""
    case _ => true
  }

  lemma OtherKeysUntouched(s: State, k: Step, key: string, value: string)
    requires Guarded(s, k)
    ensures Guarded(Apply(s, k, EvOther(key, value)), k)
  {
    var t := Apply(s, k, EvOther(key, value));
    forall id | id in t.calls ensures CallOk(t, k, id) { assert CallOk(s, k, id); }
  }

  lemma TickKeepsGuarded(s: State, k: Step, ms: nat)
    requires Guarded(s, k) && Orderly(s, k, EvTick(ms))
    ensures Guarded(Apply(s, k, EvTick(ms)), k)
  {
    var t := Apply(s, k, EvTick(ms));
    forall id | id in t.calls ensures CallOk(t, k, id) { assert CallOk(s, k, id); }
  }

  /** A running call's claim is fresh, so nobody can take it over. */
  lemma RunningCallIsBusy(s: State, k: Step)
    requires Guarded(s, k) && s.calls != map[]
    ensures Value(s.data, k.claimKey) != "" && Busy(s.data, k, s.now)
  {
    var id :| id in s.calls;
    assert CallOk(s, k, id);
    DecimalRoundTrip(s.calls[id].started);
  }

  lemma BeginKeepsGuarded(s: State, k: Step, id: nat, canLookup: bool, precheck: bool)
    requires Guarded(s, k)
    ensures Guarded(Apply(s, k, EvBegin(id, canLookup, precheck)), k)
  {
    var t := Apply(s, k, EvBegin(id, canLookup, precheck));
    if t != s {
      if s.calls != map[] { RunningCallIsBusy(s, k); }
      assert s.calls == map[];
      DigitsAreTrimmed(Decimal(s.now));
      assert t.calls == map[id := t.calls[id]];
      assert CallOk(t, k, id) by { assert CHECKING[0] == 'c' && UNCERTAIN[0] == 'u'; TrimChecking(); }
    }
  }

  lemma TrimChecking()
    ensures Trim(CHECKING) == CHECKING && Trim(UNCERTAIN) == UNCERTAIN && Trim("portal") == "portal"
    ensures CHECKING != UNCERTAIN
  {
    assert CHECKING[0] == 'c' && UNCERTAIN[0] == 'u';
  }

  /** The only call ends with the claim kept as uncertain, or given up. */
  lemma EndingKeepsGuarded(s: State, k: Step, id: nat, d: Data, maybe: bool)
    requires Guarded(s, k) && id in s.calls
    requires (maybe && (d == s.data || d == MarkUncertain(s.data, k))) || (!maybe && d == Release(s.data, k))
    ensures Guarded(EndCall(s, id, d, maybe), k)
  {
    assert CallOk(s, k, id);
    assert (s.calls - {id}) == map[];
  }

  lemma RecordingKeepsGuarded(s: State, k: Step, id: nat, result: string)
    requires Guarded(s, k) && id in s.calls && Trim(result) != ""
    ensures Guarded(EndCall(s, id, RecordDone(s.data, k, result), s.maybe), k)
  {
    assert (s.calls - {id}) == map[];
  }

  lemma SendKeepsGuarded(s: State, k: Step, id: nat, wrote: bool, acts: bool)
    requires Guarded(s, k)
    ensures Guarded(Apply(s, k, EvSend(id, wrote, acts)), k)
  {
    var t := Apply(s, k, EvSend(id, wrote, acts));
    if t != s {
      assert CallOk(s, k, id);
      forall i | i in t.calls ensures CallOk(t, k, i) { assert i in s.calls; }
    }
  }

  lemma LookupKeepsGuarded(s: State, k: Step, id: nat, answer: Option<Option<string>>)
    requires Guarded(s, k) && Orderly(s, k, EvLookup(id, answer))
    ensures Guarded(Apply(s, k, EvLookup(id, answer)), k)
  {
    if id in s.calls && s.calls[id].phase.Asking? {
      assert CallOk(s, k, id);
      match answer
      case None => EndingKeepsGuarded(s, k, id, MarkUncertain(s.data, k), s.maybe);
      case Some(Some(result)) => RecordingKeepsGuarded(s, k, id, result);
      case Some(None) =>
        var t := Apply(s, k, EvLookup(id, answer));
        assert id in t.calls;
        forall i | i in t.calls ensures CallOk(t, k, i) { assert i in s.calls; }
    }
  }

  lemma ResolveKeepsGuarded(s: State, k: Step, outcome: string, reference: string)
    requires Guarded(s, k)
    ensures Guarded(Apply(s, k, EvResolve(outcome, reference)), k)
  {
    if Resolve(s.data, k, outcome, reference, s.now).Some? {
      if s.calls != map[] { RunningCallIsBusy(s, k); }
      assert s.calls == map[];
      DigitsAreTrimmed(Decimal(s.now));
      TrimChecking();
      if reference != "" && !(exists c :: c in reference && IsSpace(c)) { NoSpaceNoTrim(reference); }
    }
  }

  lemma NoSpaceNoTrim(s: string)
    requires s != [] && forall c :: c in s ==> !IsSpace(c)
    ensures Trim(s) == s
  {
    assert s[0] in s && s[|s| - 1] in s;
    assert TrimLeft(s) == s;
  }

  lemma StepKeepsGuarded(s: State, k: Step, e: Event)
    requires Guarded(s, k) && Orderly(s, k, e)
    ensures Guarded(Apply(s, k, e), k)
  {
    match e {
      case EvTick(ms) => TickKeepsGuarded(s, k, ms);
      case EvOther(key, value) => OtherKeysUntouched(s, k, key, value);
      case EvBegin(id, canLookup, precheck) => BeginKeepsGuarded(s, k, id, canLookup, precheck);
      case EvLeave(id) => if id in s.calls && !s.calls[id].phase.Sent? {
        assert CallOk(s, k, id);
        EndingKeepsGuarded(s, k, id, Release(s.data, k), s.maybe);
      }
      case EvLookup(id, answer) => LookupKeepsGuarded(s, k, id, answer);
      case EvSend(id, wrote, acts) => SendKeepsGuarded(s, k, id, wrote, acts);
      case EvSucceeded(id, result) => if id in s.calls && s.calls[id].phase.Sent? { RecordingKeepsGuarded(s, k, id, result); }
      case EvFailed(id, unclear) => if id in s.calls && s.calls[id].phase.Sent? {
        assert CallOk(s, k, id);
        if s.calls[id].phase.wrote && unclear { EndingKeepsGuarded(s, k, id, MarkUncertain(s.data, k), s.maybe); }
        else { EndingKeepsGuarded(s, k, id, Release(s.data, k), false); }
      }
      case EvCrash(id) => if id in s.calls { EndingKeepsGuarded(s, k, id, s.data, true); }
      case EvResolve(outcome, reference) => ResolveKeepsGuarded(s, k, outcome, reference);
    }
  }

  // ---- where the code gives the guard away -------------------------------------------------------

  /**
    A caller who leaves early gives the claim up even when the call had taken an unconfirmed one over
    (engines/courier.go:232-235, 283-286): the guard survives the step exactly when it had not.
   */
  lemma LeavingKeepsGuardedExactlyWhenNothingToAsk(s: State, k: Step, id: nat)
    requires Guarded(s, k) && id in s.calls && !s.calls[id].phase.Sent?
    ensures Guarded(Apply(s, k, EvLeave(id)), k) <==> !s.calls[id].phase.Asking?
  {
    assert CallOk(s, k, id);
    if !s.calls[id].phase.Asking? { StepKeepsGuarded(s, k, EvLeave(id)); }
  }

  /** A pickup confirmed under a blank reference is not seen as done: the guard survives exactly when it is not blank. */
  lemma SuccessKeepsGuardedExactlyWhenNamed(s: State, k: Step, id: nat, result: string)
    requires Guarded(s, k) && id in s.calls && s.calls[id].phase.Sent? && s.calls[id].phase.wrote
    ensures Guarded(Apply(s, k, EvSucceeded(id, result)), k) <==> Trim(result) != ""
  {
    assert CallOk(s, k, id);
    if Trim(result) != "" { RecordingKeepsGuarded(s, k, id, result); }
  }

  // ---- whole runs -----------------------------------------------------------------------------------

  ghost predicate OrderlyRun(s: State, k: Step, events: seq<Event>)
    decreases |events|
  {
    events == [] || (Orderly(s, k, events[0]) && OrderlyRun(Apply(s, k, events[0]), k, events[1..]))
  }

  /** No request is ever sent while an earlier one may have reached the courier. */
  lemma {:induction false} NoBlindRequest(s: State, k: Step, events: seq<Event>)
    requires Guarded(s, k) && OrderlyRun(s, k, events)
    ensures Guarded(Run(s, k, events), k) && Run(s, k, events).blind == 0
    decreases |events|
  {
    if events != [] {
      StepKeepsGuarded(s, k, events[0]);
      NoBlindRequest(Apply(s, k, events[0]), k, events[1..]);
    }
  }

  /** Lookups, operators and the courier's own clear answers say what happened. */
  ghost predicate Truthful(s: State, k: Step, e: Event)
  {
    match e
    case EvLookup(_, Some(found)) => found.Some? <==> s.acted > 0
    case EvSucceeded(id, _) => id in s.calls && s.calls[id].phase.Sent? ==> s.calls[id].phase.acts
    case EvFailed(id, unclear) =>
      id in s.calls && s.calls[id].phase.Sent? && !(s.calls[id].phase.wrote && unclear) ==> !s.calls[id].phase.acts
    case EvResolve(outcome, _) => outcome == k.done <==> s.acted > 0
    case _ => true
  }

  /** The courier acted at most once; a recorded result means it did; and if it did the server has not forgotten. */
  ghost predicate Once(s: State, k: Step)
  {
    && s.acted <= 1
    && (s.acted == 1 ==> s.maybe)
    && (Value(s.data, k.doneKey) != "" ==> s.acted == 1)
    && (forall id :: id in s.calls && s.calls[id].phase.Sent? ==> (s.calls[id].phase.acts <==> s.acted == 1))
    && (forall id :: id in s.calls && s.calls[id].phase.Sent? && s.calls[id].phase.acts ==> s.calls[id].phase.wrote)
  }

  lemma SettlingKeepsOnce(s: State, k: Step, e: Event)
    requires Guarded(s, k) && Once(s, k) && Orderly(s, k, e) && Truthful(s, k, e)
    requires e.EvSend? || e.EvSucceeded? || e.EvFailed? || e.EvCrash? || e.EvLookup?
    ensures Once(Apply(s, k, e), k)
  {
    var t := Apply(s, k, e);
    forall id | id in t.calls ensures id in s.calls { }
    if e.id in s.calls { assert CallOk(s, k, e.id); }
  }

  lemma StepKeepsOnce(s: State, k: Step, e: Event)
    requires Guarded(s, k) && Once(s, k) && Orderly(s, k, e) && Truthful(s, k, e)
    ensures Once(Apply(s, k, e), k)
  {
    match e {
      case EvBegin(_, _, _) =>
      case EvLeave(id) =>
      case EvTick(_) =>
      case EvOther(_, _) =>
      case EvResolve(outcome, reference) =>
        if s.calls != map[] { RunningCallIsBusy(s, k); }
      case _ => SettlingKeepsOnce(s, k, e);
    }
  }

  ghost predicate TruthfulRun(s: State, k: Step, events: seq<Event>)
    decreases |events|
  {
    events == [] ||
    (Orderly(s, k, events[0]) && Truthful(s, k, events[0]) && TruthfulRun(Apply(s, k, events[0]), k, events[1..]))
  }

  /** Over every run the courier acts at most once. */
  lemma {:induction false} CourierActsAtMostOnce(s: State, k: Step, events: seq<Event>)
    requires Guarded(s, k) && Once(s, k) && TruthfulRun(s, k, events)
    ensures var t := Run(s, k, events); Guarded(t, k) && Once(t, k) && t.acted <= 1
    decreases |events|
  {
    if events != [] {
      StepKeepsGuarded(s, k, events[0]);
      StepKeepsOnce(s, k, events[0]);
      CourierActsAtMostOnce(Apply(s, k, events[0]), k, events[1..]);
    }
  }

  /** A booking that has never been claimed for this step is a good start. */
  lemma FreshBookingIsGuarded(d: Data, k: Step, now: nat)
    requires IsStep(k) && {k.claimKey, k.doneKey} !! d.Keys
    ensures Guarded(Start(d, now), k) && Once(Start(d, now), k)
  {
  }

  lemma RecordedStepStays(s: State, k: Step, e: Event)
    requires Guarded(s, k) && Value(s.data, k.doneKey) != ""
    ensures Value(Apply(s, k, e).data, k.doneKey) == Value(s.data, k.doneKey)
  {
    assert forall id :: id in s.calls ==> CallOk(s, k, id);
    assert s.calls == map[];
  }

  /** A recorded result is never cleared or replaced. */
  lemma {:induction false} RecordedResultStays(s: State, k: Step, events: seq<Event>)
    requires Guarded(s, k) && Value(s.data, k.doneKey) != "" && OrderlyRun(s, k, events)
    ensures Value(Run(s, k, events).data, k.doneKey) == Value(s.data, k.doneKey)
    decreases |events|
  {
    if events != [] {
      StepKeepsGuarded(s, k, events[0]);
      RecordedStepStays(s, k, events[0]);
      RecordedResultStays(Apply(s, k, events[0]), k, events[1..]);
    }
  }

  lemma OnlyOwnKeysWritten(s: State, k: Step, e: Event, key: string)
    requires key !in {k.claimKey, k.stateKey, k.doneKey} && (e.EvOther? ==> e.key != key)
    ensures Value(Apply(s, k, e).data, key) == Value(s.data, key)
  {
  }

  /** The two steps own different keys: nothing one of them does is seen by the other. */
  lemma StepsAreIndependent(s: State, k: Step, other: Step, e: Event, key: string)
    requires IsStep(k) && IsStep(other) && k != other && key in {other.claimKey, other.stateKey, other.doneKey}
    requires e.EvOther? ==> e.key != key
    ensures Value(Apply(s, k, e).data, key) == Value(s.data, key)
  {
    KeysDiffer();
    OnlyOwnKeysWritten(s, k, e, key);
  }

  lemma KeysDiffer()
    ensures PICKUP != CANCEL
    ensures {PICKUP.claimKey, PICKUP.stateKey, PICKUP.doneKey} !! {CANCEL.claimKey, CANCEL.stateKey, CANCEL.doneKey}
  {
    assert PICKUP.claimKey[0] == PICKUP.stateKey[0] == PICKUP.doneKey[0] == 'p';
    assert CANCEL.claimKey[0] == CANCEL.stateKey[0] == CANCEL.doneKey[0] == 'c';
  }

  /** Without the two conditions the courier does act twice. */
  lemma BlankReferenceActsTwice()
    ensures Run(Start(map[], 0), PICKUP, BLANK_RUN).acted == 2
  {
    var s0 := Start(map[], 0);
    var s1 := Apply(s0, PICKUP, BLANK_RUN[0]);
    var s2 := Apply(s1, PICKUP, BLANK_RUN[1]);
    var s3 := Apply(s2, PICKUP, BLANK_RUN[2]);
    var s4 := Apply(s3, PICKUP, BLANK_RUN[3]);
    var s5 := Apply(s4, PICKUP, BLANK_RUN[4]);
    RunFive(s0, PICKUP, BLANK_RUN);
    assert s3.calls == map[] && s3.acted == 1;
    assert Value(s3.data, PICKUP.claimKey) == "" && Value(s3.data, PICKUP.doneKey) == "";
    assert s4.calls[1].phase == Cleared;
  }

  const BLANK_RUN := [EvBegin(0, false, true), EvSend(0, true, true), EvSucceeded(0, ""), EvBegin(1, false, true), EvSend(1, true, true)]

  lemma RunFive(s: State, k: Step, es: seq<Event>)
    requires |es| == 5
    ensures Run(s, k, es) == Apply(Apply(Apply(Apply(Apply(s, k, es[0]), k, es[1]), k, es[2]), k, es[3]), k, es[4])
  {
    var s1 := Apply(s, k, es[0]);
    var s2 := Apply(s1, k, es[1]);
    var s3 := Apply(s2, k, es[2]);
    assert Run(s, k, es) == Run(s1, k, es[1..]);
    assert Run(s1, k, es[1..]) == Run(s2, k, es[2..]) by { assert es[1..][1..] == es[2..]; }
    assert Run(s2, k, es[2..]) == Run(s3, k, es[3..]) by { assert es[2..][1..] == es[3..]; }
    var s4 := Apply(s3, k, es[3]);
    assert Run(s3, k, es[3..]) == Run(s4, k, es[4..]) by { assert es[3..][1..] == es[4..]; }
    assert Run(s4, k, es[4..]) == Apply(s4, k, es[4]) by { assert es[4..][1..] == []; }
  }

  // ---- a caller who leaves --------------------------------------------------------------------------

  const SENT_AND_LOST := [EvBegin(0, true, true), EvSend(0, true, true), EvCrash(0), EvTick(STALE + 1), EvBegin(1, true, true)]

  /** The request reached the courier, its process died, and the next caller takes the stale claim over. */
  ghost predicate TakenOver(s: State)
  {
    && s.calls == map[1 := Call(Asking, STALE + 1)] && s.now == STALE + 1 && s.acted == 1 && s.maybe && s.blind == 0
    && s.data.Keys == {PICKUP.claimKey, PICKUP.stateKey}
  }

  lemma LostRequestIsTakenOver()
    ensures var s := Run(Start(map[], 0), PICKUP, SENT_AND_LOST); Guarded(s, PICKUP) && TakenOver(s)
  {
    var s0 := Start(map[], 0);
    FreshBookingIsGuarded(map[], PICKUP, 0);
    RunFive(s0, PICKUP, SENT_AND_LOST);
    var s1 := Apply(s0, PICKUP, SENT_AND_LOST[0]);
    assert s1.data == map[PICKUP.claimKey := Decimal(0)] && s1.calls == map[0 := Call(Cleared, 0)];
    StepKeepsGuarded(s0, PICKUP, SENT_AND_LOST[0]);
    var s4 := Apply(Apply(Apply(s1, PICKUP, SENT_AND_LOST[1]), PICKUP, SENT_AND_LOST[2]), PICKUP, SENT_AND_LOST[3]);
    LostRequest(s1);
    StaleClaimIsTakenOver(s4);
  }

  lemma LostRequest(s: State)
    requires Guarded(s, PICKUP) && s == State(map[PICKUP.claimKey := Decimal(0)], map[0 := Call(Cleared, 0)], 0, 0, false, 0)
    ensures var t := Apply(Apply(Apply(s, PICKUP, SENT_AND_LOST[1]), PICKUP, SENT_AND_LOST[2]), PICKUP, SENT_AND_LOST[3]);
            Guarded(t, PICKUP) && t == State(map[PICKUP.claimKey := Decimal(0)], map[], STALE + 1, 1, true, 0)
  {
    var s2 := Apply(s, PICKUP, SENT_AND_LOST[1]);
    var s3 := Apply(s2, PICKUP, SENT_AND_LOST[2]);
    StepKeepsGuarded(s, PICKUP, SENT_AND_LOST[1]);
    StepKeepsGuarded(s2, PICKUP, SENT_AND_LOST[2]);
    assert s3.calls == map[];
    StepKeepsGuarded(s3, PICKUP, SENT_AND_LOST[3]);
  }

  lemma StaleClaimIsTakenOver(s: State)
    requires Guarded(s, PICKUP) && s == State(map[PICKUP.claimKey := Decimal(0)], map[], STALE + 1, 1, true, 0)
    ensures var t := Apply(s, PICKUP, SENT_AND_LOST[4]); Guarded(t, PICKUP) && TakenOver(t)
  {
    DigitsAreTrimmed(Decimal(0));
    DecimalRoundTrip(0);
    StepKeepsGuarded(s, PICKUP, SENT_AND_LOST[4]);
  }

  /** That caller is to ask first, and leaves; the one after it finds no claim and sends again. */
  lemma LeavingActsTwice()
    ensures var s := Run(Start(map[], 0), PICKUP, SENT_AND_LOST);
            var t := Apply(Apply(Apply(s, PICKUP, EvLeave(1)), PICKUP, EvBegin(2, true, true)), PICKUP, EvSend(2, true, true));
            Guarded(s, PICKUP) && t.acted == 2 && t.blind == 1
  {
    LostRequestIsTakenOver();
    var s := Run(Start(map[], 0), PICKUP, SENT_AND_LOST);
    var left := Apply(s, PICKUP, EvLeave(1));
    assert left.data == map[] && left.calls == map[];
    assert Apply(left, PICKUP, EvBegin(2, true, true)).calls[2].phase == Cleared;
  }
}
