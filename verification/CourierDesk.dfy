/** One courier call from claim to settlement, as the engine executes it on the booking's row. */
module CourierDesk {
  import opened Text
  import opened CourierGuard

  datatype SendAnswer = Confirmed(result: string) | Failed(wrote: bool, unclear: bool)

  /** Everything outside the row that decides how a call goes. */
  datatype Surroundings = Surroundings(canLookup: bool, precheck: bool, gone: bool, lookup: Option<Option<string>>, send: SendAnswer)

  datatype Reply = Recorded(result: string) | NotSent | Gone | Unreachable | Unconfirmed | Rejected

  function SendEvents(id: nat, send: SendAnswer): seq<Event>
  {
    match send
    case Confirmed(result) => [EvSend(id, true, true), EvSucceeded(id, result)]
    case Failed(wrote, unclear) => [EvSend(id, wrote, false), EvFailed(id, unclear)]
  }

  /** What the call makes of the machine: claim, leave or ask, send, settle. */
  function EventsOf(a: Answer, id: nat, w: Surroundings): seq<Event>
  {
    var begin := EvBegin(id, w.canLookup, w.precheck);
    var sent := SendEvents(id, w.send);
    if !a.Claimed? then [begin]
    else if w.gone then [begin, EvLeave(id)]
    else if !a.lookupFirst then [begin] + sent
    else if w.lookup == Some(None) then [begin, EvLookup(id, Some(None))] + sent
    else [begin, EvLookup(id, w.lookup)]
  }

  function Settle(d: Data, k: Step, send: SendAnswer): (Reply, Data)
  {
    match send
    case Confirmed(result) => (Recorded(result), RecordDone(d, k, result))
    case Failed(wrote, unclear) =>
      if wrote && unclear then (Unconfirmed, MarkUncertain(d, k)) else (Rejected, Release(d, k))
  }

  class Booking {
    var data: Data

    constructor (d: Data)
      ensures data == d
    {
      data := d;
    }

    method ClaimCourierStep(k: Step, canLookup: bool, precheck: bool, now: nat) returns (a: Answer)
      modifies this
      ensures (a, data) == Claim(old(data), k, canLookup, precheck, now)
    {
      var done := Value(data, k.doneKey);
      if done != "" { return AlreadyDone(done); }
      if !precheck { return Refused; }
      var lookupFirst := false;
      var claimedAt := Value(data, k.claimKey);
      if claimedAt != "" {
        if Value(data, k.stateKey) != UNCERTAIN && !IsStale(claimedAt, now) { return Refused; }
        if !canLookup { return Refused; }
        lookupFirst := true;
      }
      var patch := map[k.claimKey := Decimal(now)];
      if lookupFirst { patch := patch[k.stateKey := CHECKING]; }
      ghost var claimed := (data - {k.stateKey})[k.claimKey := Decimal(now)];
      assert (data - {k.stateKey}) + patch == if lookupFirst then claimed[k.stateKey := CHECKING] else claimed;
      data := (data - {k.stateKey}) + patch;
      a := Claimed(lookupFirst);
    }

    /** ScheduleCourierPickup and CancelCourierShipment: the same call over their own step. */
    method Attempt(k: Step, w: Surroundings, now: nat) returns (a: Answer, reply: Reply)
      modifies this
      ensures a == Claim(old(data), k, w.canLookup, w.precheck, now).0
      ensures var s := State(old(data), map[], now, 0, false, 0); data == Run(s, k, EventsOf(a, 0, w)).data
      ensures reply.Recorded? && a.Claimed? ==> Value(data, k.doneKey) == Trim(reply.result)
      ensures reply == if a.AlreadyDone? then Recorded(a.result) else if a.Refused? then NotSent else if w.gone then Gone
                       else if a.lookupFirst && w.lookup == None then Unreachable
                       else if a.lookupFirst && w.lookup.value.Some? then Recorded(w.lookup.value.value)
                       else if w.send.Confirmed? then Recorded(w.send.result)
                       else if w.send.wrote && w.send.unclear then Unconfirmed else Rejected
      ensures IsStep(k) && a.Claimed? && reply.Recorded? ==> k.doneKey in data && k.claimKey !in data && k.stateKey !in data
      ensures IsStep(k) && (reply == Unreachable || reply == Unconfirmed) ==>
                k.claimKey in data && data[k.claimKey] == Decimal(now)
                && (k.doneKey !in data ==> k.stateKey in data && data[k.stateKey] == "uncertain")
      ensures IsStep(k) && (reply == Gone || reply == Rejected) ==>
                k.claimKey !in data && k.stateKey !in data && (k.doneKey in data <==> k.doneKey in old(data))
    {
      ghost var s := State(data, map[], now, 0, false, 0);
      a := ClaimCourierStep(k, w.canLookup, w.precheck, now);
      AttemptIsARun(s, k, w, 0);
      if a.AlreadyDone? { reply := Recorded(a.result); return; }
      if a.Refused? { reply := NotSent; return; }
      if w.gone {
        data := Release(data, k);
        reply := Gone;
        return;
      }
      if a.lookupFirst {
        match w.lookup {
          case None =>
            data := MarkUncertain(data, k);
            reply := Unreachable;
            return;
          case Some(Some(result)) =>
            data := RecordDone(data, k, result);
            reply := Recorded(result);
            return;
          case Some(None) =>
        }
      }
      var (r, d) := Settle(data, k, w.send);
      data, reply := d, r;
    }

    method ResolveUnconfirmed(k: Step, outcome: string, reference: string, now: nat) returns (ok: bool)
      requires IsStep(k)
      modifies this
      ensures ok <==> Resolve(old(data), k, Lower(Trim(outcome)), Trim(reference), now).Some?
      ensures data == if ok then Resolve(old(data), k, Lower(Trim(outcome)), Trim(reference), now).value else old(data)
    {
      var o, ref := Lower(Trim(outcome)), Trim(reference);
      if o != k.done && o != k.notDone { return false; }
      if |ref| > 64 || (exists c :: c in ref && IsSpace(c)) { return false; }
      if Value(data, k.doneKey) != "" { return false; }
      var claimedAt := Value(data, k.claimKey);
      if claimedAt == "" { return false; }
      if Value(data, k.stateKey) != UNCERTAIN && !IsStale(claimedAt, now) { return false; }
      var patch: Data := map[];
      if o == k.done {
        if k.name == PICKUP.name {
          if ref == "" { ref := "portal"; }
          patch := patch[k.doneKey := ref];
        } else {
          patch := patch[k.doneKey := Decimal(now)];
        }
      }
      StepFacts();
      data := (data - {k.claimKey, k.stateKey}) + patch;
      ok := true;
    }
  }

  lemma StepFacts()
    ensures PICKUP.name != CANCEL.name && PICKUP != CANCEL && PICKUP.done != PICKUP.notDone && CANCEL.done != CANCEL.notDone
  {
    assert PICKUP.name[0] == 'p' && CANCEL.name[0] == 'c';
    assert PICKUP.done[0] == 's' && PICKUP.notDone[0] == 'n' && CANCEL.done[0] == 'c' && CANCEL.notDone[0] == 'n';
  }

  // ---- a call is a run of the machine -------------------------------------------------------------

  /** What each way a call can go leaves on the row. */
  lemma AttemptIsARun(s: State, k: Step, w: Surroundings, id: nat)
    requires s.calls == map[]
    ensures var (a, d) := Claim(s.data, k, w.canLookup, w.precheck, s.now);
            var t := Run(s, k, EventsOf(a, id, w));
            && t.data == (if !a.Claimed? then s.data
                          else if w.gone then Release(d, k)
                          else if a.lookupFirst && w.lookup.None? then MarkUncertain(d, k)
                          else if a.lookupFirst && w.lookup.value.Some? then RecordDone(d, k, w.lookup.value.value)
                          else Settle(d, k, w.send).1)
            && t.calls == map[]
  {
    var (a, d) := Claim(s.data, k, w.canLookup, w.precheck, s.now);
    var es := EventsOf(a, id, w);
    var s1 := Apply(s, k, es[0]);
    RunStep(s, k, es);
    if !a.Claimed? || w.gone || (a.lookupFirst && w.lookup != Some(None)) {
      if |es| > 1 { RunStep(s1, k, es[1..]); }
      assert a.Claimed? ==> s1.calls - {id} == map[];
    } else if !a.lookupFirst {
      assert es[1..] == SendEvents(id, w.send);
      SendingSettles(s1, k, id, w.send);
    } else {
      RunStep(s1, k, es[1..]);
      assert es[1..][1..] == SendEvents(id, w.send);
      SendingSettles(Apply(s1, k, es[1]), k, id, w.send);
    }
  }

  lemma SendingSettles(s: State, k: Step, id: nat, send: SendAnswer)
    requires id in s.calls && s.calls.Keys == {id} && s.calls[id].phase.Cleared?
    ensures Run(s, k, SendEvents(id, send)).data == Settle(s.data, k, send).1
    ensures Run(s, k, SendEvents(id, send)).calls == map[]
  {
    var es := SendEvents(id, send);
    var s1 := Apply(s, k, es[0]);
    RunStep(s, k, es);
    RunStep(s1, k, es[1..]);
    assert s1.calls - {id} == map[];
  }

  lemma RunStep(s: State, k: Step, es: seq<Event>)
    requires es != []
    ensures Run(s, k, es) == Run(Apply(s, k, es[0]), k, es[1..])
    ensures |es| == 1 ==> Run(s, k, es) == Apply(s, k, es[0])
  {
  }
}
