/**
  The guard around a courier request that must not be repeated (engines/courier_step_guard.go, engines/courier.go).
  A step is claimed on the booking's row, sent outside any transaction, and settled by one more write. Times are
  decimal numbers of milliseconds.
 */
module CourierGuard {
  import opened Text

  /** One of the guarded steps: its name, the three keys it owns, its two resolve outcomes. */
  datatype Step = Step(name: string, claimKey: string, stateKey: string, doneKey: string, done: string, notDone: string)

  const PICKUP := Step("pickup", "pickup_claimed_at", "pickup_state", "pickup_reference", "scheduled", "not_scheduled")
  const CANCEL := Step("cancel", "cancel_claimed_at", "cancel_state", "courier_cancelled_at", "cancelled", "not_cancelled")

  predicate IsStep(k: Step) { k == PICKUP || k == CANCEL }

  const UNCERTAIN := "uncertain"
  const CHECKING := "checking"
  const STALE := 120_000

  type Data = map<string, string>

  /** courierDataString. */
  function Value(d: Data, key: string): string { if key in d then Trim(d[key]) else "" }

  predicate IsStale(claimedAt: string, now: nat)
  {
    !AllDigits(claimedAt) || claimedAt == "" || now - DecimalValue(claimedAt) > STALE
  }

  /** A claim somebody is still working on: neither uncertain nor stale. */
  predicate Busy(d: Data, k: Step, now: nat)
  {
    Value(d, k.stateKey) != UNCERTAIN && !IsStale(Value(d, k.claimKey), now)
  }

  // ---- the writes -----------------------------------------------------------------------------

  datatype Answer = AlreadyDone(result: string) | Refused | Claimed(lookupFirst: bool)

  /** claimCourierStep: precheck is its verdict on the locked row. */
  function Claim(d: Data, k: Step, canLookup: bool, precheck: bool, now: nat): (Answer, Data)
  {
    var taken := Value(d, k.claimKey) != "";
    if Value(d, k.doneKey) != "" then (AlreadyDone(Value(d, k.doneKey)), d)
    else if !precheck || (taken && (Busy(d, k, now) || !canLookup)) then (Refused, d)
    else
      var claimed := (d - {k.stateKey})[k.claimKey := Decimal(now)];
      (Claimed(taken), if taken then claimed[k.stateKey := CHECKING] else claimed)
  }

  function MarkUncertain(d: Data, k: Step): Data { if k.doneKey in d then d else d[k.stateKey := UNCERTAIN] }

  function Release(d: Data, k: Step): Data { d - {k.claimKey, k.stateKey} }

  function RecordDone(d: Data, k: Step, result: string): Data { Release(d, k)[k.doneKey := result] }

  /** ResolveUnconfirmedCourierStep: None when it is refused. */
  function Resolve(d: Data, k: Step, outcome: string, reference: string, now: nat): Option<Data>
  {
    if outcome != k.done && outcome != k.notDone then None
    else if |reference| > 64 || (exists c :: c in reference && IsSpace(c)) then None
    else if Value(d, k.doneKey) != "" || Value(d, k.claimKey) == "" || Busy(d, k, now) then None
    else if outcome == k.notDone then Some(Release(d, k))
    else Some(RecordDone(d, k, if k == CANCEL then Decimal(now) else if reference == "" then "portal" else reference))
  }

  // ---- the machine ------------------------------------------------------------------------------

  /** Where a call stands: it may have to ask first, may send, or waits for its answer. */
  datatype Phase = Asking | Cleared | Sent(wrote: bool, acts: bool)

  datatype Call = Call(phase: Phase, started: nat)

  /**
    acted counts what the courier really did; maybe says that, for all the server can know, a request may have
    reached it unanswered; blind counts requests sent while that was so.
   */
  datatype State = State(data: Data, calls: map<nat, Call>, now: nat, acted: nat, maybe: bool, blind: nat)

  datatype Event =
    | EvTick(ms: nat)
    | EvOther(key: string, value: string)                       // the rest of the booking changes
    | EvBegin(id: nat, canLookup: bool, precheck: bool)
    | EvLeave(id: nat)                                          // the caller is gone before anything was sent
    | EvLookup(id: nat, answer: Option<Option<string>>)         // None: no answer; Some(None): not at the courier
    | EvSend(id: nat, wrote: bool, acts: bool)
    | EvSucceeded(id: nat, result: string)
    | EvFailed(id: nat, unclear: bool)
    | EvCrash(id: nat)                                          // the process stops, or its last write fails
    | EvResolve(outcome: string, reference: string)

  function EndCall(s: State, id: nat, data: Data, maybe: bool): State
  {
    s.(calls := s.calls - {id}, data := data, maybe := maybe)
  }

  function Apply(s: State, k: Step, e: Event): State
  {
    match e
    case EvTick(ms) => s.(now := s.now + ms)
    case EvOther(key, value) => if key in {k.claimKey, k.stateKey, k.doneKey} then s else s.(data := s.data[key := value])
    case EvBegin(id, canLookup, precheck) =>
      if id in s.calls then s
      else
        var (a, d) := Claim(s.data, k, canLookup, precheck, s.now);
        if a.Claimed? then s.(data := d, calls := s.calls[id := Call(if a.lookupFirst then Asking else Cleared, s.now)]) else s
    case EvLeave(id) =>
      if id in s.calls && !s.calls[id].phase.Sent? then EndCall(s, id, Release(s.data, k), s.maybe) else s
    case EvLookup(id, answer) =>
      if id !in s.calls || !s.calls[id].phase.Asking? then s
      else (match answer
        case None => EndCall(s, id, MarkUncertain(s.data, k), s.maybe)
        case Some(Some(result)) => EndCall(s, id, RecordDone(s.data, k, result), s.maybe)
        case Some(None) => s.(calls := s.calls[id := s.calls[id].(phase := Cleared)], maybe := false))
    case EvSend(id, wrote, acts) =>
      if id !in s.calls || !s.calls[id].phase.Cleared? || (acts && !wrote) then s
      else s.(calls := s.calls[id := s.calls[id].(phase := Sent(wrote, acts))], acted := s.acted + (if acts then 1 else 0),
              blind := s.blind + (if s.maybe then 1 else 0), maybe := s.maybe || wrote)
    case EvSucceeded(id, result) =>
      if id in s.calls && s.calls[id].phase.Sent? && s.calls[id].phase.wrote
      then EndCall(s, id, RecordDone(s.data, k, result), s.maybe) else s
    case EvFailed(id, unclear) =>
      if id !in s.calls || !s.calls[id].phase.Sent? then s
      else if s.calls[id].phase.wrote && unclear then EndCall(s, id, MarkUncertain(s.data, k), s.maybe)
      else EndCall(s, id, Release(s.data, k), false)
    case EvCrash(id) => if id in s.calls then EndCall(s, id, s.data, true) else s
    case EvResolve(outcome, reference) =>
      (match Resolve(s.data, k, outcome, reference, s.now)
       case None => s
       case Some(d) => s.(data := d, maybe := s.maybe && outcome == k.done))
  }

  function Run(s: State, k: Step, events: seq<Event>): State
    decreases |events|
  {
    if events == [] then s else Run(Apply(s, k, events[0]), k, events[1..])
  }

  function Start(data: Data, now: nat): State { State(data, map[], now, 0, false, 0) }
}
