/** The control line between one client and the worker: every load and store of the shared request and
    response fields is a step of its own, in any interleaving. */
module ControlLine {

  /** The four payload fields of a request, in the order they are stored. */
  datatype Payload = Payload(symbol: string, date: int, start: int, end: int)

  datatype Outcome = Done(frames: nat, cold: nat) | Error

  datatype Status = StatusIdle | StatusBusy | StatusReady | StatusError

  datatype Field = SymbolField | DateField | StartField | EndField

  /** Shared memory, client line and worker line. */
  datatype Shared = Shared(payload: Payload, command: bool, requestId: nat, status: Status, frames: nat, cold: nat,
                           responseId: nat)

  /** The client in `request_chunk`: storing the payload fields not yet in `stored`, having stored the command
      too, waiting for the response to `id`, or reading a response whose id it has seen. */
  datatype Client =
    | Resting
    | Storing(id: nat, p: Payload, stored: set<Field>)
    | Commanded(id: nat, p: Payload)
    | Waiting(id: nat, p: Payload)
    | SawId(id: nat, p: Payload)
    | SawReady(id: nat, p: Payload)
    | GotFrames(id: nat, p: Payload, n: nat)

  /** The worker loop: polling, having read the command, having claimed a request, reading its payload,
      or storing the response. */
  datatype Worker =
    | Polling
    | GotCommand
    | Claimed(id: nat)
    | Reading(id: nat, got: Payload, read: set<Field>)
    | Storing0(id: nat, out: Outcome)
    | Storing1(id: nat, out: Outcome)
    | Storing2(id: nat, out: Outcome)
    | Storing3(id: nat, out: Outcome)

  /** A serviced request: the payload the worker read for it and what came of it. */
  datatype Service = Service(id: nat, payload: Payload, out: Outcome)

  /** A call of `request_chunk` that returned counts. */
  datatype Return = Return(id: nat, payload: Payload, frames: nat, cold: nat)

  datatype State = State(mem: Shared, client: Client, lastReq: nat, worker: Worker, lastHandled: nat,
                         services: seq<Service>, returned: seq<Return>)

  datatype Step =
    | Request(p: Payload) | StoreField(f: Field) | StoreCommand | StoreRequestId
    | SeeId | SeeStatus | ReadFrames | ReadCold | GiveUp
    | LoadCommand | LoadId | SetBusy | LoadField(f: Field) | ServiceChunk(out: Outcome)
    | StoreFrames | StoreCold | StoreStatus | StoreResponseId

  const ALL := {SymbolField, DateField, StartField, EndField}

  function Max(a: nat, b: nat): nat {
    if a > b then a else b
  }

  function Copy(to: Payload, src: Payload, f: Field): Payload {
    match f
    case SymbolField => to.(symbol := src.symbol)
    case DateField => to.(date := src.date)
    case StartField => to.(start := src.start)
    case EndField => to.(end := src.end)
  }

  predicate FieldIs(a: Payload, b: Payload, f: Field) {
    Copy(a, b, f) == a
  }

  predicate Enabled(s: State, step: Step) {
    match step
    case Request(_) => s.client.Resting?
    case StoreField(f) => s.client.Storing?
    case StoreCommand => s.client.Storing? && s.client.stored == ALL
    case StoreRequestId => s.client.Commanded?
    case SeeId => s.client.Waiting? && s.mem.responseId == s.client.id
    case SeeStatus => s.client.SawId?
    case ReadFrames => s.client.SawReady?
    case ReadCold => s.client.GotFrames?
    case GiveUp => s.client.Waiting?
    case LoadCommand => s.worker.Polling?
    case LoadId => s.worker.GotCommand?
    case SetBusy => s.worker.Claimed?
    case LoadField(f) => s.worker.Reading?
    case ServiceChunk(_) => s.worker.Reading? && s.worker.read == ALL
    case StoreFrames => s.worker.Storing0?
    case StoreCold => s.worker.Storing1?
    case StoreStatus => s.worker.Storing2?
    case StoreResponseId => s.worker.Storing3?
  }

  function Do(s: State, step: Step): State
    requires Enabled(s, step)
  {
    match step
    case Request(p) =>
      var id := Max(s.lastReq, s.mem.responseId) + 1;
      s.(lastReq := id, client := Storing(id, p, {}))
    case StoreField(f) =>
      s.(mem := s.mem.(payload := Copy(s.mem.payload, s.client.p, f)),
         client := s.client.(stored := s.client.stored + {f}))
    case StoreCommand => s.(mem := s.mem.(command := true), client := Commanded(s.client.id, s.client.p))
    case StoreRequestId => s.(mem := s.mem.(requestId := s.client.id), client := Waiting(s.client.id, s.client.p))
    case SeeId => s.(client := SawId(s.client.id, s.client.p))
    case SeeStatus =>
      s.(client := if s.mem.status == StatusReady then SawReady(s.client.id, s.client.p)
                   else if s.mem.status == StatusError then Resting
                   else Waiting(s.client.id, s.client.p))
    case ReadFrames => s.(client := GotFrames(s.client.id, s.client.p, s.mem.frames))
    case ReadCold =>
      s.(client := Resting, returned := s.returned + [Return(s.client.id, s.client.p, s.client.n, s.mem.cold)])
    case GiveUp => s.(client := Resting)
    case LoadCommand => s.(worker := if s.mem.command then GotCommand else Polling)
    case LoadId => s.(worker := if s.mem.requestId > s.lastHandled then Claimed(s.mem.requestId) else Polling)
    case SetBusy =>
      s.(mem := s.mem.(status := StatusBusy), lastHandled := s.worker.id,
         worker := Reading(s.worker.id, s.mem.payload, {}))
    case LoadField(f) =>
      s.(worker := s.worker.(got := Copy(s.worker.got, s.mem.payload, f), read := s.worker.read + {f}))
    case ServiceChunk(out) =>
      s.(worker := if out.Done? then Storing0(s.worker.id, out) else Storing2(s.worker.id, out),
         services := s.services + [Service(s.worker.id, s.worker.got, out)])
    case StoreFrames =>
      s.(mem := s.mem.(frames := if s.worker.out.Done? then s.worker.out.frames else s.mem.frames),
         worker := Storing1(s.worker.id, s.worker.out))
    case StoreCold =>
      s.(mem := s.mem.(cold := if s.worker.out.Done? then s.worker.out.cold else s.mem.cold),
         worker := Storing2(s.worker.id, s.worker.out))
    case StoreStatus =>
      s.(mem := s.mem.(status := if s.worker.out.Done? then StatusReady else StatusError),
         worker := Storing3(s.worker.id, s.worker.out))
    case StoreResponseId => s.(mem := s.mem.(responseId := s.worker.id), worker := Polling)
  }

  /** A worker that has just started, with nothing requested. */
  predicate Init(s: State) {
    && s.mem.status == StatusIdle && s.mem.responseId == 0 && s.mem.requestId == 0 && !s.mem.command
    && s.client.Resting? && s.lastReq == 0 && s.worker.Polling? && s.lastHandled == 0
    && s.services == [] && s.returned == []
  }

  // ---------- The invariant ----------

  /** The client waits for the response to `id`. */
  predicate Expects(s: State, id: nat) {
    (s.client.Waiting? || s.client.SawId? || s.client.SawReady? || s.client.GotFrames?) && s.client.id == id
  }

  /** Request numbers only grow, and responses follow requests. */
  ghost predicate Numbers(s: State) {
    && s.mem.responseId <= s.lastHandled <= s.mem.requestId <= s.lastReq
    && (s.client.Storing? || s.client.Commanded? ==> s.client.id == s.lastReq && s.mem.requestId < s.client.id)
    && (s.client.Commanded? ==> s.mem.command)
    && (!s.client.Resting? && !s.client.Storing? && !s.client.Commanded? ==>
        s.client.id == s.lastReq == s.mem.requestId && s.mem.command)
    && (s.client.SawId? || s.client.SawReady? || s.client.GotFrames? ==> s.mem.responseId == s.client.id)
    && (s.worker.Claimed? ==> s.lastHandled < s.worker.id <= s.mem.requestId)
    && (Working(s.worker) ==> s.worker.id == s.lastHandled && s.mem.responseId < s.worker.id)
    && (Idle(s.worker) || s.worker.Claimed? ==> s.mem.responseId == s.lastHandled)
    && (!s.client.Resting? ==> s.client.id > 0)
  }

  predicate Working(w: Worker) {
    w.Reading? || w.Storing0? || w.Storing1? || w.Storing2? || w.Storing3?
  }

  predicate Idle(w: Worker) {
    w.Polling? || w.GotCommand?
  }

  /** While a request is waited for, its payload stands in the request line. */
  ghost predicate PayloadStands(s: State) {
    && (s.client.Storing? ==> forall f :: f in s.client.stored ==> FieldIs(s.mem.payload, s.client.p, f))
    && (!s.client.Resting? && !s.client.Storing? ==> s.mem.payload == s.client.p)
    && (s.worker.Reading? && Expects(s, s.worker.id) ==> forall f :: f in s.worker.read ==>
        FieldIs(s.worker.got, s.client.p, f))
  }

  function Last(s: State): Service
    requires s.services != []
  {
    s.services[|s.services| - 1]
  }

  /** The response fields hold the outcome of the newest service, as far as they have been stored. */
  ghost predicate ResponseOk(s: State) {
    match s.worker
    case Storing0(id, out) => Newest(s, id, out) && out.Done?
    case Storing1(id, out) => Newest(s, id, out) && out.Done? && s.mem.frames == out.frames
    case Storing2(id, out) => Newest(s, id, out) && Counts(s, out)
    case Storing3(id, out) => Newest(s, id, out) && Counts(s, out) && StatusIs(s, out)
    case Reading(_, _, _) => true
    case _ =>
      s.lastHandled > 0 ==>
        s.services != [] && Newest(s, s.lastHandled, Last(s).out) && Counts(s, Last(s).out) && StatusIs(s, Last(s).out)
  }

  ghost predicate Counts(s: State, out: Outcome) {
    out.Done? ==> s.mem.frames == out.frames && s.mem.cold == out.cold
  }

  ghost predicate StatusIs(s: State, out: Outcome) {
    s.mem.status == if out.Done? then StatusReady else StatusError
  }

  /** The newest service is of request `id`, with the payload that was sent if it is still waited for. */
  ghost predicate Newest(s: State, id: nat, out: Outcome) {
    s.services != [] && Last(s).id == id && Last(s).out == out && (Expects(s, id) ==> Last(s).payload == s.client.p)
  }

  /** No request is serviced twice, and none before an earlier one. */
  ghost predicate InOrder(s: State, i: nat, j: nat)
    requires i < j < |s.services|
  {
    s.services[i].id < s.services[j].id
  }

  ghost predicate ServicesOk(s: State) {
    && (forall i, j :: 0 <= i < j < |s.services| ==> InOrder(s, i, j))
    && (s.services != [] ==> Last(s).id <= s.lastHandled && (s.worker.Reading? ==> Last(s).id < s.lastHandled))
  }

  /** Counts that were returned are those of a service of the same request with the same payload. */
  ghost predicate ReturnOk(s: State, r: Return) {
    Service(r.id, r.payload, Done(r.frames, r.cold)) in s.services
  }

  ghost predicate ReturnsOk(s: State) {
    && (forall i :: 0 <= i < |s.returned| ==> ReturnOk(s, s.returned[i]))
    && (s.client.SawReady? || s.client.GotFrames? ==> s.mem.status == StatusReady)
    && (s.client.GotFrames? ==> s.client.n == s.mem.frames)
  }

  ghost predicate Inv(s: State) {
    Numbers(s) && PayloadStands(s) && ResponseOk(s) && ServicesOk(s) && ReturnsOk(s)
  }

  lemma AllFields(a: Payload, b: Payload, fs: set<Field>)
    requires fs == ALL && forall f :: f in fs ==> FieldIs(a, b, f)
    ensures a == b
  {
    assert FieldIs(a, b, SymbolField) && FieldIs(a, b, DateField) && FieldIs(a, b, StartField)
           && FieldIs(a, b, EndField);
  }

  lemma CopiedField(a: Payload, b: Payload, f: Field)
    ensures FieldIs(Copy(a, b, f), b, f)
    ensures forall g :: FieldIs(a, b, g) ==> FieldIs(Copy(a, b, f), b, g)
  {
  }

  predicate ClientStep(step: Step) {
    || step.Request? || step.StoreField? || step.StoreCommand? || step.StoreRequestId?
    || step.SeeId? || step.SeeStatus? || step.ReadFrames? || step.ReadCold? || step.GiveUp?
  }

  lemma ClientStepKeeps(s: State, step: Step)
    requires Inv(s) && Enabled(s, step) && ClientStep(step)
    ensures Inv(Do(s, step))
  {
    var t := Do(s, step);
    if step.StoreField? { CopiedField(s.mem.payload, s.client.p, step.f); }
    if step.ReadCold? {
      assert Idle(s.worker) && Expects(s, s.lastHandled);
      assert Last(s) == Service(s.client.id, s.client.p, Done(s.client.n, s.mem.cold));
    }
    if step.StoreCommand? { AllFields(s.mem.payload, s.client.p, s.client.stored); }
    assert t.services == s.services;
    forall i, j | 0 <= i < j < |t.services|
      ensures InOrder(t, i, j)
    {
      assert InOrder(s, i, j);
    }
    forall i | 0 <= i < |t.returned|
      ensures ReturnOk(t, t.returned[i])
    {
      if i < |s.returned| { assert ReturnOk(s, s.returned[i]); }
    }
  }

  lemma WorkerStepKeeps(s: State, step: Step)
    requires Inv(s) && Enabled(s, step) && !ClientStep(step)
    ensures Inv(Do(s, step))
  {
    var t := Do(s, step);
    if step.LoadField? { CopiedField(s.worker.got, s.mem.payload, step.f); }
    if step.ServiceChunk? && Expects(s, s.worker.id) { AllFields(s.worker.got, s.client.p, s.worker.read); }
    assert s.services <= t.services;
    forall i, j | 0 <= i < j < |t.services|
      ensures InOrder(t, i, j)
    {
      if j < |s.services| {
        assert InOrder(s, i, j);
      } else if i + 1 < |s.services| {
        assert InOrder(s, i, |s.services| - 1);
      }
    }
    forall i | 0 <= i < |t.returned|
      ensures ReturnOk(t, t.returned[i])
    {
      assert ReturnOk(s, s.returned[i]);
    }
  }

  // ---------- Whole runs ----------

  ghost predicate IsRun(s: State, steps: seq<Step>)
    decreases |steps|
  {
    steps != [] ==> Enabled(s, steps[0]) && IsRun(Do(s, steps[0]), steps[1..])
  }

  function Run(s: State, steps: seq<Step>): State
    requires IsRun(s, steps)
    decreases |steps|
  {
    if steps == [] then s else Run(Do(s, steps[0]), steps[1..])
  }

  lemma {:induction false} RunKeeps(s: State, steps: seq<Step>)
    requires Inv(s) && IsRun(s, steps)
    ensures Inv(Run(s, steps))
    decreases |steps|
  {
    hide Inv, Do, Enabled;
    if steps != [] {
      if ClientStep(steps[0]) { ClientStepKeeps(s, steps[0]); } else { WorkerStepKeeps(s, steps[0]); }
      RunKeeps(Do(s, steps[0]), steps[1..]);
    }
  }

  /** The control line with one client. In every interleaving, whatever timed out before: requests are serviced
      at most once and in increasing order, and counts returned for a request are those that the worker computed
      from that request's own payload. */
  lemma CountsAreOwn(s: State, steps: seq<Step>)
    requires Init(s) && IsRun(s, steps)
    ensures var t := Run(s, steps);
            && (forall i, j :: 0 <= i < j < |t.services| ==> InOrder(t, i, j))
            && (forall i :: 0 <= i < |t.returned| ==> ReturnOk(t, t.returned[i]))
  {
    RunKeeps(s, steps);
  }
}
