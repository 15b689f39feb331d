/**
 The targeted PUS request service with its action converter and action reply handler, as a
 transition system over the steps of the service thread and of the target threads. Section 6.1
 of ECSS-E-ST-70-41C prescribes the verification reports.
 */
module PusSpec {
  import opened Wrappers

  type RequestId = nat
  type ComponentId = nat
  newtype Byte = x: int | 0 <= x < 0x100

  /** A telecommand as the service receives it, with the user data still raw. */
  datatype Tc = Tc(id: RequestId, apid: nat, subservice: Byte, data: seq<Byte>)

  datatype ActionRequest = ActionRequest(actionId: nat, data: Option<seq<Byte>>)

  datatype Token = Accepted | Started

  datatype ActiveRequest = ActiveRequest(actionId: nat, target: ComponentId, token: Token, startTime: nat)

  /** Why a telecommand is not routed, as the failure reports name it. */
  datatype Reason = InvalidPusSubservice | NotEnoughAppDataCode | UnknownTargetIdCode | RoutingError

  const TIMEOUT_SECONDS: nat := 30

  const FAIL_DATA_LEN: nat := 128

  /** The big-endian bytes of a parameter that needs no heap; at most sixteen, which fits the buffer. */
  type HeaplessBytes = s: seq<Byte> | |s| <= 16

  /** Where the parameters of a failure are: in the message, or in a store that is out of reach. */
  datatype ErrorParams = Heapless(written: HeaplessBytes) | Vec(bytes: seq<Byte>) | Text(utf8: seq<Byte>) | InStore

  datatype ReplyVariant =
    | Completed
    | StepSuccess(step: nat)
    | CompletionFailed(code: nat, params: Option<ErrorParams>)
    | StepFailed(step: nat, code: nat, params: Option<ErrorParams>)
    | OtherVariant

  datatype Reply = Reply(id: RequestId, variant: ReplyVariant)

  /**
   What the service does, in order. Reports carry the request id; `Routed`, `Unrequested` and
   `Forgotten` mark a request sent to its target, a reply not matched to an active request, and
   entries that leave the map without a report.
   */
  datatype Event =
    | Routed(id: RequestId)
    | StartReport(id: RequestId)
    | StepReport(id: RequestId, step: nat)
    | CompletionReport(id: RequestId)
    | CompletionFailureReport(id: RequestId, code: nat, data: seq<Byte>)
    | StepFailureReport(id: RequestId, step: nat, code: nat, data: seq<Byte>)
    | StartFailureReport(id: RequestId, reason: Reason)
    | RejectionReport(id: RequestId, reason: Reason, data: seq<Byte>)
    | Unrequested(id: RequestId)
    | Forgotten(ids: set<RequestId>)

  /** Where the service thread is within its telecommand handling. */
  datatype Pc = Polling | Routing(id: RequestId, info: ActiveRequest) | Inserting(id: RequestId, info: ActiveRequest)

  datatype Service = Service(
    pc: Pc,
    active: map<RequestId, ActiveRequest>,
    targets: set<ComponentId>,
    tcs: seq<Tc>,
    requests: seq<(RequestId, ComponentId, ActionRequest)>,
    replies: seq<Reply>,
    trace: seq<Event>)

  function Log(s: Service, e: Event): Service {
    s.(trace := s.trace + [e])
  }

  // ----------------------------------------------------------- conversion

  datatype Conversion =
    | Converted(info: ActiveRequest, request: ActionRequest)
    | NotEnoughAppData(expected: nat, found: nat)
    | InvalidSubservice(subservice: Byte)

  function FromBigEndian(b: seq<Byte>): nat {
    if b == [] then 0 else FromBigEndian(b[..|b| - 1]) * 0x100 + b[|b| - 1] as nat
  }

  /** The low `n` bytes of a value, most significant first. */
  function ToBigEndian(v: nat, n: nat): (b: seq<Byte>)
    ensures |b| == n
  {
    if n == 0 then [] else ToBigEndian(v / 0x100, n - 1) + [(v % 0x100) as Byte]
  }

  /** Target id: APID in the upper word, the first four bytes of user data in the lower. */
  function TargetOf(tc: Tc): ComponentId
    requires |tc.data| >= 4
  {
    tc.apid * 0x1_0000_0000 + FromBigEndian(tc.data[..4])
  }

  function Convert(tc: Tc, now: nat): Conversion {
    if |tc.data| < 8 then NotEnoughAppData(8, |tc.data|)
    else if tc.subservice != 128 then InvalidSubservice(tc.subservice)
    else
      var actionId := FromBigEndian(tc.data[4..8]);
      Converted(ActiveRequest(actionId, TargetOf(tc), Accepted, now),
                ActionRequest(actionId, if |tc.data| == 8 then None else Some(tc.data[8..])))
  }

  lemma {:induction false} BigEndianRoundTrip(v: nat, n: nat)
    requires v < Power256(n)
    ensures FromBigEndian(ToBigEndian(v, n)) == v
  {
    if n > 0 {
      var init := ToBigEndian(v / 0x100, n - 1);
      DivideBelow(v, Power256(n - 1));
      BigEndianRoundTrip(v / 0x100, n - 1);
      LastByte(init, (v % 0x100) as Byte);
    }
  }

  lemma LastByte(init: seq<Byte>, last: Byte)
    ensures FromBigEndian(init + [last]) == FromBigEndian(init) * 0x100 + last as nat
  {
    assert (init + [last])[..|init|] == init;
  }

  lemma DivideBelow(v: nat, p: nat)
    requires v < 0x100 * p
    ensures v / 0x100 < p
  {
  }

  function Power256(n: nat): nat {
    if n == 0 then 1 else 0x100 * Power256(n - 1)
  }

  /** A telecommand built for a target, action and payload converts back to exactly those. */
  lemma ConversionRoundTrip(id: RequestId, apid: nat, unique: nat, actionId: nat, payload: seq<Byte>, now: nat)
    requires unique < 0x1_0000_0000 && actionId < 0x1_0000_0000
    ensures var tc := Tc(id, apid, 128, ToBigEndian(unique, 4) + ToBigEndian(actionId, 4) + payload);
      Convert(tc, now) ==
        Converted(ActiveRequest(actionId, apid * 0x1_0000_0000 + unique, Accepted, now),
                  ActionRequest(actionId, if payload == [] then None else Some(payload)))
  {
    var data := ToBigEndian(unique, 4) + ToBigEndian(actionId, 4) + payload;
    assert data[..4] == ToBigEndian(unique, 4);
    assert data[4..8] == ToBigEndian(actionId, 4);
    assert data[8..] == payload;
    assert Power256(4) == 0x100 * Power256(3) && Power256(3) == 0x100 * Power256(2)
      && Power256(2) == 0x100 * Power256(1);
    BigEndianRoundTrip(unique, 4);
    BigEndianRoundTrip(actionId, 4);
  }

  // ---------------------------------------------- steps of the service thread

  /** Both reports that a telecommand gets whose conversion fails. */
  function RejectConversion(s: Service, id: RequestId, reason: Reason, data: seq<Byte>): Service {
    Log(Log(s, StartFailureReport(id, reason)), RejectionReport(id, reason, data))
  }

  /**
   First half of telecommand handling: take a packet, convert it and route the request. The
   environment decides whether the packet can be read and whether the target is connected.
   */
  function TakeTc(s: Service, now: nat, readable: bool, connected: bool): Service
    requires s.pc == Polling
  {
    if s.tcs == [] then s
    else
      var tc, s := s.tcs[0], s.(tcs := s.tcs[1..]);
      if !readable then s
      else
        match Convert(tc, now)
        case NotEnoughAppData(expected, found) =>
          RejectConversion(s, tc.id, NotEnoughAppDataCode, ToBigEndian(found, 4) + ToBigEndian(expected, 4))
        case InvalidSubservice(subservice) => RejectConversion(s, tc.id, InvalidPusSubservice, [subservice])
        case Converted(info, request) =>
          if info.target !in s.targets
          then Log(s, RejectionReport(tc.id, UnknownTargetIdCode, ToBigEndian(info.target, 8)))
          else if !connected then Log(s, RejectionReport(tc.id, RoutingError, ToBigEndian(info.target, 8)))
          else Log(s.(requests := s.requests + [(tc.id, info.target, request)], pc := Routing(tc.id, info)),
            Routed(tc.id))
  }

  function ReportStart(s: Service): Service
    requires s.pc.Routing?
  {
    Log(s.(pc := Inserting(s.pc.id, s.pc.info.(token := Started))), StartReport(s.pc.id))
  }

  function InsertEntry(s: Service): Service
    requires s.pc.Inserting?
  {
    s.(active := s.active[s.pc.id := s.pc.info], pc := Polling)
  }

  /** The failure data that a report carries; parameters in a store are not propagated. */
  function FailureData(params: Option<ErrorParams>): seq<Byte> {
    match params
    case Some(Heapless(bytes)) => bytes
    case Some(Vec(bytes)) => bytes
    case Some(Text(bytes)) => bytes
    case _ => []
  }

  /** The report for a reply, if its variant has one, and whether the request is finished. */
  function ReportFor(r: Reply): (Option<Event>, bool) {
    match r.variant
    case Completed => (Some(CompletionReport(r.id)), true)
    case StepSuccess(step) => (Some(StepReport(r.id, step)), false)
    case CompletionFailed(code, params) => (Some(CompletionFailureReport(r.id, code, FailureData(params))), true)
    case StepFailed(step, code, params) => (Some(StepFailureReport(r.id, step, code, FailureData(params))), true)
    case OtherVariant => (None, false)
  }

  function HandleReply(s: Service, r: Reply, sendFails: bool): Service {
    if r.id !in s.active then Log(s, Unrequested(r.id))
    else
      var (report, finished) := ReportFor(r);
      if report.None? then s
      else if sendFails then Log(s.(active := s.active - {r.id}), Forgotten({r.id}))
      else Log(if finished then s.(active := s.active - {r.id}) else s, report.value)
  }

  function PollReply(s: Service, sendFails: bool): Service
    requires s.pc == Polling
  {
    if s.replies == [] then s else HandleReply(s.(replies := s.replies[1..]), s.replies[0], sendFails)
  }

  function Expired(s: Service, now: nat): set<RequestId> {
    set id | id in s.active && now > s.active[id].startTime + TIMEOUT_SECONDS
  }

  /** Timed-out entries are dropped; nothing is reported for them. */
  function CheckTimeouts(s: Service, now: nat): Service
    requires s.pc == Polling
  {
    Log(s.(active := s.active - Expired(s, now)), Forgotten(Expired(s, now)))
  }

  // ------------------------------------------------------ interleaved steps

  datatype Action =
    | TcArrives(tc: Tc)
    | TargetReplies(reply: Reply)
    | DoTakeTc(now: nat, readable: bool, connected: bool)
    | DoReportStart
    | DoInsertEntry
    | DoPollReply(sendFails: bool)
    | DoCheckTimeouts(now: nat)

  /** Targets and packet sources act at any time; the service thread only where it is. */
  predicate Enabled(s: Service, a: Action) {
    match a
    case TcArrives(_) => true
    case TargetReplies(_) => true
    case DoReportStart => s.pc.Routing?
    case DoInsertEntry => s.pc.Inserting?
    case _ => s.pc == Polling
  }

  function Perform(s: Service, a: Action): Service
    requires Enabled(s, a)
  {
    match a
    case TcArrives(tc) => s.(tcs := s.tcs + [tc])
    case TargetReplies(reply) => s.(replies := s.replies + [reply])
    case DoTakeTc(now, readable, connected) => TakeTc(s, now, readable, connected)
    case DoReportStart => ReportStart(s)
    case DoInsertEntry => InsertEntry(s)
    case DoPollReply(sendFails) => PollReply(s, sendFails)
    case DoCheckTimeouts(now) => CheckTimeouts(s, now)
  }

  /** Request ids in flight are distinct: a packet is not taken while its id is active. */
  predicate Fresh(s: Service, a: Action) {
    a.DoTakeTc? && s.tcs != [] ==> s.tcs[0].id !in s.active
  }

  ghost predicate IsRun(states: seq<Service>, actions: seq<Action>) {
    && |states| == |actions| + 1
    && forall i | 0 <= i < |actions| ::
      Enabled(states[i], actions[i]) && states[i + 1] == Perform(states[i], actions[i])
  }

  predicate Initial(s: Service) {
    s.pc == Polling && s.active == map[] && s.trace == [] && s.replies == [] && s.requests == []
  }
}
