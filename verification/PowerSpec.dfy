/**
 Power and mode control of the magnetometer (MGM): its device handler, the PCDU handler that
 owns the power switches, the switch hardware, the queues between them and the switch set that
 the PCDU handler publishes. Every step of either handler is an action of its own, so a run is
 any interleaving of them.
 */
module PowerSpec {
  import opened Wrappers

  datatype Switch = Mgm | Mgt
  datatype Binary = Off | On
  datatype SwitchState = StateOff | StateOn | Unknown | Faulty

  const MODE_OFF: nat := 0
  const MODE_ON: nat := 1
  const MODE_NORMAL: nat := 2

  datatype Mode = Mode(mode: nat, submode: nat)

  predicate Operational(m: Mode) {
    m.mode == MODE_ON || m.mode == MODE_NORMAL
  }

  datatype Sender = PusModeService | NoSender | OtherSender

  datatype Requestor = Requestor(id: nat, sender: Sender)

  datatype ModeRequest = SetMode(mode: Mode) | ReadMode | AnnounceMode | ModeInfo

  datatype ModeMessage = ModeMessage(from: Requestor, request: ModeRequest)

  datatype SwitchRequest = SwitchRequest(switch: Switch, state: Binary)

  const TurnOn: SwitchRequest := SwitchRequest(Mgm, On)

  datatype Transition = Idle | PowerSwitching | Done

  /** `dataValid` is the validity mark of the shared sensor data set. */
  datatype MgmState = MgmState(
    current: Mode, target: Option<Mode>, requestor: Option<Requestor>, transition: Transition, dataValid: bool)

  datatype SwitchSet = SwitchSet(valid: bool, switches: map<Switch, SwitchState>)

  /**
   A mode command taken up, the switch-on command for it (with whether the queue had room), the
   mode reached for a requestor, a mode read by a requestor, and a switch of the hardware set.
   */
  datatype Event =
    | TakenUp(id: nat, mode: Mode)
    | Commanded(requestor: Option<Requestor>, queued: bool)
    | Reached(who: Requestor, mode: Mode)
    | ModeRead(who: Requestor, mode: Mode)
    | HardwareSet(switch: Switch, state: Binary)

  datatype World = World(
    mgm: MgmState,
    modeQueue: seq<ModeMessage>,
    modeReplies: seq<(Requestor, Mode)>,
    switchQueue: seq<SwitchRequest>,
    pcduMode: Mode,
    shared: SwitchSet,
    hardware: map<Switch, Binary>,
    hardwareReplies: seq<map<Switch, Binary>>,
    trace: seq<Event>)

  function Log(w: World, e: Event): World {
    w.(trace := w.trace + [e])
  }

  // --------------------------------------------------------- the MGM handler

  /** Reply only to the PUS mode service; other requestors are told nothing. */
  function ReplyTo(w: World, r: Requestor): World {
    w.(modeReplies := w.modeReplies + [(r, w.mgm.current)])
  }

  function ModeReached(w: World, requestor: Option<Requestor>): World {
    var w := w.(mgm := w.mgm.(target := None));
    if requestor.None? then w
    else
      var w := Log(w, Reached(requestor.value, w.mgm.current));
      if requestor.value.sender == PusModeService then ReplyTo(w, requestor.value) else w
  }

  function StartTransition(w: World, from: Requestor, mode: Mode): World {
    var w := Log(w.(mgm := w.mgm.(current := mode)), TakenUp(from.id, mode));
    if mode.mode == MODE_OFF then ModeReached(w.(mgm := w.mgm.(dataValid := false)), Some(from))
    else if Operational(mode) then
      w.(mgm := w.mgm.(transition := Idle, requestor := Some(from), target := Some(mode)))
    else w
  }

  /** One pass of the request loop. */
  function DrainOne(w: World): World
    requires w.modeQueue != []
  {
    var msg, w := w.modeQueue[0], w.(modeQueue := w.modeQueue[1..]);
    match msg.request
    case SetMode(mode) => StartTransition(w, msg.from, mode)
    case ReadMode => ReplyTo(Log(w, ModeRead(msg.from, w.mgm.current)), msg.from)
    case AnnounceMode => w
    case ModeInfo => w
  }

  predicate InTransition(w: World) {
    w.mgm.target.Some? && Operational(w.mgm.target.value)
  }

  /** Ask for the switch; the bounded queue may be full, and the transition goes on all the same. */
  function SendSwitchOn(w: World, queueFull: bool): World
    requires InTransition(w) && w.mgm.transition == Idle
  {
    var w := if queueFull then w else w.(switchQueue := w.switchQueue + [TurnOn]);
    Log(w.(mgm := w.mgm.(transition := PowerSwitching)), Commanded(w.mgm.requestor, !queueFull))
  }

  /** The published set is valid and has the switch; otherwise the handler panics on reading it. */
  predicate SwitchInfoAvailable(w: World) {
    w.shared.valid && Mgm in w.shared.switches
  }

  function CheckSwitch(w: World): World
    requires InTransition(w) && w.mgm.transition == PowerSwitching && SwitchInfoAvailable(w)
  {
    if w.shared.switches[Mgm] == StateOn then w.(mgm := w.mgm.(transition := Done)) else w
  }

  function FinishTransition(w: World): World
    requires InTransition(w) && w.mgm.transition == Done
  {
    var w := ModeReached(w.(mgm := w.mgm.(current := w.mgm.target.value)), w.mgm.requestor);
    w.(mgm := w.mgm.(transition := Idle))
  }

  /** Read the sensor, which marks the shared data valid. */
  function PollSensor(w: World): World {
    w.(mgm := w.mgm.(dataValid := true))
  }

  /** All queued mode requests, in order. */
  function DrainAll(w: World): World
    decreases |w.modeQueue|
  {
    if w.modeQueue == [] then w else DrainAll(DrainOne(w))
  }

  /** One call of `handle_mode_transition`; `None` if it panics on reading the switch set. */
  function TransitionPass(w: World, queueFull: bool): Option<World> {
    if !InTransition(w) then Some(w)
    else
      var w := if w.mgm.transition == Idle then SendSwitchOn(w, queueFull) else w;
      if w.mgm.transition == PowerSwitching && !SwitchInfoAvailable(w) then None
      else
        var w := if w.mgm.transition == PowerSwitching then CheckSwitch(w) else w;
        Some(if w.mgm.transition == Done then FinishTransition(w) else w)
  }

  /** One call of the MGM handler's periodic operation. */
  function MgmOperation(w: World, queueFull: bool): Option<World> {
    var w := TransitionPass(DrainAll(w), queueFull);
    if w.Some? && w.value.mgm.current.mode == MODE_NORMAL then Some(PollSensor(w.value)) else w
  }

  // --------------------------------------------- the PCDU handler and hardware

  /** Hand one switch request to the hardware. */
  function HandleSwitchRequest(w: World): World
    requires w.switchQueue != []
  {
    var r := w.switchQueue[0];
    Log(w.(switchQueue := w.switchQueue[1..], hardware := w.hardware[r.switch := r.state]),
      HardwareSet(r.switch, r.state))
  }

  /** Ask the hardware for its switches, which it answers with a snapshot. */
  function RequestSwitchInfo(w: World): World {
    if Operational(w.pcduMode) then w.(hardwareReplies := w.hardwareReplies + [w.hardware]) else w
  }

  function ToState(b: Binary): SwitchState {
    if b == On then StateOn else StateOff
  }

  function Published(m: map<Switch, Binary>): SwitchSet {
    SwitchSet(true, map s | s in m :: ToState(m[s]))
  }

  /** Publish one snapshot. */
  function HandleSwitchReply(w: World): World
    requires w.hardwareReplies != []
  {
    w.(hardwareReplies := w.hardwareReplies[1..], shared := Published(w.hardwareReplies[0]))
  }

  /** A mode command for the PCDU itself takes effect at once; switching it off invalidates the set. */
  function PcduStartTransition(w: World, mode: Mode): World {
    w.(pcduMode := mode, shared := if mode.mode == MODE_OFF then w.shared.(valid := false) else w.shared)
  }

  /** The mode commands queued for the PCDU, in order. */
  function PcduDrain(w: World, queue: seq<ModeMessage>): World
    decreases |queue|
  {
    if queue == [] then w
    else PcduDrain(if queue[0].request.SetMode? then PcduStartTransition(w, queue[0].request.mode) else w, queue[1..])
  }

  /** The replies that the PCDU handler, in the given mode, makes to a queue of requests. */
  function PcduReplies(mode: Mode, queue: seq<ModeMessage>): seq<(Requestor, Mode)>
    decreases |queue|
  {
    if queue == [] then []
    else
      match queue[0].request
      case SetMode(m) => (if queue[0].from.sender == PusModeService then [(queue[0].from, m)] else []) +
        PcduReplies(m, queue[1..])
      case ReadMode => [(queue[0].from, mode)] + PcduReplies(mode, queue[1..])
      case _ => PcduReplies(mode, queue[1..])
  }

  /** All queued switch requests, in order. */
  function SwitchAll(w: World): World
    decreases |w.switchQueue|
  {
    if w.switchQueue == [] then w else SwitchAll(HandleSwitchRequest(w))
  }

  /** All snapshots received so far, in order; the last one is what stays published. */
  function PublishAll(w: World): World
    decreases |w.hardwareReplies|
  {
    if w.hardwareReplies == [] then w else PublishAll(HandleSwitchReply(w))
  }

  // ------------------------------------------------------ interleaved steps

  datatype Action =
    | ModeArrives(msg: ModeMessage)
    | SwitchArrives(request: SwitchRequest)
    | MgmDrain
    | MgmSend(queueFull: bool)
    | MgmCheck
    | MgmFinish
    | MgmPoll
    | PcduSwitch
    | PcduPoll
    | PcduPublish
    | PcduMode(mode: Mode)

  predicate Enabled(w: World, a: Action) {
    match a
    case MgmDrain => w.modeQueue != []
    case MgmSend(_) => InTransition(w) && w.mgm.transition == Idle
    case MgmCheck => InTransition(w) && w.mgm.transition == PowerSwitching
    case MgmFinish => InTransition(w) && w.mgm.transition == Done
    case MgmPoll => w.mgm.current.mode == MODE_NORMAL
    case PcduSwitch => w.switchQueue != []
    case PcduPublish => w.hardwareReplies != []
    case _ => true
  }

  /** The one step that can panic. */
  predicate Panics(w: World, a: Action) {
    a == MgmCheck && !SwitchInfoAvailable(w)
  }

  function Perform(w: World, a: Action): World
    requires Enabled(w, a) && !Panics(w, a)
  {
    match a
    case ModeArrives(msg) => w.(modeQueue := w.modeQueue + [msg])
    case SwitchArrives(request) => w.(switchQueue := w.switchQueue + [request])
    case MgmDrain => DrainOne(w)
    case MgmSend(queueFull) => SendSwitchOn(w, queueFull)
    case MgmCheck => CheckSwitch(w)
    case MgmFinish => FinishTransition(w)
    case MgmPoll => PollSensor(w)
    case PcduSwitch => HandleSwitchRequest(w)
    case PcduPoll => RequestSwitchInfo(w)
    case PcduPublish => HandleSwitchReply(w)
    case PcduMode(mode) => PcduStartTransition(w, mode)
  }
}
