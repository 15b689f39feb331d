/**
 What every interleaving of the two handlers and the hardware keeps.
 */
module PowerRuns {
  import opened Wrappers
  import opened PowerSpec

  // ------------------------------------------------- hardware seen to be on

  /** Whether the MGM switch has been on, and whether no operational mode was reached before that. */
  datatype Sight = Sight(everOn: bool, honest: bool)

  function See(o: Sight, e: Event): Sight {
    match e
    case HardwareSet(Mgm, On) => o.(everOn := true)
    case Reached(_, mode) => o.(honest := o.honest && (Operational(mode) ==> o.everOn))
    case _ => o
  }

  function Seen(start: bool, trace: seq<Event>): Sight {
    if trace == [] then Sight(start, true) else See(Seen(start, trace[..|trace| - 1]), trace[|trace| - 1])
  }

  lemma SeenLog(start: bool, w: World, e: Event)
    ensures Seen(start, Log(w, e).trace) == See(Seen(start, w.trace), e)
  {
    assert (w.trace + [e])[..|w.trace|] == w.trace;
  }

  predicate ShowsOn(m: map<Switch, Binary>) {
    Mgm in m && m[Mgm] == On
  }

  predicate SetShowsOn(s: SwitchSet) {
    Mgm in s.switches && s.switches[Mgm] == StateOn
  }

  /** Nothing anywhere claims the switch to be on unless the hardware once was. */
  ghost predicate PowerInv(start: bool, w: World) {
    var o := Seen(start, w.trace);
    && o.honest
    && (ShowsOn(w.hardware) ==> o.everOn)
    && (forall i | 0 <= i < |w.hardwareReplies| :: ShowsOn(w.hardwareReplies[i]) ==> o.everOn)
    && (SetShowsOn(w.shared) ==> o.everOn)
    && (w.mgm.transition == Done ==> o.everOn)
  }

  lemma ReachedKeeps(start: bool, w: World, r: Option<Requestor>)
    requires PowerInv(start, w) && (Operational(w.mgm.current) ==> Seen(start, w.trace).everOn)
    ensures PowerInv(start, ModeReached(w, r))
  {
    hide Seen;
    if r.Some? {
      SeenLog(start, w.(mgm := w.mgm.(target := None)), Reached(r.value, w.mgm.current));
    }
  }

  lemma StepKeepsPower(start: bool, w: World, a: Action)
    requires PowerInv(start, w) && Enabled(w, a) && !Panics(w, a)
    ensures PowerInv(start, Perform(w, a))
  {
    hide Seen;
    match a
    case MgmDrain =>
      var msg, w1 := w.modeQueue[0], w.(modeQueue := w.modeQueue[1..]);
      if msg.request.SetMode? {
        var mode := msg.request.mode;
        var w2 := w1.(mgm := w1.mgm.(current := mode));
        SeenLog(start, w2, TakenUp(msg.from.id, mode));
        if mode.mode == MODE_OFF {
          var w3 := Log(w2, TakenUp(msg.from.id, mode));
          ReachedKeeps(start, w3.(mgm := w3.mgm.(dataValid := false)), Some(msg.from));
        }
      } else if msg.request.ReadMode? {
        SeenLog(start, w1, ModeRead(msg.from, w.mgm.current));
      }
    case MgmSend(queueFull) =>
      SeenLog(start, Perform(w, a).(trace := w.trace), Commanded(w.mgm.requestor, !queueFull));
    case MgmFinish =>
      ReachedKeeps(start, w.(mgm := w.mgm.(current := w.mgm.target.value)), w.mgm.requestor);
    case PcduSwitch =>
      var r := w.switchQueue[0];
      SeenLog(start, w.(switchQueue := w.switchQueue[1..], hardware := w.hardware[r.switch := r.state]),
        HardwareSet(r.switch, r.state));
    case _ =>
  }

  // ------------------------------------------ once per mode command

  /** The life of one mode command; `Broken` if anything happens twice or out of order. */
  datatype Phase = Fresh | Waiting | SwitchAsked | Finished | Broken

  function Next(p: Phase, e: Event, id: nat): Phase {
    match e
    case TakenUp(i, _) => if i != id then p else if p == Fresh then Waiting else Broken
    case Commanded(r, _) => if r.None? || r.value.id != id then p else if p == Waiting then SwitchAsked else Broken
    case Reached(r, mode) =>
      if r.id != id then p
      else if p == (if Operational(mode) then SwitchAsked else Waiting) then Finished else Broken
    case ModeRead(_, _) => p
    case HardwareSet(_, _) => p
  }

  function PhaseOf(trace: seq<Event>, id: nat): Phase {
    if trace == [] then Fresh else Next(PhaseOf(trace[..|trace| - 1], id), trace[|trace| - 1], id)
  }

  lemma PhaseLog(w: World, e: Event, id: nat)
    ensures PhaseOf(Log(w, e).trace, id) == Next(PhaseOf(w.trace, id), e, id)
  {
    assert (w.trace + [e])[..|w.trace|] == w.trace;
  }

  /** Mode commands still in the queue are new and have ids of their own. */
  ghost predicate QueueFresh(w: World) {
    && (forall i | 0 <= i < |w.modeQueue| && w.modeQueue[i].request.SetMode? ::
      PhaseOf(w.trace, w.modeQueue[i].from.id) == Fresh)
    && (forall i, j | 0 <= i < j < |w.modeQueue| && w.modeQueue[i].request.SetMode?
      && w.modeQueue[j].request.SetMode? ::
          w.modeQueue[i].from.id != w.modeQueue[j].from.id)
  }

  /** What the handler remembers of a running transition matches its trace. */
  ghost predicate TransitionInv(w: World) {
    w.mgm.target.Some? ==>
      && Operational(w.mgm.target.value)
      && w.mgm.requestor.Some?
      && PhaseOf(w.trace, w.mgm.requestor.value.id) == if w.mgm.transition == Idle then Waiting else SwitchAsked
  }

  ghost predicate OnceInv(w: World) {
    && (forall id :: PhaseOf(w.trace, id) != Broken)
    && QueueFresh(w)
    && TransitionInv(w)
  }

  /** A command that arrives has an id that no earlier command had. */
  ghost predicate DistinctIds(w: World, a: Action) {
    a.ModeArrives? && a.msg.request.SetMode? ==>
      && PhaseOf(w.trace, a.msg.from.id) == Fresh
      && forall i | 0 <= i < |w.modeQueue| && w.modeQueue[i].request.SetMode? :: w.modeQueue[i].from.id != a.msg.from.id
  }

  lemma TakenUpKeeps(w: World, from: Requestor, mode: Mode)
    requires OnceInv(w) && PhaseOf(w.trace, from.id) == Fresh
    requires forall i | 0 <= i < |w.modeQueue| && w.modeQueue[i].request.SetMode? :: w.modeQueue[i].from.id != from.id
    ensures OnceInv(StartTransition(w, from, mode))
  {
    hide PhaseOf;
    var w1 := w.(mgm := w.mgm.(current := mode));
    var w2 := Log(w1, TakenUp(from.id, mode));
    var w3 := w2.(mgm := w2.mgm.(target := None));
    forall id
      ensures PhaseOf(w2.trace, id) == if id == from.id then Waiting else PhaseOf(w.trace, id)
      ensures PhaseOf(Log(w3, Reached(from, mode)).trace, id) == Next(PhaseOf(w2.trace, id), Reached(from, mode), id)
    {
      PhaseLog(w1, TakenUp(from.id, mode), id);
      PhaseLog(w3, Reached(from, mode), id);
    }
  }

  lemma SendKeeps(w: World, queueFull: bool)
    requires OnceInv(w) && InTransition(w) && w.mgm.transition == Idle
    ensures OnceInv(SendSwitchOn(w, queueFull))
  {
    hide PhaseOf;
    var e := Commanded(w.mgm.requestor, !queueFull);
    var w1 := SendSwitchOn(w, queueFull).(trace := w.trace);
    forall id ensures PhaseOf(Log(w1, e).trace, id) == Next(PhaseOf(w.trace, id), e, id) {
      PhaseLog(w1, e, id);
    }
  }

  lemma FinishKeeps(w: World)
    requires OnceInv(w) && InTransition(w) && w.mgm.transition == Done
    ensures OnceInv(FinishTransition(w))
  {
    hide PhaseOf;
    var r, mode := w.mgm.requestor.value, w.mgm.target.value;
    var w1 := w.(mgm := w.mgm.(current := mode, target := None));
    forall id ensures PhaseOf(Log(w1, Reached(r, mode)).trace, id) == Next(PhaseOf(w.trace, id), Reached(r, mode), id) {
      PhaseLog(w1, Reached(r, mode), id);
    }
  }

  lemma StepKeepsOnce(w: World, a: Action)
    requires OnceInv(w) && Enabled(w, a) && !Panics(w, a) && DistinctIds(w, a)
    ensures OnceInv(Perform(w, a))
  {
    hide PhaseOf;
    match a
    case MgmDrain =>
      var msg, w1 := w.modeQueue[0], w.(modeQueue := w.modeQueue[1..]);
      assert OnceInv(w1);
      if msg.request.SetMode? {
        TakenUpKeeps(w1, msg.from, msg.request.mode);
      } else if msg.request.ReadMode? {
        var e := ModeRead(msg.from, w.mgm.current);
        forall id ensures PhaseOf(Log(w1, e).trace, id) == PhaseOf(w.trace, id) {
          PhaseLog(w1, e, id);
        }
      }
    case MgmSend(queueFull) => SendKeeps(w, queueFull);
    case MgmFinish => FinishKeeps(w);
    case PcduSwitch =>
      var r := w.switchQueue[0];
      var w1 := w.(switchQueue := w.switchQueue[1..], hardware := w.hardware[r.switch := r.state]);
      forall id ensures PhaseOf(Log(w1, HardwareSet(r.switch, r.state)).trace, id) == PhaseOf(w.trace, id) {
        PhaseLog(w1, HardwareSet(r.switch, r.state), id);
      }
    case _ =>
  }

  // ------------------------------------------------------------ every run

  ghost predicate IsRun(states: seq<World>, actions: seq<Action>) {
    && |states| == |actions| + 1
    && forall i | 0 <= i < |actions| ::
         Enabled(states[i], actions[i]) && !Panics(states[i], actions[i])
           && states[i + 1] == Perform(states[i], actions[i])
  }

  /** Both handlers as constructed, with no switch information published yet. */
  ghost predicate Initial(w: World) {
    && w.mgm == MgmState(Mode(MODE_OFF, 0), None, None, Idle, false)
    && w.modeQueue == [] && w.modeReplies == [] && w.switchQueue == [] && w.hardwareReplies == [] && w.trace == []
    && Mgm in w.hardware && w.shared == SwitchSet(false, map[])
  }

  lemma {:induction false} RunKeeps(states: seq<World>, actions: seq<Action>, k: nat)
    requires IsRun(states, actions) && Initial(states[0]) && k < |states|
    ensures PowerInv(ShowsOn(states[0].hardware), states[k])
    ensures (forall i | 0 <= i < k :: DistinctIds(states[i], actions[i])) ==> OnceInv(states[k])
  {
    hide Perform, PowerInv, OnceInv;
    if k == 0 {
      InitialKeeps(states[0]);
    } else {
      RunKeeps(states, actions, k - 1);
      StepKeepsPower(ShowsOn(states[0].hardware), states[k - 1], actions[k - 1]);
      if forall i | 0 <= i < k :: DistinctIds(states[i], actions[i]) {
        StepKeepsOnce(states[k - 1], actions[k - 1]);
      }
    }
  }

  lemma InitialKeeps(w: World)
    requires Initial(w)
    ensures PowerInv(ShowsOn(w.hardware), w) && OnceInv(w)
  {
  }

  /**
   In every interleaving, whenever On or Normal is reported as reached, the hardware's MGM
   switch has been on at some earlier point of the run (or when it began).
   */
  lemma ReachedOnlyWithPower(states: seq<World>, actions: seq<Action>, k: nat, n: nat)
    requires IsRun(states, actions) && Initial(states[0]) && k < |states|
    requires n < |states[k].trace| && states[k].trace[n].Reached? && Operational(states[k].trace[n].mode)
    ensures ShowsOn(states[0].hardware) || exists m :: 0 <= m < n && states[k].trace[m] == HardwareSet(Mgm, On)
  {
    RunKeeps(states, actions, k);
    var start, trace := ShowsOn(states[0].hardware), states[k].trace;
    HonestAt(start, trace, n);
    if Seen(start, trace[..n]).everOn && !start {
      var m := OnSince(start, trace[..n]);
      assert trace[m] == HardwareSet(Mgm, On);
    }
  }

  lemma {:induction false} HonestAt(start: bool, trace: seq<Event>, n: nat)
    requires Seen(start, trace).honest && n < |trace| && trace[n].Reached? && Operational(trace[n].mode)
    ensures Seen(start, trace[..n]).everOn
    decreases |trace|
  {
    var init := trace[..|trace| - 1];
    if n < |init| {
      HonestAt(start, init, n);
      assert init[..n] == trace[..n];
    }
  }

  lemma {:induction false} OnSince(start: bool, trace: seq<Event>) returns (m: nat)
    requires Seen(start, trace).everOn && !start
    ensures m < |trace| && trace[m] == HardwareSet(Mgm, On)
  {
    if trace[|trace| - 1] == HardwareSet(Mgm, On) {
      m := |trace| - 1;
    } else {
      m := OnSince(start, trace[..|trace| - 1]);
    }
  }

  function CountCommands(trace: seq<Event>, id: nat): nat {
    if trace == [] then 0
    else
      var e := trace[|trace| - 1];
      var mine := e.Commanded? && e.requestor.Some? && e.requestor.value.id == id;
      CountCommands(trace[..|trace| - 1], id) + if mine then 1 else 0
  }

  function CountReached(trace: seq<Event>, id: nat): nat {
    if trace == [] then 0
    else
      var e := trace[|trace| - 1];
      CountReached(trace[..|trace| - 1], id) + if e.Reached? && e.who.id == id then 1 else 0
  }

  lemma {:induction false} CountsByPhase(trace: seq<Event>, id: nat)
    requires PhaseOf(trace, id) != Broken
    ensures PhaseOf(trace, id) in {Fresh, Waiting} ==> CountCommands(trace, id) == 0 && CountReached(trace, id) == 0
    ensures PhaseOf(trace, id) == SwitchAsked ==> CountCommands(trace, id) == 1 && CountReached(trace, id) == 0
    ensures PhaseOf(trace, id) == Finished ==> CountCommands(trace, id) <= 1 && CountReached(trace, id) == 1
  {
    if trace != [] {
      CountsByPhase(trace[..|trace| - 1], id);
    }
  }

  /** Every mode command leads to at most one switch-on command and at most one completion. */
  lemma AtMostOncePerCommand(states: seq<World>, actions: seq<Action>, k: nat, id: nat)
    requires IsRun(states, actions) && Initial(states[0]) && k < |states|
    requires forall i | 0 <= i < k :: DistinctIds(states[i], actions[i])
    ensures CountCommands(states[k].trace, id) <= 1 && CountReached(states[k].trace, id) <= 1
  {
    RunKeeps(states, actions, k);
    assert PhaseOf(states[k].trace, id) != Broken;
    CountsByPhase(states[k].trace, id);
  }

  /** Whether no snapshot was published since the start or since the PCDU was last switched off. */
  function NothingPublished(actions: seq<Action>): bool {
    if actions == [] then true
    else
      match actions[|actions| - 1]
      case PcduMode(mode) => mode.mode == MODE_OFF || NothingPublished(actions[..|actions| - 1])
      case PcduPublish => false
      case _ => NothingPublished(actions[..|actions| - 1])
  }

  /** The hardware and its snapshots always have the switch; only validity comes and goes. */
  ghost predicate HasSwitch(w: World) {
    && (w.shared.valid ==> Mgm in w.shared.switches) && Mgm in w.hardware
    && forall i | 0 <= i < |w.hardwareReplies| :: Mgm in w.hardwareReplies[i]
  }

  lemma StepValidity(w: World, a: Action)
    requires HasSwitch(w) && Enabled(w, a) && !Panics(w, a)
    ensures var w' := Perform(w, a);
      && HasSwitch(w')
      && (w'.shared.valid <==> a == PcduPublish || (w.shared.valid && !(a.PcduMode? && a.mode.mode == MODE_OFF)))
  {
  }

  lemma {:induction false} ValidityByHistory(states: seq<World>, actions: seq<Action>, k: nat)
    requires IsRun(states, actions) && Initial(states[0]) && k < |states|
    ensures HasSwitch(states[k]) && (states[k].shared.valid <==> !NothingPublished(actions[..k]))
  {
    hide Perform;
    if k > 0 {
      ValidityByHistory(states, actions, k - 1);
      assert actions[..k][..k - 1] == actions[..k - 1];
      StepValidity(states[k - 1], actions[k - 1]);
    }
  }

  /**
   In every interleaving, the MGM handler's check of its switch panics exactly when no snapshot
   was published since the start, or since the PCDU was last switched off.
   */
  lemma CheckPanicsIff(states: seq<World>, actions: seq<Action>, k: nat)
    requires IsRun(states, actions) && Initial(states[0]) && k < |states| && Enabled(states[k], MgmCheck)
    ensures Panics(states[k], MgmCheck) <==> NothingPublished(actions[..k])
  {
    ValidityByHistory(states, actions, k);
  }

  /** Nobody has asked for the MGM switch, and the hardware has not set it. */
  ghost predicate NeverAsked(w: World) {
    SwitchRequest(Mgm, On) !in w.switchQueue && HardwareSet(Mgm, On) !in w.trace
  }

  lemma StepNeverAsks(w: World, a: Action)
    requires NeverAsked(w) && Enabled(w, a) && !Panics(w, a)
    requires a != MgmSend(false) && a != SwitchArrives(SwitchRequest(Mgm, On))
    ensures NeverAsked(Perform(w, a))
  {
  }

  lemma {:induction false} RunNeverAsks(states: seq<World>, actions: seq<Action>, k: nat)
    requires IsRun(states, actions) && Initial(states[0]) && k < |states|
    requires forall i | 0 <= i < k ::
      actions[i] != MgmSend(false) && actions[i] != SwitchArrives(SwitchRequest(Mgm, On))
    ensures NeverAsked(states[k])
  {
    hide Perform;
    if k > 0 {
      RunNeverAsks(states, actions, k - 1);
      StepNeverAsks(states[k - 1], actions[k - 1]);
    }
  }

  /**
   The transition goes on when its switch request finds the queue full, but a request lost like
   that is never repeated: in a run where all of them are lost and nobody else asks for the
   switch, On and Normal are never reached.
   */
  lemma LostRequestNeverCompletes(states: seq<World>, actions: seq<Action>, k: nat, n: nat)
    requires IsRun(states, actions) && Initial(states[0]) && k < |states| && !ShowsOn(states[0].hardware)
    requires forall i | 0 <= i < k ::
      actions[i] != MgmSend(false) && actions[i] != SwitchArrives(SwitchRequest(Mgm, On))
    requires n < |states[k].trace| && states[k].trace[n].Reached?
    ensures !Operational(states[k].trace[n].mode)
  {
    RunNeverAsks(states, actions, k);
    if Operational(states[k].trace[n].mode) {
      ReachedOnlyWithPower(states, actions, k, n);
      assert false;
    }
  }

  /** Switching the PCDU off while the MGM waits for its switch makes the MGM's next check panic. */
  lemma PcduOffPanicsMgm(w: World, submode: nat)
    requires InTransition(w) && w.mgm.transition == PowerSwitching
    ensures var w' := Perform(w, PcduMode(Mode(MODE_OFF, submode)));
      Enabled(w', MgmCheck) && Panics(w', MgmCheck)
  {
  }

  /**
   The new mode is shown, and the sensor read and its data marked valid, in the very operation
   that takes up the command, whether or not the switch is on.
   */
  lemma DataIsValidBeforePower(w: World, from: Requestor, reader: Requestor, submode: nat)
    requires w.modeQueue == [ModeMessage(from, SetMode(Mode(MODE_NORMAL, submode))), ModeMessage(reader, ReadMode)]
    requires SwitchInfoAvailable(w) && w.shared.switches[Mgm] == StateOff
    ensures var r := MgmOperation(w, false);
      && r.Some? && r.value.mgm.dataValid && r.value.mgm.transition == PowerSwitching
      && r.value.modeReplies == w.modeReplies + [(reader, Mode(MODE_NORMAL, submode))]
      && r.value.hardware == w.hardware && SwitchRequest(Mgm, On) in r.value.switchQueue
  {
    var w1 := DrainOne(w);
    var w2 := DrainOne(w1);
    assert DrainAll(w2) == w2;
    assert DrainAll(w1) == w2 && DrainAll(w) == w2;
    var w3 := SendSwitchOn(w2, false);
    assert w3.switchQueue[|w3.switchQueue| - 1] == SwitchRequest(Mgm, On);
  }

  // ------------------------------- operations as sequences of steps

  function PollSteps(w: World): seq<Action> {
    if w.mgm.current.mode == MODE_NORMAL then [MgmPoll] else []
  }

  function FinishSteps(w: World): seq<Action> {
    if InTransition(w) && w.mgm.transition == Done then [MgmFinish] + PollSteps(FinishTransition(w)) else PollSteps(w)
  }

  function CheckSteps(w: World): seq<Action> {
    if InTransition(w) && w.mgm.transition == PowerSwitching
    then [MgmCheck] + (if SwitchInfoAvailable(w) then FinishSteps(CheckSwitch(w)) else [])
    else FinishSteps(w)
  }

  function PassSteps(w: World, queueFull: bool): seq<Action> {
    if InTransition(w) && w.mgm.transition == Idle
    then [MgmSend(queueFull)] + CheckSteps(SendSwitchOn(w, queueFull)) else CheckSteps(w)
  }

  /** The steps that one periodic operation of the MGM handler takes. */
  function OperationSteps(w: World, queueFull: bool): seq<Action>
    decreases |w.modeQueue|
  {
    if w.modeQueue != [] then [MgmDrain] + OperationSteps(DrainOne(w), queueFull) else PassSteps(w, queueFull)
  }

  /** Perform steps one after the other; `None` if one of them is not enabled or panics. */
  function PerformAll(w: World, steps: seq<Action>): Option<World>
    decreases |steps|
  {
    if steps == [] then Some(w)
    else if !Enabled(w, steps[0]) || Panics(w, steps[0]) then None
    else PerformAll(Perform(w, steps[0]), steps[1..])
  }

  /** A periodic operation is a run of the steps above, so what holds of every run holds of it. */
  lemma {:induction false} OperationIsARun(w: World, queueFull: bool)
    ensures PerformAll(w, OperationSteps(w, queueFull)) == MgmOperation(w, queueFull)
    decreases |w.modeQueue|
  {
    if w.modeQueue != [] {
      OperationIsARun(DrainOne(w), queueFull);
      var rest := OperationSteps(DrainOne(w), queueFull);
      assert ([MgmDrain] + rest)[1..] == rest;
    } else {
      PassIsARun(w, queueFull);
    }
  }

  lemma PassIsARun(w: World, queueFull: bool)
    requires w.modeQueue == []
    ensures PerformAll(w, PassSteps(w, queueFull)) == MgmOperation(w, queueFull)
  {
    var w1 := if InTransition(w) && w.mgm.transition == Idle then SendSwitchOn(w, queueFull) else w;
    if InTransition(w) && w.mgm.transition == Idle {
      PerformPrefix(w, MgmSend(queueFull), CheckSteps(w1));
    }
    CheckIsARun(w1);
  }

  lemma CheckIsARun(w: World)
    ensures PerformAll(w, CheckSteps(w)) ==
      if InTransition(w) && w.mgm.transition == PowerSwitching && !SwitchInfoAvailable(w) then None
      else
        var w1 := if InTransition(w) && w.mgm.transition == PowerSwitching then CheckSwitch(w) else w;
        var w2 := if InTransition(w1) && w1.mgm.transition == Done then FinishTransition(w1) else w1;
        Some(if w2.mgm.current.mode == MODE_NORMAL then PollSensor(w2) else w2)
  {
    if InTransition(w) && w.mgm.transition == PowerSwitching && SwitchInfoAvailable(w) {
      PerformPrefix(w, MgmCheck, FinishSteps(CheckSwitch(w)));
      FinishIsARun(CheckSwitch(w));
    } else if !(InTransition(w) && w.mgm.transition == PowerSwitching) {
      FinishIsARun(w);
    }
  }

  lemma FinishIsARun(w: World)
    ensures PerformAll(w, FinishSteps(w)) ==
      var w2 := if InTransition(w) && w.mgm.transition == Done then FinishTransition(w) else w;
      Some(if w2.mgm.current.mode == MODE_NORMAL then PollSensor(w2) else w2)
  {
    var w2 := if InTransition(w) && w.mgm.transition == Done then FinishTransition(w) else w;
    if InTransition(w) && w.mgm.transition == Done {
      PerformPrefix(w, MgmFinish, PollSteps(w2));
    }
    if w2.mgm.current.mode == MODE_NORMAL {
      PerformPrefix(w2, MgmPoll, []);
      assert [MgmPoll] + [] == [MgmPoll];
    }
  }

  lemma PerformPrefix(w: World, a: Action, rest: seq<Action>)
    requires Enabled(w, a) && !Panics(w, a)
    ensures PerformAll(w, [a] + rest) == PerformAll(Perform(w, a), rest)
  {
    assert ([a] + rest)[1..] == rest;
  }

  // ------------------------------------------------- the protocol makes progress

  /** A published set is valid and shows each switch of a snapshot as the snapshot has it. */
  ghost predicate Shows(shown: SwitchSet, snapshot: map<Switch, Binary>) {
    && shown.valid && shown.switches.Keys == snapshot.Keys
    && forall s | s in snapshot :: shown.switches[s] == match snapshot[s] { case On => StateOn case Off => StateOff }
  }

  /** What stays published is the newest snapshot. */
  lemma {:induction false} PublishAllIsLast(w: World)
    ensures var w' := PublishAll(w);
      && w'.hardwareReplies == [] && w'.hardware == w.hardware
      && (if w.hardwareReplies == [] then w'.shared == w.shared
          else Shows(w'.shared, w.hardwareReplies[|w.hardwareReplies| - 1]))
    decreases |w.hardwareReplies|
  {
    if w.hardwareReplies != [] {
      PublishAllIsLast(HandleSwitchReply(w));
    }
  }

  /** After the requests are handled each switch is as its last request says, the rest as before. */
  lemma {:induction false} SwitchAllIsLast(w: World, s: Switch)
    ensures var w' := SwitchAll(w);
      && w'.switchQueue == []
      && (s in w'.hardware <==> s in w.hardware || LastRequest(w.switchQueue, s).Some?)
      && (s in w'.hardware ==>
            w'.hardware[s] == match LastRequest(w.switchQueue, s) case Some(b) => b case None => w.hardware[s])
    decreases |w.switchQueue|
  {
    if w.switchQueue != [] {
      SwitchAllIsLast(HandleSwitchRequest(w), s);
    }
  }

  function LastRequest(queue: seq<SwitchRequest>, s: Switch): Option<Binary> {
    if queue == [] then None
    else
      var later := LastRequest(queue[1..], s);
      if later.Some? then later else if queue[0].switch == s then Some(queue[0].state) else None
  }

  lemma {:induction false} LastRequestAppended(queue: seq<SwitchRequest>, b: Binary)
    ensures LastRequest(queue + [SwitchRequest(Mgm, b)], Mgm) == Some(b)
  {
    if queue != [] {
      LastRequestAppended(queue[1..], b);
      assert (queue + [SwitchRequest(Mgm, b)])[1..] == queue[1..] + [SwitchRequest(Mgm, b)];
    }
  }

  /** Passing on switch requests and publishing snapshots leaves the MGM side alone. */
  lemma {:induction false} SwitchAllLeavesMgm(w: World)
    ensures var w' := SwitchAll(w);
      && w'.mgm == w.mgm && w'.modeQueue == w.modeQueue && w'.modeReplies == w.modeReplies
      && w'.pcduMode == w.pcduMode && w'.shared == w.shared && w'.hardwareReplies == w.hardwareReplies
    decreases |w.switchQueue|
  {
    if w.switchQueue != [] {
      SwitchAllLeavesMgm(HandleSwitchRequest(w));
    }
  }

  lemma {:induction false} PublishAllLeavesMgm(w: World)
    ensures var w' := PublishAll(w); w'.mgm == w.mgm && w'.modeQueue == w.modeQueue && w'.modeReplies == w.modeReplies
    decreases |w.hardwareReplies|
  {
    if w.hardwareReplies != [] {
      PublishAllLeavesMgm(HandleSwitchReply(w));
    }
  }

  /** One regular operation of the PCDU handler followed by one poll of its replies. */
  function PcduCycle(w: World): World {
    PublishAll(RequestSwitchInfo(SwitchAll(w)))
  }

  /** After a PCDU cycle with an On request last in the queue, the published set shows the switch on. */
  lemma CycleShowsOn(w: World, queue: seq<SwitchRequest>)
    requires Operational(w.pcduMode) && w.switchQueue == queue + [SwitchRequest(Mgm, On)]
    ensures var w' := PcduCycle(w);
      && w'.mgm == w.mgm && w'.modeQueue == w.modeQueue && w'.modeReplies == w.modeReplies
      && SwitchInfoAvailable(w') && w'.shared.switches[Mgm] == StateOn && ShowsOn(w'.hardware)
  {
    LastRequestAppended(queue, On);
    SwitchAllIsLast(w, Mgm);
    SwitchAllLeavesMgm(w);
    var w1 := RequestSwitchInfo(SwitchAll(w));
    PublishAllIsLast(w1);
    PublishAllLeavesMgm(w1);
  }

  /**
   A mode command for On or Normal that finds room in the switch queue and an operational PCDU
   is completed by the second operation of the MGM handler, with one PCDU cycle in between: the
   mode is reached, the hardware switch is on, and the PUS mode service gets its reply. If the
   switch is shown on already, the first operation completes it.
   */
  lemma PowerOnCompletes(w: World, from: Requestor, mode: Mode)
    requires w.modeQueue == [ModeMessage(from, SetMode(mode))] && Operational(mode)
    requires SwitchInfoAvailable(w) && Operational(w.pcduMode)
    ensures var first := MgmOperation(w, false);
      first.Some? &&
      var second := MgmOperation(PcduCycle(first.value), false);
      && second.Some? && second.value.mgm.target.None? && second.value.mgm.current == mode
      && second.value.mgm.transition == Idle
      && ShowsOn(second.value.hardware)
      && second.value.modeReplies == w.modeReplies + (if from.sender == PusModeService then [(from, mode)] else [])
      && (first.value.mgm.target.None? <==> w.shared.switches[Mgm] == StateOn)
  {
    var w1 := DrainOne(w);
    assert DrainAll(w1) == w1 && DrainAll(w) == w1;
    var w2 := SendSwitchOn(w1, false);
    var first := MgmOperation(w, false).value;
    assert first.switchQueue == w.switchQueue + [SwitchRequest(Mgm, On)];
    CycleShowsOn(first, w.switchQueue);
    var w3 := PcduCycle(first);
    assert DrainAll(w3) == w3;
  }
}
