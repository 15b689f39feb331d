/**
 What goes out in every interleaving: the mode replies that requestors get and the switch
 requests that the hardware gets, and exactly when sensor data is marked valid without power.
 */
module PowerReplies {
  import opened Wrappers
  import opened PowerSpec
  import opened PowerRuns

  // ------------------------------------------------------------ mode replies

  /** The reply that belongs to an event. */
  function ReplyFor(e: Event): seq<(Requestor, Mode)> {
    match e
    case Reached(r, mode) => if r.sender == PusModeService then [(r, mode)] else []
    case ModeRead(r, mode) => [(r, mode)]
    case _ => []
  }

  function RepliesOf(trace: seq<Event>): seq<(Requestor, Mode)> {
    if trace == [] then [] else RepliesOf(trace[..|trace| - 1]) + ReplyFor(trace[|trace| - 1])
  }

  lemma RepliesLog(w: World, e: Event)
    ensures RepliesOf(Log(w, e).trace) == RepliesOf(w.trace) + ReplyFor(e)
  {
    assert (w.trace + [e])[..|w.trace|] == w.trace;
  }

  /** Every reply sent belongs to a mode read or reached, in that order, and to nothing else. */
  ghost predicate RepliesInv(w: World) {
    w.modeReplies == RepliesOf(w.trace)
  }

  lemma ReachedKeepsReplies(w: World, r: Option<Requestor>)
    requires RepliesInv(w)
    ensures RepliesInv(ModeReached(w, r))
  {
    hide RepliesOf;
    if r.Some? {
      RepliesLog(w.(mgm := w.mgm.(target := None)), Reached(r.value, w.mgm.current));
    }
  }

  lemma DrainKeepsReplies(w: World)
    requires RepliesInv(w) && w.modeQueue != []
    ensures RepliesInv(DrainOne(w))
  {
    hide RepliesOf;
    var msg, w1 := w.modeQueue[0], w.(modeQueue := w.modeQueue[1..]);
    RepliesLog(w1, ModeRead(msg.from, w.mgm.current));
    if msg.request.SetMode? {
      var mode := msg.request.mode;
      var w2 := w1.(mgm := w1.mgm.(current := mode));
      RepliesLog(w2, TakenUp(msg.from.id, mode));
      var w3 := Log(w2, TakenUp(msg.from.id, mode));
      ReachedKeepsReplies(w3.(mgm := w3.mgm.(dataValid := false)), Some(msg.from));
    }
  }

  lemma StepKeepsReplies(w: World, a: Action)
    requires RepliesInv(w) && Enabled(w, a) && !Panics(w, a)
    ensures RepliesInv(Perform(w, a))
  {
    hide RepliesOf, DrainOne;
    match a
    case MgmDrain => DrainKeepsReplies(w);
    case MgmSend(queueFull) => RepliesLog(Perform(w, a).(trace := w.trace), Commanded(w.mgm.requestor, !queueFull));
    case MgmFinish => ReachedKeepsReplies(w.(mgm := w.mgm.(current := w.mgm.target.value)), w.mgm.requestor);
    case PcduSwitch =>
      var r := w.switchQueue[0];
      RepliesLog(Perform(w, a).(trace := w.trace), HardwareSet(r.switch, r.state));
    case _ =>
  }

  lemma {:induction false} RunKeepsReplies(states: seq<World>, actions: seq<Action>, k: nat)
    requires IsRun(states, actions) && Initial(states[0]) && k < |states|
    ensures RepliesInv(states[k])
  {
    hide Perform;
    if k > 0 {
      RunKeepsReplies(states, actions, k - 1);
      StepKeepsReplies(states[k - 1], actions[k - 1]);
    }
  }

  // ---------------------------------------------------------- reads are answered

  function CountReads(trace: seq<Event>, r: Requestor): nat {
    if trace == [] then 0
    else
      var e := trace[|trace| - 1];
      CountReads(trace[..|trace| - 1], r) + if e.ModeRead? && e.who == r then 1 else 0
  }

  lemma ReadsLog(w: World, e: Event, r: Requestor)
    ensures CountReads(Log(w, e).trace, r) == CountReads(w.trace, r) + if e.ModeRead? && e.who == r then 1 else 0
  {
    assert (w.trace + [e])[..|w.trace|] == w.trace;
  }

  /** Reads of a requestor that were answered or still wait in the queue. */
  function ReadsSeen(w: World, r: Requestor): nat {
    CountReads(w.trace, r) + multiset(w.modeQueue)[ModeMessage(r, ReadMode)]
  }

  lemma ReachedReads(w: World, who: Option<Requestor>, r: Requestor)
    ensures CountReads(ModeReached(w, who).trace, r) == CountReads(w.trace, r)
  {
    hide CountReads;
    if who.Some? {
      ReadsLog(w.(mgm := w.mgm.(target := None)), Reached(who.value, w.mgm.current), r);
    }
  }

  lemma DrainReads(w: World, r: Requestor)
    requires w.modeQueue != []
    ensures ReadsSeen(DrainOne(w), r) == ReadsSeen(w, r)
  {
    hide CountReads;
    var msg, w1 := w.modeQueue[0], w.(modeQueue := w.modeQueue[1..]);
    assert w.modeQueue == [msg] + w1.modeQueue;
    ReadsLog(w1, ModeRead(msg.from, w.mgm.current), r);
    if msg.request.SetMode? {
      var mode := msg.request.mode;
      var w2 := w1.(mgm := w1.mgm.(current := mode));
      ReadsLog(w2, TakenUp(msg.from.id, mode), r);
      var w3 := Log(w2, TakenUp(msg.from.id, mode));
      ReachedReads(w3.(mgm := w3.mgm.(dataValid := false)), Some(msg.from), r);
    }
  }

  lemma StepReads(w: World, a: Action, r: Requestor)
    requires Enabled(w, a) && !Panics(w, a)
    ensures ReadsSeen(Perform(w, a), r) == ReadsSeen(w, r) + if a == ModeArrives(ModeMessage(r, ReadMode)) then 1 else 0
  {
    hide CountReads, DrainOne;
    match a
    case MgmDrain => DrainReads(w, r);
    case MgmSend(queueFull) => ReadsLog(Perform(w, a).(trace := w.trace), Commanded(w.mgm.requestor, !queueFull), r);
    case MgmFinish => ReachedReads(w.(mgm := w.mgm.(current := w.mgm.target.value)), w.mgm.requestor, r);
    case PcduSwitch =>
      var s := w.switchQueue[0];
      ReadsLog(Perform(w, a).(trace := w.trace), HardwareSet(s.switch, s.state), r);
    case _ =>
  }

  /** How often a requestor has asked for the mode in a run. */
  function ReadArrivals(actions: seq<Action>, r: Requestor): nat {
    multiset(actions)[ModeArrives(ModeMessage(r, ReadMode))]
  }

  lemma {:induction false} RunReads(states: seq<World>, actions: seq<Action>, k: nat, r: Requestor)
    requires IsRun(states, actions) && Initial(states[0]) && k < |states|
    ensures ReadsSeen(states[k], r) == ReadArrivals(actions[..k], r)
  {
    hide Perform;
    if k > 0 {
      RunReads(states, actions, k - 1, r);
      StepReads(states[k - 1], actions[k - 1], r);
      assert actions[..k] == actions[..k - 1] + [actions[k - 1]];
    }
  }

  // ------------------------------------------------------ replies are accounted for

  /** How many replies are addressed to a requestor. */
  function CountTo(replies: seq<(Requestor, Mode)>, r: Requestor): nat {
    if replies == [] then 0
    else CountTo(replies[..|replies| - 1], r) + if replies[|replies| - 1].0 == r then 1 else 0
  }

  /** How many of a requestor's commands were completed with a reply. */
  function Completions(trace: seq<Event>, r: Requestor): nat {
    if trace == [] then 0
    else
      var e := trace[|trace| - 1];
      Completions(trace[..|trace| - 1], r) + if e.Reached? && e.who == r && r.sender == PusModeService then 1 else 0
  }

  lemma {:induction false} RepliesSplit(trace: seq<Event>, r: Requestor)
    ensures CountTo(RepliesOf(trace), r) == CountReads(trace, r) + Completions(trace, r)
    ensures Completions(trace, r) <= CountReached(trace, r.id)
  {
    if trace != [] {
      var init, e := trace[..|trace| - 1], trace[|trace| - 1];
      RepliesSplit(init, r);
      CountOneMore(RepliesOf(init), e, r);
    }
  }

  lemma CountOneMore(replies: seq<(Requestor, Mode)>, e: Event, r: Requestor)
    ensures CountTo(replies + ReplyFor(e), r) ==
      CountTo(replies, r) + if ReplyFor(e) != [] && ReplyFor(e)[0].0 == r then 1 else 0
  {
    if ReplyFor(e) != [] {
      assert (replies + ReplyFor(e))[..|replies|] == replies;
    } else {
      assert replies + ReplyFor(e) == replies;
    }
  }

  /**
   In every interleaving the replies to a requestor are exactly the answers to its reads plus one
   per completed command, and each command, with ids of its own, is completed at most once.
   */
  lemma RepliesAreAccountedFor(states: seq<World>, actions: seq<Action>, k: nat, r: Requestor)
    requires IsRun(states, actions) && Initial(states[0]) && k < |states|
    ensures var w := states[k];
      CountTo(w.modeReplies, r) + multiset(w.modeQueue)[ModeMessage(r, ReadMode)] ==
        ReadArrivals(actions[..k], r) + Completions(w.trace, r)
    ensures (forall i | 0 <= i < k :: DistinctIds(states[i], actions[i])) ==> Completions(states[k].trace, r) <= 1
  {
    RunKeepsReplies(states, actions, k);
    RunReads(states, actions, k, r);
    RepliesSplit(states[k].trace, r);
    if forall i | 0 <= i < k :: DistinctIds(states[i], actions[i]) {
      AtMostOncePerCommand(states, actions, k, r.id);
    }
  }

  /** Where a reply comes from. */
  lemma {:induction false} ReplyHasEvent(trace: seq<Event>, n: nat) returns (e: nat)
    requires n < |RepliesOf(trace)|
    ensures e < |trace| && ReplyFor(trace[e]) == [RepliesOf(trace)[n]]
  {
    var init := trace[..|trace| - 1];
    if n < |RepliesOf(init)| {
      e := ReplyHasEvent(init, n);
    } else {
      e := |trace| - 1;
    }
  }

  lemma {:induction false} ReadIsCounted(trace: seq<Event>, e: nat)
    requires e < |trace| && trace[e].ModeRead?
    ensures CountReads(trace, trace[e].who) > 0
    decreases |trace|
  {
    if e < |trace| - 1 {
      ReadIsCounted(trace[..|trace| - 1], e);
    }
  }

  /**
   In every interleaving, every reply sent is the answer to a read of its requestor, or the
   completion of its command; and one that completes a command for On or Normal comes after the
   hardware's MGM switch has been on. So a requestor that never asks is not told before.
   */
  lemma RepliedOnlyWithPower(states: seq<World>, actions: seq<Action>, k: nat, n: nat) returns (e: nat)
    requires IsRun(states, actions) && Initial(states[0]) && k < |states| && n < |states[k].modeReplies|
    ensures var (r, mode), trace := states[k].modeReplies[n], states[k].trace;
      && e < |trace| && trace[e] in {ModeRead(r, mode), Reached(r, mode)}
      && (trace[e] == ModeRead(r, mode) ==> ReadArrivals(actions[..k], r) > 0)
      && (trace[e] == Reached(r, mode) && Operational(mode) ==>
        ShowsOn(states[0].hardware) || HardwareSet(Mgm, On) in trace[..e])
  {
    RunKeepsReplies(states, actions, k);
    var trace := states[k].trace;
    e := ReplyHasEvent(trace, n);
    if trace[e].ModeRead? {
      ReadIsCounted(trace, e);
      RunReads(states, actions, k, trace[e].who);
    } else if Operational(trace[e].mode) {
      ReachedOnlyWithPower(states, actions, k, e);
      if !ShowsOn(states[0].hardware) {
        var m :| 0 <= m < e && trace[m] == HardwareSet(Mgm, On);
        assert trace[..e][m] == HardwareSet(Mgm, On);
      }
    }
  }

  // --------------------------------------------------- switch requests are conserved

  /** Switch-on commands of the MGM handler that found room in the queue. */
  function QueuedCommands(trace: seq<Event>): nat {
    if trace == [] then 0
    else
      var e := trace[|trace| - 1];
      QueuedCommands(trace[..|trace| - 1]) + if e.Commanded? && e.queued then 1 else 0
  }

  lemma QueuedLog(w: World, e: Event)
    ensures QueuedCommands(Log(w, e).trace) == QueuedCommands(w.trace) + if e.Commanded? && e.queued then 1 else 0
  {
    assert (w.trace + [e])[..|w.trace|] == w.trace;
  }

  /** Requests to switch on that wait, plus those carried out, minus those the MGM handler made. */
  function Balance(w: World): int {
    multiset(w.switchQueue)[TurnOn] + multiset(w.trace)[HardwareSet(Mgm, On)] - QueuedCommands(w.trace)
  }

  lemma ReachedBalance(w: World, who: Option<Requestor>)
    ensures Balance(ModeReached(w, who)) == Balance(w)
  {
    hide QueuedCommands;
    if who.Some? {
      QueuedLog(w.(mgm := w.mgm.(target := None)), Reached(who.value, w.mgm.current));
    }
  }

  lemma DrainBalance(w: World)
    requires w.modeQueue != []
    ensures Balance(DrainOne(w)) == Balance(w)
  {
    hide QueuedCommands;
    var msg, w1 := w.modeQueue[0], w.(modeQueue := w.modeQueue[1..]);
    QueuedLog(w1, ModeRead(msg.from, w.mgm.current));
    if msg.request.SetMode? {
      var mode := msg.request.mode;
      var w2 := w1.(mgm := w1.mgm.(current := mode));
      QueuedLog(w2, TakenUp(msg.from.id, mode));
      var w3 := Log(w2, TakenUp(msg.from.id, mode));
      ReachedBalance(w3.(mgm := w3.mgm.(dataValid := false)), Some(msg.from));
    }
  }

  lemma StepBalance(w: World, a: Action)
    requires Enabled(w, a) && !Panics(w, a)
    ensures Balance(Perform(w, a)) == Balance(w) + if a == SwitchArrives(TurnOn) then 1 else 0
  {
    hide QueuedCommands, DrainOne, HandleSwitchRequest, SendSwitchOn;
    match a
    case MgmDrain => DrainBalance(w);
    case MgmSend(queueFull) => SendBalance(w, queueFull);
    case MgmFinish => ReachedBalance(w.(mgm := w.mgm.(current := w.mgm.target.value)), w.mgm.requestor);
    case PcduSwitch => SwitchBalance(w);
    case _ =>
  }

  lemma SendBalance(w: World, queueFull: bool)
    requires InTransition(w) && w.mgm.transition == Idle
    ensures Balance(SendSwitchOn(w, queueFull)) == Balance(w)
  {
    hide QueuedCommands;
    QueuedLog(SendSwitchOn(w, queueFull).(trace := w.trace), Commanded(w.mgm.requestor, !queueFull));
  }

  lemma SwitchBalance(w: World)
    requires w.switchQueue != []
    ensures Balance(HandleSwitchRequest(w)) == Balance(w)
  {
    hide QueuedCommands;
    var s := w.switchQueue[0];
    assert w.switchQueue == [s] + w.switchQueue[1..];
    QueuedLog(HandleSwitchRequest(w).(trace := w.trace), HardwareSet(s.switch, s.state));
  }

  /**
   In every interleaving, each time the hardware switches the MGM on is for one request to do so,
   and each request is carried out once or still waits; none is made up, lost or doubled.
   */
  lemma {:induction false} SwitchRequestsAreConserved(states: seq<World>, actions: seq<Action>, k: nat)
    requires IsRun(states, actions) && Initial(states[0]) && k < |states|
    ensures var w := states[k];
      multiset(w.switchQueue)[TurnOn] + multiset(w.trace)[HardwareSet(Mgm, On)] ==
      QueuedCommands(w.trace) + multiset(actions[..k])[SwitchArrives(TurnOn)]
  {
    hide Perform;
    if k > 0 {
      SwitchRequestsAreConserved(states, actions, k - 1);
      StepBalance(states[k - 1], actions[k - 1]);
      assert actions[..k] == actions[..k - 1] + [actions[k - 1]];
    }
  }

  // ----------------------------------------------------------- data without power

  /** The mode that the last mode command in a queue asks for. */
  function LastSet(queue: seq<ModeMessage>): Option<Mode> {
    if queue == [] then None
    else
      var later := LastSet(queue[1..]);
      if later.Some? then later
      else if queue[0].request.SetMode? then Some(queue[0].request.mode) else None
  }

  /** The mode shown after the queued requests are handled. */
  function ModeAfterRequests(w: World): Mode {
    match LastSet(w.modeQueue)
    case Some(mode) => mode
    case None => w.mgm.current
  }

  /** Some queued command is to switch off, which is what takes the validity mark back. */
  ghost predicate OffQueued(queue: seq<ModeMessage>) {
    exists msg | msg in queue :: msg.request.SetMode? && msg.request.mode.mode == MODE_OFF
  }

  lemma {:induction false} DrainedData(w: World)
    ensures DrainAll(w).mgm.dataValid <==> w.mgm.dataValid && !OffQueued(w.modeQueue)
    decreases |w.modeQueue|
  {
    if w.modeQueue != [] {
      var msg, rest := w.modeQueue[0], w.modeQueue[1..];
      assert w.modeQueue == [msg] + rest;
      DrainedData(DrainOne(w));
      assert OffQueued(w.modeQueue) <==> OffQueued(rest) || (msg.request.SetMode? && msg.request.mode.mode == MODE_OFF);
    }
  }

  lemma {:induction false} DrainedState(w: World)
    ensures var d, last := DrainAll(w), LastSet(w.modeQueue);
      && d.modeQueue == [] && d.shared == w.shared && d.hardware == w.hardware
      && d.mgm.current == ModeAfterRequests(w)
      && (last.Some? && Operational(last.value) ==> d.mgm.target == last && d.mgm.transition == Idle)
      && (last.None? ==> d.mgm == w.mgm)
    decreases |w.modeQueue|
  {
    if w.modeQueue != [] {
      DrainedState(DrainOne(w));
    }
  }

  /**
   Exactly when sensor data is marked valid after a periodic operation: the mode shown then is
   Normal, or it was valid before and no queued command switched the device off.
   */
  lemma DataIsValidIff(w: World, queueFull: bool)
    requires MgmOperation(w, queueFull).Some?
    ensures var r := MgmOperation(w, queueFull).value;
      r.mgm.dataValid <==> r.mgm.current.mode == MODE_NORMAL || (w.mgm.dataValid && !OffQueued(w.modeQueue))
  {
    hide DrainAll, OffQueued;
    DrainedData(w);
  }

  /**
   Exactly when the operation shows Normal while it still waits for power: the mode after the queued
   requests is Normal, its transition has not got past the switch, and the published set does not
   show the switch on.
   */
  lemma ShownWithoutPowerIff(w: World, queueFull: bool)
    requires MgmOperation(w, queueFull).Some?
    ensures var r := MgmOperation(w, queueFull).value;
      r.mgm.current.mode == MODE_NORMAL && InTransition(r) <==>
        && ModeAfterRequests(w).mode == MODE_NORMAL && !SetShowsOn(w.shared)
        && (LastSet(w.modeQueue).Some? || (InTransition(w) && w.mgm.transition != Done))
  {
    hide DrainAll, LastSet, TransitionPass;
    DrainedState(w);
    PassWithoutPower(DrainAll(w), queueFull);
  }

  /** The same for one pass of the transition, from a state whose target is the mode shown. */
  lemma PassWithoutPower(w: World, queueFull: bool)
    requires TransitionPass(w, queueFull).Some?
    ensures var r := TransitionPass(w, queueFull).value;
      && (r.mgm.current.mode == MODE_NORMAL && InTransition(r) <==>
            w.mgm.current.mode == MODE_NORMAL && !SetShowsOn(w.shared) && InTransition(w) && w.mgm.transition != Done)
  {
  }

  /**
   In every interleaving in which the hardware has never been on, sensor data is marked valid after
   a periodic operation exactly if the last mode command was for Normal, or it was valid before and
   the device was not switched off meanwhile. Power makes no difference to it.
   */
  lemma UnpoweredDataIsValidIff(states: seq<World>, actions: seq<Action>, k: nat, queueFull: bool)
    requires IsRun(states, actions) && Initial(states[0]) && k < |states|
    requires !ShowsOn(states[0].hardware) && HardwareSet(Mgm, On) !in states[k].trace
    requires MgmOperation(states[k], queueFull).Some?
    ensures var w, r := states[k], MgmOperation(states[k], queueFull).value;
      && (r.mgm.dataValid <==>
            ModeAfterRequests(w).mode == MODE_NORMAL || (w.mgm.dataValid && !OffQueued(w.modeQueue)))
      && (r.mgm.current.mode == MODE_NORMAL <==> ModeAfterRequests(w).mode == MODE_NORMAL)
      && r.hardware == w.hardware
  {
    hide Seen, OffQueued;
    RunKeeps(states, actions, k);
    var w := states[k];
    DrainedState(w);
    DataIsValidIff(w, queueFull);
    NeverOnNotSeen(w.trace);
    var d := DrainAll(w);
    DrainedTransition(w);
    assert !SetShowsOn(d.shared) && (InTransition(d) ==> d.mgm.transition != Done);
  }

  /**
   Both halves of that at work: an operation takes up Normal, a second one On, both switch requests
   are lost; the switch is still off, the mode is On, and the data of the first poll is still valid.
   */
  lemma DataStaysValidWithoutPower(w: World, from: Requestor, again: Requestor, submode: nat)
    requires w.modeQueue == [ModeMessage(from, SetMode(Mode(MODE_NORMAL, submode)))]
    requires SwitchInfoAvailable(w) && !SetShowsOn(w.shared)
    ensures var one := MgmOperation(w, true);
      one.Some? &&
      var two := MgmOperation(one.value.(modeQueue := [ModeMessage(again, SetMode(Mode(MODE_ON, submode)))]), true);
      && two.Some? && two.value.mgm.dataValid && two.value.mgm.current == Mode(MODE_ON, submode)
      && two.value.hardware == w.hardware && two.value.switchQueue == w.switchQueue && InTransition(two.value)
  {
    var w1 := DrainOne(w);
    assert DrainAll(w1) == w1 && DrainAll(w) == w1;
    var one := MgmOperation(w, true).value;
    var w2 := one.(modeQueue := [ModeMessage(again, SetMode(Mode(MODE_ON, submode)))]);
    var w3 := DrainOne(w2);
    assert DrainAll(w3) == w3 && DrainAll(w2) == w3;
  }

  lemma {:induction false} NeverOnNotSeen(trace: seq<Event>)
    requires HardwareSet(Mgm, On) !in trace
    ensures !Seen(false, trace).everOn
  {
    if trace != [] {
      NeverOnNotSeen(trace[..|trace| - 1]);
    }
  }

  /** Handling requests never brings a transition past the switch. */
  lemma {:induction false} DrainedTransition(w: World)
    requires w.mgm.transition != Done
    ensures DrainAll(w).mgm.transition != Done
    decreases |w.modeQueue|
  {
    if w.modeQueue != [] {
      DrainedTransition(DrainOne(w));
    }
  }
}
