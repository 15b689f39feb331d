/**
 The two handlers and the dummy serial interface as objects. The queue of switch requests and
 the published switch set are shared between the handlers and are objects of their own.
 */
module PowerHandlers {
  import opened Wrappers
  import opened PowerModes
  import opened PowerSpec

  class SharedSwitchSet {
    var contents: SwitchSet

    constructor (contents: SwitchSet)
      ensures this.contents == contents
    {
      this.contents := contents;
    }
  }

  class SwitchQueue {
    var items: seq<SwitchRequest>

    constructor ()
      ensures items == []
    {
      items := [];
    }
  }

  /** The hardware side: sets switches and answers a request for switch information. */
  class SerialInterfaceDummy {
    var switchMap: map<Switch, Binary>
    var replyDeque: seq<map<Switch, Binary>>

    /** All switches start off. */
    constructor ()
      ensures switchMap == map[Mgm := Off, Mgt := Off] && replyDeque == []
    {
      switchMap := map[Mgm := Off, Mgt := Off];
      replyDeque := [];
    }

    method SwitchDevice(r: SwitchRequest)
      modifies this
      ensures switchMap == old(switchMap)[r.switch := r.state] && replyDeque == old(replyDeque)
    {
      switchMap := switchMap[r.switch := r.state];
    }

    method RequestSwitchInfo()
      modifies this
      ensures switchMap == old(switchMap) && replyDeque == old(replyDeque) + [switchMap]
    {
      replyDeque := replyDeque + [switchMap];
    }
  }

  /** Parts of the world that a handler does not touch, filled with anything. */
  const NoMode: Mode := Mode(MODE_OFF, 0)

  class MgmHandler {
    const shared: SharedSwitchSet
    const switchQueue: SwitchQueue
    var current: Mode
    var target: Option<Mode>
    var requestor: Option<Requestor>
    var transition: Transition
    var dataValid: bool
    var modeQueue: seq<ModeMessage>
    var modeReplies: seq<(Requestor, Mode)>
    ghost var trace: seq<Event>

    ghost function View(): World
      reads this, shared, switchQueue
    {
      World(MgmState(current, target, requestor, transition, dataValid), modeQueue, modeReplies, switchQueue.items,
            NoMode, shared.contents, map[], [], trace)
    }

    constructor (shared: SharedSwitchSet, switchQueue: SwitchQueue)
      ensures this.shared == shared && this.switchQueue == switchQueue
      ensures View().mgm == MgmState(Mode(MODE_OFF, 0), None, None, Idle, false) && modeQueue == [] && trace == []
    {
      this.shared := shared;
      this.switchQueue := switchQueue;
      current := Mode(MODE_OFF, 0);
      target := None;
      requestor := None;
      transition := Idle;
      dataValid := false;
      modeQueue := [];
      modeReplies := [];
      trace := [];
    }

    /** Requests, then the transition, then the sensor; panics if the switch set cannot be read. */
    method PeriodicOperation(queueFull: bool) returns (panicked: bool)
      modifies this, switchQueue
      ensures panicked <==> MgmOperation(old(View()), queueFull).None?
      ensures !panicked ==> Some(View()) == MgmOperation(old(View()), queueFull)
    {
      HandleModeRequests();
      panicked := false;
      if target.Some? {
        panicked := HandleModeTransition(target.value, queueFull);
        if panicked {
          return;
        }
      }
      if current.mode == MODE_NORMAL {
        dataValid := true;
      }
    }

    method HandleModeRequests()
      modifies this
      ensures View() == DrainAll(old(View()))
    {
      ghost var w := View();
      while |modeQueue| > 0
        invariant DrainAll(View()) == DrainAll(w)
        decreases |modeQueue|
      {
        var msg := modeQueue[0];
        modeQueue := modeQueue[1..];
        match msg.request {
          case SetMode(mode) => StartTransitionTo(msg.from, mode);
          case ReadMode =>
            trace := trace + [ModeRead(msg.from, current)];
            SendModeReply(msg.from);
          case AnnounceMode =>
          case ModeInfo =>
        }
      }
    }

    method StartTransitionTo(from: Requestor, mode: Mode)
      modifies this
      ensures View() == StartTransition(old(View()), from, mode)
    {
      current := mode;
      trace := trace + [TakenUp(from.id, mode)];
      if mode.mode == MODE_OFF {
        dataValid := false;
        HandleModeReached(Some(from));
      } else if mode.mode == MODE_NORMAL || mode.mode == MODE_ON {
        transition := Idle;
        requestor := Some(from);
        target := Some(mode);
      }
    }

    method HandleModeReached(r: Option<Requestor>)
      modifies this
      ensures View() == ModeReached(old(View()), r)
    {
      target := None;
      if r.Some? {
        trace := trace + [Reached(r.value, current)];
        if r.value.sender == NoSender {
          return;
        }
        if r.value.sender == PusModeService {
          SendModeReply(r.value);
        }
      }
    }

    method SendModeReply(r: Requestor)
      modifies this
      ensures View() == ReplyTo(old(View()), r)
    {
      modeReplies := modeReplies + [(r, current)];
    }

    method HandleModeTransition(mode: Mode, queueFull: bool) returns (panicked: bool)
      requires target == Some(mode)
      modifies this, switchQueue
      ensures panicked <==> TransitionPass(old(View()), queueFull).None?
      ensures !panicked ==> Some(View()) == TransitionPass(old(View()), queueFull)
    {
      hide SendSwitchOn, FinishTransition;
      panicked := false;
      if mode.mode == MODE_ON || mode.mode == MODE_NORMAL {
        if transition == Idle {
          SendSwitchOnCommand(queueFull);
        }
        if transition == PowerSwitching {
          if !(shared.contents.valid && Mgm in shared.contents.switches) {
            return true;
          }
          if shared.contents.switches[Mgm] == StateOn {
            transition := Done;
          }
        }
        if transition == Done {
          CompleteTransition();
        }
      }
    }

    /** Ask for the switch; a full queue loses the request. */
    method SendSwitchOnCommand(queueFull: bool)
      requires InTransition(View()) && transition == Idle
      modifies this, switchQueue
      ensures View() == SendSwitchOn(old(View()), queueFull) && transition == PowerSwitching && target == old(target)
    {
      if !queueFull {
        switchQueue.items := switchQueue.items + [SwitchRequest(Mgm, On)];
      }
      transition := PowerSwitching;
      trace := trace + [Commanded(requestor, !queueFull)];
    }

    method CompleteTransition()
      requires InTransition(View()) && transition == Done
      modifies this
      ensures View() == FinishTransition(old(View()))
    {
      current := target.value;
      HandleModeReached(requestor);
      transition := Idle;
    }
  }

  class PcduHandler {
    const shared: SharedSwitchSet
    const switchQueue: SwitchQueue
    const com: SerialInterfaceDummy
    var mode: Mode
    var modeQueue: seq<ModeMessage>
    var modeReplies: seq<(Requestor, Mode)>
    ghost var trace: seq<Event>

    /** The handler's own mode queue and replies are not part of what it shares with the MGM. */
    ghost function View(): World
      reads this, shared, switchQueue, com
    {
      World(MgmState(NoMode, None, None, Idle, false), [], [], switchQueue.items,
            mode, shared.contents, com.switchMap, com.replyDeque, trace)
    }

    constructor (shared: SharedSwitchSet, switchQueue: SwitchQueue, com: SerialInterfaceDummy)
      ensures this.shared == shared && this.switchQueue == switchQueue && this.com == com
      ensures mode == Mode(MODE_OFF, 0) && modeQueue == [] && modeReplies == [] && trace == []
    {
      this.shared := shared;
      this.switchQueue := switchQueue;
      this.com := com;
      this.mode := Mode(MODE_OFF, 0);
      this.modeQueue := [];
      this.modeReplies := [];
      this.trace := [];
    }

    /** The regular operation: own mode requests, switch requests, then a poll where operational. */
    method RegularOperation()
      modifies this, switchQueue, com, shared
      ensures View() == RequestSwitchInfo(SwitchAll(PcduDrain(old(View()), old(modeQueue))))
      ensures modeQueue == [] && modeReplies == old(modeReplies) + PcduReplies(old(mode), old(modeQueue))
      ensures AnswersQueue(old(mode), old(modeQueue), modeReplies[|old(modeReplies)|..])
      ensures mode == ModeAfter(old(mode), old(modeQueue), |old(modeQueue)|)
      ensures shared.contents == old(shared.contents).(valid := old(shared.contents.valid) && NoOff(old(modeQueue)))
    {
      HandleModeRequests();
      hide AnswersQueue, PcduReplies, ModeAfter, NoOff;
      HandleSwitchRequests();
      if mode.mode == MODE_NORMAL || mode.mode == MODE_ON {
        com.RequestSwitchInfo();
      }
    }

    /** All queued mode requests, in order. */
    method HandleModeRequests()
      modifies this, shared
      ensures View() == PcduDrain(old(View()), old(modeQueue))
      ensures modeQueue == [] && modeReplies == old(modeReplies) + PcduReplies(old(mode), old(modeQueue))
      ensures AnswersQueue(old(mode), old(modeQueue), modeReplies[|old(modeReplies)|..])
      ensures mode == ModeAfter(old(mode), old(modeQueue), |old(modeQueue)|)
      ensures shared.contents == old(shared.contents).(valid := old(shared.contents.valid) && NoOff(old(modeQueue)))
    {
      ghost var w, queue, replies, was := View(), modeQueue, modeReplies, mode;
      RepliesAnswerQueue(was, queue);
      DrainLeaves(w, queue);
      while |modeQueue| > 0
        invariant PcduDrain(View(), modeQueue) == PcduDrain(w, queue)
        invariant modeReplies + PcduReplies(mode, modeQueue) == replies + PcduReplies(was, queue)
        decreases |modeQueue|
      {
        var msg := modeQueue[0];
        modeQueue := modeQueue[1..];
        match msg.request {
          case SetMode(m) => StartTransitionTo(msg.from, m);
          case ReadMode => modeReplies := modeReplies + [(msg.from, mode)];
          case AnnounceMode =>
          case ModeInfo =>
        }
      }
    }

    method HandleSwitchRequests()
      modifies this, switchQueue, com
      ensures View() == SwitchAll(old(View())) && mode == old(mode)
      ensures modeQueue == old(modeQueue) && modeReplies == old(modeReplies)
    {
      ghost var w := View();
      while |switchQueue.items| > 0
        invariant SwitchAll(View()) == SwitchAll(w) && mode == w.pcduMode
        invariant modeQueue == old(modeQueue) && modeReplies == old(modeReplies)
        decreases |switchQueue.items|
      {
        var r := switchQueue.items[0];
        switchQueue.items := switchQueue.items[1..];
        com.SwitchDevice(r);
        trace := trace + [HardwareSet(r.switch, r.state)];
      }
    }

    method PollAndHandleReplies()
      modifies com, shared
      ensures View() == PublishAll(old(View()))
    {
      ghost var w := View();
      while |com.replyDeque| > 0
        invariant PublishAll(View()) == PublishAll(w)
        decreases |com.replyDeque|
      {
        var snapshot := com.replyDeque[0];
        com.replyDeque := com.replyDeque[1..];
        shared.contents := SwitchSet(true, map s | s in snapshot :: ToState(snapshot[s]));
      }
    }

    method StartTransitionTo(from: Requestor, m: Mode)
      modifies this, shared
      ensures View() == PcduStartTransition(old(View()), m)
      ensures mode == m && modeQueue == old(modeQueue)
      ensures modeReplies == old(modeReplies) + if from.sender == PusModeService then [(from, m)] else []
    {
      mode := m;
      if m.mode == MODE_OFF {
        shared.contents := shared.contents.(valid := false);
      }
      if from.sender == PusModeService {
        modeReplies := modeReplies + [(from, mode)];
      }
    }
  }
}
