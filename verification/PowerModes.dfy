/**
 The PCDU handler's own mode requests: what it answers to a queue of them, and what mode and
 switch set they leave behind, each read off the queue itself.
 */
module PowerModes {
  import opened Wrappers
  import opened PowerSpec

  predicate SetsMode(m: ModeMessage) {
    m.request.SetMode?
  }

  /** The last mode command among the first `i` requests; -1 if there is none. */
  function LastCommand(queue: seq<ModeMessage>, i: nat): (j: int)
    requires i <= |queue|
    ensures -1 <= j < i
    ensures j >= 0 ==> SetsMode(queue[j])
    ensures forall k | j < k < i :: !SetsMode(queue[k])
  {
    if i == 0 then -1 else if SetsMode(queue[i - 1]) then i - 1 else LastCommand(queue, i - 1)
  }

  /** The mode that a handler starting out in `mode` is in after the first `i` requests. */
  function ModeAfter(mode: Mode, queue: seq<ModeMessage>, i: nat): Mode
    requires i <= |queue|
  {
    var j := LastCommand(queue, i);
    if j < 0 then mode else queue[j].request.mode
  }

  /** Requests that are answered: every read, and commands of the PUS mode service. */
  predicate IsAnswered(m: ModeMessage) {
    m.request.ReadMode? || (m.request.SetMode? && m.from.sender == PusModeService)
  }

  function AnswersTo(queue: seq<ModeMessage>, i: nat): nat
    requires i <= |queue|
  {
    if i == 0 then 0 else AnswersTo(queue, i - 1) + if IsAnswered(queue[i - 1]) then 1 else 0
  }

  lemma {:induction false} AnswersGrow(queue: seq<ModeMessage>, i: nat, j: nat)
    requires i < j <= |queue|
    ensures AnswersTo(queue, i) + (if IsAnswered(queue[i]) then 1 else 0) <= AnswersTo(queue, j)
  {
    if i + 1 < j {
      AnswersGrow(queue, i, j - 1);
    }
  }

  /**
   One reply per request that is answered, in the order of the queue, and to whoever asked: to a
   read with the mode of the last command before it, to a command with its own mode.
   */
  ghost predicate AnswersQueue(mode: Mode, queue: seq<ModeMessage>, replies: seq<(Requestor, Mode)>) {
    && |replies| == AnswersTo(queue, |queue|)
    && forall i | 0 <= i < |queue| && IsAnswered(queue[i]) ::
      && AnswersTo(queue, i) < |replies|
      && replies[AnswersTo(queue, i)] ==
           (queue[i].from, if SetsMode(queue[i]) then queue[i].request.mode else ModeAfter(mode, queue, i))
  }

  /** Nothing in the queue switches the handler off. */
  ghost predicate NoOff(queue: seq<ModeMessage>) {
    forall i | 0 <= i < |queue| :: SetsMode(queue[i]) ==> queue[i].request.mode.mode != MODE_OFF
  }

  // ----------------------------------------------- the last request first

  function ReplyIn(mode: Mode, m: ModeMessage): seq<(Requestor, Mode)> {
    match m.request
    case SetMode(to) => if m.from.sender == PusModeService then [(m.from, to)] else []
    case ReadMode => [(m.from, mode)]
    case _ => []
  }

  lemma {:induction false} PrefixCounts(a: seq<ModeMessage>, b: seq<ModeMessage>, i: nat)
    requires i <= |a| <= |b| && b[..|a|] == a
    ensures AnswersTo(a, i) == AnswersTo(b, i) && LastCommand(a, i) == LastCommand(b, i)
  {
    if i > 0 {
      assert a[i - 1] == b[i - 1];
      PrefixCounts(a, b, i - 1);
    }
  }

  lemma {:induction false} ShiftedMode(mode: Mode, queue: seq<ModeMessage>, i: nat)
    requires 0 < i <= |queue|
    ensures ModeAfter(mode, queue, i) ==
      ModeAfter(if SetsMode(queue[0]) then queue[0].request.mode else mode, queue[1..], i - 1)
  {
    if i > 1 {
      ShiftedMode(mode, queue, i - 1);
      assert queue[i - 1] == queue[1..][i - 2];
    }
  }

  lemma {:induction false} RepliesLast(mode: Mode, queue: seq<ModeMessage>, m: ModeMessage)
    ensures PcduReplies(mode, queue + [m]) ==
      PcduReplies(mode, queue) + ReplyIn(ModeAfter(mode, queue, |queue|), m)
    decreases |queue|
  {
    if queue == [] {
      assert ([] + [m])[1..] == [];
    } else {
      assert (queue + [m])[1..] == queue[1..] + [m];
      var next := if SetsMode(queue[0]) then queue[0].request.mode else mode;
      ShiftedMode(mode, queue, |queue|);
      RepliesLast(next, queue[1..], m);
    }
  }

  /** What the handler replies is what the queue calls for. */
  lemma {:induction false} RepliesAnswerQueue(mode: Mode, queue: seq<ModeMessage>)
    ensures AnswersQueue(mode, queue, PcduReplies(mode, queue))
    decreases |queue|
  {
    if queue != [] {
      var n := |queue| - 1;
      var init, m := queue[..n], queue[n];
      assert init + [m] == queue;
      RepliesAnswerQueue(mode, init);
      RepliesLast(mode, init, m);
      OneMoreAnswer(mode, init, m, PcduReplies(mode, init));
    }
  }

  lemma OneMoreAnswer(mode: Mode, queue: seq<ModeMessage>, m: ModeMessage, replies: seq<(Requestor, Mode)>)
    requires AnswersQueue(mode, queue, replies)
    ensures AnswersQueue(mode, queue + [m], replies + ReplyIn(ModeAfter(mode, queue, |queue|), m))
  {
    var all, told := queue + [m], replies + ReplyIn(ModeAfter(mode, queue, |queue|), m);
    PrefixCounts(queue, all, |queue|);
    forall i | 0 <= i < |all| && IsAnswered(all[i])
      ensures AnswersTo(all, i) < |told|
      ensures told[AnswersTo(all, i)] ==
        (all[i].from, if SetsMode(all[i]) then all[i].request.mode else ModeAfter(mode, all, i))
    {
      if i < |queue| {
        assert all[i] == queue[i];
        PrefixCounts(queue, all, i);
        var j := LastCommand(queue, i);
        assert j >= 0 ==> all[j] == queue[j];
      } else {
        var j := LastCommand(queue, |queue|);
        assert j >= 0 ==> all[j] == queue[j];
      }
    }
  }

  /** The mode left behind is that of the last command, and the switch set stays valid unless one was for Off. */
  lemma {:induction false} DrainLeaves(w: World, queue: seq<ModeMessage>)
    ensures PcduDrain(w, queue) ==
      w.(pcduMode := ModeAfter(w.pcduMode, queue, |queue|),
         shared := w.shared.(valid := w.shared.valid && NoOff(queue)))
    decreases |queue|
  {
    if queue != [] {
      var w1 := if SetsMode(queue[0]) then PcduStartTransition(w, queue[0].request.mode) else w;
      DrainLeaves(w1, queue[1..]);
      ShiftedMode(w.pcduMode, queue, |queue|);
      assert NoOff(queue) <==> NoOff(queue[1..]) && (SetsMode(queue[0]) ==> queue[0].request.mode.mode != MODE_OFF) by {
        assert forall i | 0 < i < |queue| :: queue[i] == queue[1..][i - 1];
      }
    }
  }
}
