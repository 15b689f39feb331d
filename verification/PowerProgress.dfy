/**
 When a mode command that has asked for its switch can still be completed by what the handlers and
 the hardware do on their own, and when it waits for good.
 */
module PowerProgress {
  import opened Wrappers
  import opened PowerSpec
  import opened PowerRuns

  /** A step that needs no new command or request from outside, and no loss of the PCDU. */
  predicate Unprompted(a: Action) {
    a in {MgmCheck, MgmFinish, PcduSwitch, PcduPoll, PcduPublish}
  }

  ghost predicate AllUnprompted(steps: seq<Action>) {
    forall i | 0 <= i < |steps| :: Unprompted(steps[i])
  }

  /** Some such steps, in some order, complete the transition. */
  ghost predicate CanComplete(w: World) {
    exists steps :: AllUnprompted(steps) && Completes(w, steps)
  }

  predicate Completes(w: World, steps: seq<Action>) {
    PerformAll(w, steps).Some? && PerformAll(w, steps).value.mgm.target.None?
  }

  predicate Waiting(w: World) {
    InTransition(w) && w.mgm.transition == PowerSwitching
  }

  ghost predicate SnapshotShowsOn(w: World) {
    exists i :: 0 <= i < |w.hardwareReplies| && ShowsOn(w.hardwareReplies[i])
  }

  /** The published set, a snapshot under way, or an operational PCDU's hardware or queue has the switch on. */
  ghost predicate OnIsComing(w: World) {
    || (w.shared.valid && SetShowsOn(w.shared))
    || SnapshotShowsOn(w)
    || (Operational(w.pcduMode) && (ShowsOn(w.hardware) || TurnOn in w.switchQueue))
  }

  // ------------------------------------------------------- without it, never

  lemma NothingComes(w: World, a: Action)
    requires Waiting(w) && !OnIsComing(w) && Unprompted(a) && Enabled(w, a) && !Panics(w, a)
    ensures Waiting(Perform(w, a)) && !OnIsComing(Perform(w, a))
  {
    var w' := Perform(w, a);
    match a
    case PcduPublish =>
      SnapshotTaken(w, w');
    case PcduPoll =>
      if Operational(w.pcduMode) {
        SnapshotAdded(w, w');
      }
    case _ =>
  }

  lemma SnapshotTaken(w: World, w': World)
    requires w.hardwareReplies != [] && w'.hardwareReplies == w.hardwareReplies[1..]
    ensures SnapshotShowsOn(w) <==> ShowsOn(w.hardwareReplies[0]) || SnapshotShowsOn(w')
  {
    forall i | 0 <= i < |w'.hardwareReplies| ensures w'.hardwareReplies[i] == w.hardwareReplies[i + 1] {
    }
    forall i | 0 < i < |w.hardwareReplies| ensures w.hardwareReplies[i] == w'.hardwareReplies[i - 1] {
    }
  }

  lemma SnapshotAdded(w: World, w': World)
    requires w'.hardwareReplies == w.hardwareReplies + [w.hardware]
    ensures SnapshotShowsOn(w') <==> SnapshotShowsOn(w) || ShowsOn(w.hardware)
  {
    assert w'.hardwareReplies[|w.hardwareReplies|] == w.hardware;
    forall i | 0 <= i < |w.hardwareReplies| ensures w'.hardwareReplies[i] == w.hardwareReplies[i] {
    }
  }

  lemma {:induction false} NeverCompletes(w: World, steps: seq<Action>)
    requires Waiting(w) && !OnIsComing(w) && AllUnprompted(steps)
    ensures !Completes(w, steps)
    decreases |steps|
  {
    hide OnIsComing, Perform;
    if steps != [] && Enabled(w, steps[0]) && !Panics(w, steps[0]) {
      NothingComes(w, steps[0]);
      NeverCompletes(Perform(w, steps[0]), steps[1..]);
    }
  }

  // ------------------------------------------------------- with it, soon

  /** Do a step first. */
  lemma StepFirst(w: World, a: Action)
    requires Unprompted(a) && Enabled(w, a) && !Panics(w, a) && CanComplete(Perform(w, a))
    ensures CanComplete(w)
  {
    hide Perform;
    var steps :| AllUnprompted(steps) && Completes(Perform(w, a), steps);
    PerformPrefix(w, a, steps);
    assert AllUnprompted([a] + steps) && Completes(w, [a] + steps);
  }

  lemma CompletesWhenShown(w: World)
    requires Waiting(w) && w.shared.valid && SetShowsOn(w.shared)
    ensures CanComplete(w)
  {
    var w1 := Perform(w, MgmCheck);
    var w2 := Perform(w1, MgmFinish);
    assert AllUnprompted([]) && Completes(w2, []);
    StepFirst(w1, MgmFinish);
    StepFirst(w, MgmCheck);
  }

  lemma {:induction false} CompletesFromSnapshot(w: World, i: nat)
    requires Waiting(w) && i < |w.hardwareReplies| && ShowsOn(w.hardwareReplies[i])
    ensures CanComplete(w)
    decreases i
  {
    var w1 := Perform(w, PcduPublish);
    if i == 0 {
      CompletesWhenShown(w1);
    } else {
      CompletesFromSnapshot(w1, i - 1);
    }
    StepFirst(w, PcduPublish);
  }

  lemma CompletesFromHardware(w: World)
    requires Waiting(w) && Operational(w.pcduMode) && ShowsOn(w.hardware)
    ensures CanComplete(w)
  {
    var w1 := Perform(w, PcduPoll);
    CompletesFromSnapshot(w1, |w.hardwareReplies|);
    StepFirst(w, PcduPoll);
  }

  lemma {:induction false} CompletesFromQueue(w: World, i: nat)
    requires Waiting(w) && Operational(w.pcduMode) && i < |w.switchQueue| && w.switchQueue[i] == TurnOn
    ensures CanComplete(w)
    decreases i
  {
    var w1 := Perform(w, PcduSwitch);
    if i == 0 {
      CompletesFromHardware(w1);
    } else {
      CompletesFromQueue(w1, i - 1);
    }
    StepFirst(w, PcduSwitch);
  }

  /**
   A mode command that waits for its switch can be completed by the handlers and the hardware on
   their own exactly if On is coming: otherwise it waits for good, or until someone else asks.
   */
  lemma CompletesIffOnIsComing(w: World)
    requires Waiting(w)
    ensures CanComplete(w) <==> OnIsComing(w)
  {
    if OnIsComing(w) {
      if w.shared.valid && SetShowsOn(w.shared) {
        CompletesWhenShown(w);
      } else if SnapshotShowsOn(w) {
        var i :| 0 <= i < |w.hardwareReplies| && ShowsOn(w.hardwareReplies[i]);
        CompletesFromSnapshot(w, i);
      } else if ShowsOn(w.hardware) {
        CompletesFromHardware(w);
      } else {
        var i :| 0 <= i < |w.switchQueue| && w.switchQueue[i] == TurnOn;
        CompletesFromQueue(w, i);
      }
    } else if CanComplete(w) {
      var steps :| AllUnprompted(steps) && Completes(w, steps);
      NeverCompletes(w, steps);
      assert false;
    }
  }

  /**
   What asking for the switch is worth: with room in the queue and an operational PCDU the command
   can always be completed; a request lost to a full queue leaves it to what was coming anyway.
   */
  lemma AskingCompletesIff(w: World, queueFull: bool)
    requires InTransition(w) && w.mgm.transition == Idle
    ensures CanComplete(SendSwitchOn(w, queueFull)) <==>
      OnIsComing(w) || (!queueFull && Operational(w.pcduMode))
  {
    var w' := SendSwitchOn(w, queueFull);
    CompletesIffOnIsComing(w');
    assert SnapshotShowsOn(w') <==> SnapshotShowsOn(w);
    if !queueFull {
      assert w'.switchQueue[|w.switchQueue|] == TurnOn;
      assert TurnOn in w'.switchQueue;
    }
  }
}
