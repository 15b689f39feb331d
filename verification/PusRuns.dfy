/**
 The life of every request in every interleaving: one fold over the trace per request id, and
 the invariant that ties it to the active request map.
 */
module PusRuns {
  import opened Wrappers
  import opened PusSpec

  /**
   A request is outside, routed but not yet started, or started. `Broken` is where the fold
   ends up if the service does something out of order for that request.
   */
  datatype Phase = Outside | Pending | Running | Broken

  function Next(p: Phase, e: Event, id: RequestId): Phase {
    match e
    case Routed(i) => if i != id then p else if p == Outside then Pending else Broken
    case StartReport(i) => if i != id then p else if p == Pending then Running else Broken
    case StepReport(i, _) => if i != id then p else if p == Running then Running else Broken
    case CompletionReport(i) => if i != id then p else if p == Running then Outside else Broken
    case CompletionFailureReport(i, _, _) => if i != id then p else if p == Running then Outside else Broken
    case StepFailureReport(i, _, _, _) => if i != id then p else if p == Running then Outside else Broken
    case StartFailureReport(i, _) => if i != id then p else if p == Outside then Outside else Broken
    case RejectionReport(i, _, _) => if i != id then p else if p == Outside then Outside else Broken
    case Unrequested(i) => if i != id then p else if p == Outside then Outside else Broken
    case Forgotten(ids) => if id !in ids then p else if p == Running then Outside else Broken
  }

  function PhaseOf(trace: seq<Event>, id: RequestId): Phase {
    if trace == [] then Outside else Next(PhaseOf(trace[..|trace| - 1], id), trace[|trace| - 1], id)
  }

  lemma PhaseLog(s: Service, e: Event, id: RequestId)
    ensures PhaseOf(Log(s, e).trace, id) == Next(PhaseOf(s.trace, id), e, id)
  {
    assert (s.trace + [e])[..|s.trace|] == s.trace;
  }

  /** The phase that the program counter and the active map say a request is in. */
  function Expected(s: Service, id: RequestId): Phase {
    if s.pc.Routing? && s.pc.id == id then Pending
    else if s.pc.Inserting? && s.pc.id == id then Running
    else if id in s.active then Running
    else Outside
  }

  /** Map, program counter and trace agree on every request; entries hold started tokens. */
  ghost predicate Inv(s: Service) {
    && (forall id :: PhaseOf(s.trace, id) == Expected(s, id))
    && (forall id | id in s.active :: s.active[id].token == Started)
    && (s.pc.Routing? ==> s.pc.info.token == Accepted && s.pc.id !in s.active)
    && (s.pc.Inserting? ==> s.pc.info.token == Started && s.pc.id !in s.active)
  }

  lemma RejectKeeps(s: Service, id: RequestId, reason: Reason, data: seq<Byte>)
    requires Inv(s) && s.pc == Polling && id !in s.active
    ensures Inv(RejectConversion(s, id, reason, data)) && Inv(Log(s, RejectionReport(id, reason, data)))
  {
    hide PhaseOf;
    var s1 := Log(s, StartFailureReport(id, reason));
    forall i
      ensures PhaseOf(RejectConversion(s, id, reason, data).trace, i) == Expected(s, i)
      ensures PhaseOf(Log(s, RejectionReport(id, reason, data)).trace, i) == Expected(s, i)
    {
      assert PhaseOf(s.trace, i) == Expected(s, i);
      PhaseLog(s, StartFailureReport(id, reason), i);
      PhaseLog(s1, RejectionReport(id, reason, data), i);
      PhaseLog(s, RejectionReport(id, reason, data), i);
    }
  }

  lemma TakeTcKeeps(s: Service, now: nat, readable: bool, connected: bool)
    requires Inv(s) && s.pc == Polling && (s.tcs != [] ==> s.tcs[0].id !in s.active)
    ensures Inv(TakeTc(s, now, readable, connected))
  {
    hide PhaseOf, Convert, ToBigEndian;
    if s.tcs != [] && readable {
      var tc, s1 := s.tcs[0], s.(tcs := s.tcs[1..]);
      assert Inv(s1) by {
        assert forall id :: Expected(s1, id) == Expected(s, id);
      }
      match Convert(tc, now)
      case NotEnoughAppData(expected, found) =>
        RejectKeeps(s1, tc.id, NotEnoughAppDataCode, ToBigEndian(found, 4) + ToBigEndian(expected, 4));
      case InvalidSubservice(subservice) => RejectKeeps(s1, tc.id, InvalidPusSubservice, [subservice]);
      case Converted(info, request) =>
        RejectKeeps(s1, tc.id, UnknownTargetIdCode, ToBigEndian(info.target, 8));
        RejectKeeps(s1, tc.id, RoutingError, ToBigEndian(info.target, 8));
        RouteKeeps(s1, tc.id, info, request, now, tc);
    }
  }

  lemma RouteKeeps(s: Service, id: RequestId, info: ActiveRequest, request: ActionRequest, now: nat, tc: Tc)
    requires Inv(s) && s.pc == Polling && id !in s.active && Convert(tc, now) == Converted(info, request)
    ensures Inv(Log(s.(requests := s.requests + [(id, info.target, request)], pc := Routing(id, info)), Routed(id)))
  {
    hide PhaseOf;
    var s1 := s.(requests := s.requests + [(id, info.target, request)], pc := Routing(id, info));
    forall i ensures PhaseOf(Log(s1, Routed(id)).trace, i) == Expected(s1, i) {
      assert PhaseOf(s.trace, i) == Expected(s, i);
      PhaseLog(s1, Routed(id), i);
    }
  }

  lemma StartKeeps(s: Service)
    requires Inv(s)
    ensures s.pc.Routing? ==> Inv(ReportStart(s))
    ensures s.pc.Inserting? ==> Inv(InsertEntry(s))
  {
    hide PhaseOf;
    if s.pc.Routing? {
      var s1 := s.(pc := Inserting(s.pc.id, s.pc.info.(token := Started)));
      forall i ensures PhaseOf(ReportStart(s).trace, i) == Expected(s1, i) {
        assert PhaseOf(s.trace, i) == Expected(s, i);
        PhaseLog(s1, StartReport(s.pc.id), i);
      }
    }
    if s.pc.Inserting? {
      forall i ensures Expected(InsertEntry(s), i) == Expected(s, i) {
      }
    }
  }

  lemma HandleReplyKeeps(s: Service, r: Reply, sendFails: bool)
    requires Inv(s) && s.pc == Polling
    ensures Inv(HandleReply(s, r, sendFails))
  {
    hide PhaseOf;
    var s' := HandleReply(s, r, sendFails);
    var gone := s.(active := s.active - {r.id});
    var (report, finished) := ReportFor(r);
    forall i ensures PhaseOf(s'.trace, i) == Expected(s', i) {
      assert PhaseOf(s.trace, i) == Expected(s, i);
      PhaseLog(s, Unrequested(r.id), i);
      PhaseLog(gone, Forgotten({r.id}), i);
      if report.Some? {
        PhaseLog(s, report.value, i);
        PhaseLog(gone, report.value, i);
      }
    }
  }

  lemma TimeoutsKeep(s: Service, now: nat)
    requires Inv(s) && s.pc == Polling
    ensures Inv(CheckTimeouts(s, now))
  {
    hide PhaseOf;
    var gone := s.(active := s.active - Expired(s, now));
    forall i ensures PhaseOf(CheckTimeouts(s, now).trace, i) == Expected(gone, i) {
      assert PhaseOf(s.trace, i) == Expected(s, i);
      PhaseLog(gone, Forgotten(Expired(s, now)), i);
    }
  }

  lemma StepKeeps(s: Service, a: Action)
    requires Inv(s) && Enabled(s, a) && Fresh(s, a)
    ensures Inv(Perform(s, a))
  {
    hide PhaseOf;
    match a
    case DoTakeTc(now, readable, connected) => TakeTcKeeps(s, now, readable, connected);
    case DoReportStart => StartKeeps(s);
    case DoInsertEntry => StartKeeps(s);
    case DoPollReply(sendFails) =>
      if s.replies != [] {
        var s1 := s.(replies := s.replies[1..]);
        assert forall id :: Expected(s1, id) == Expected(s, id);
        HandleReplyKeeps(s1, s.replies[0], sendFails);
      }
    case DoCheckTimeouts(now) => TimeoutsKeep(s, now);
    case TcArrives(tc) =>
      assert forall id :: Expected(Perform(s, a), id) == Expected(s, id);
    case TargetReplies(reply) =>
      assert forall id :: Expected(Perform(s, a), id) == Expected(s, id);
  }

  /** Every state of every interleaving with distinct ids in flight satisfies the invariant. */
  lemma {:induction false} RunKeeps(states: seq<Service>, actions: seq<Action>, k: nat)
    requires IsRun(states, actions) && Initial(states[0]) && k < |states|
    requires forall i | 0 <= i < |actions| :: Fresh(states[i], actions[i])
    ensures Inv(states[k])
  {
    if k > 0 {
      RunKeeps(states, actions, k - 1);
      StepKeeps(states[k - 1], actions[k - 1]);
    }
  }

  // ------------------------------------------------------------- theorems

  /** The part of a trace that concerns one request. */
  predicate Concerns(e: Event, id: RequestId) {
    if e.Forgotten? then id in e.ids else e.id == id
  }

  lemma {:induction false} BrokenStays(trace: seq<Event>, id: RequestId, k: nat)
    requires PhaseOf(trace, id) != Broken && k <= |trace|
    ensures PhaseOf(trace[..k], id) != Broken
    decreases |trace|
  {
    if k < |trace| {
      BrokenStays(trace[..|trace| - 1], id, k);
      assert trace[..|trace| - 1][..k] == trace[..k];
    } else {
      assert trace[..k] == trace;
    }
  }

  /**
   In every interleaving, the reports for a request come in order: nothing after it was routed
   but the start report, then only step successes until one completion, step failure or silent
   removal, and nothing more until the id is routed anew. A reply is counted as unrequested
   only for a request that is not in flight, so never between its routing and its end, even if
   the target answers before the entry is in the map.
   */
  lemma ReportsComeInOrder(states: seq<Service>, actions: seq<Action>, k: nat, n: nat, id: RequestId)
    requires IsRun(states, actions) && Initial(states[0]) && k < |states|
    requires forall i | 0 <= i < |actions| :: Fresh(states[i], actions[i])
    requires n < |states[k].trace| && Concerns(states[k].trace[n], id)
    ensures var trace := states[k].trace; var before := PhaseOf(trace[..n], id);
      match trace[n]
      case Routed(_) => before == Outside
      case StartReport(_) => before == Pending
      case StepReport(_, _) => before == Running
      case CompletionReport(_) => before == Running
      case CompletionFailureReport(_, _, _) => before == Running
      case StepFailureReport(_, _, _, _) => before == Running
      case Forgotten(_) => before == Running
      case StartFailureReport(_, _) => before == Outside
      case RejectionReport(_, _, _) => before == Outside
      case Unrequested(_) => before == Outside
  {
    RunKeeps(states, actions, k);
    var trace := states[k].trace;
    assert PhaseOf(trace, id) == Expected(states[k], id);
    BrokenStays(trace, id, n + 1);
    assert trace[..n + 1][..n] == trace[..n];
  }

  /** How many events of a trace since its last routing of `id` satisfy a kind. */
  function StartsSinceRouted(trace: seq<Event>, id: RequestId): nat {
    if trace == [] then 0
    else
      var e, init := trace[|trace| - 1], trace[..|trace| - 1];
      if e == Routed(id) then 0
      else StartsSinceRouted(init, id) + if e == StartReport(id) then 1 else 0
  }

  predicate IsFinal(e: Event, id: RequestId) {
    || e == CompletionReport(id)
    || (e.CompletionFailureReport? && e.id == id)
    || (e.StepFailureReport? && e.id == id)
  }

  function FinalsSinceRouted(trace: seq<Event>, id: RequestId): nat {
    if trace == [] then 0
    else
      var e, init := trace[|trace| - 1], trace[..|trace| - 1];
      if e == Routed(id) then 0
      else FinalsSinceRouted(init, id) + if IsFinal(e, id) then 1 else 0
  }

  lemma {:induction false} CountsByPhase(trace: seq<Event>, id: RequestId)
    requires PhaseOf(trace, id) != Broken
    ensures PhaseOf(trace, id) == Pending ==> StartsSinceRouted(trace, id) == 0 && FinalsSinceRouted(trace, id) == 0
    ensures PhaseOf(trace, id) == Running ==> StartsSinceRouted(trace, id) == 1 && FinalsSinceRouted(trace, id) == 0
    ensures PhaseOf(trace, id) == Outside ==> StartsSinceRouted(trace, id) <= 1 && FinalsSinceRouted(trace, id) <= 1
  {
    if trace != [] {
      CountsByPhase(trace[..|trace| - 1], id);
    }
  }

  /** An entry of the active map has a started token, exactly one start report and no final one. */
  lemma ActiveEntriesAreStarted(states: seq<Service>, actions: seq<Action>, k: nat, id: RequestId)
    requires IsRun(states, actions) && Initial(states[0]) && k < |states|
    requires forall i | 0 <= i < |actions| :: Fresh(states[i], actions[i])
    requires id in states[k].active
    ensures states[k].active[id].token == Started
    ensures StartsSinceRouted(states[k].trace, id) == 1 && FinalsSinceRouted(states[k].trace, id) == 0
  {
    RunKeeps(states, actions, k);
    assert PhaseOf(states[k].trace, id) == Expected(states[k], id);
    CountsByPhase(states[k].trace, id);
  }

  /** How often a request id was reported as started. */
  function Starts(trace: seq<Event>, id: RequestId): nat {
    if trace == [] then 0
    else Starts(trace[..|trace| - 1], id) + if trace[|trace| - 1] == StartReport(id) then 1 else 0
  }

  /** How often a request id was ended: by a final report, or by leaving the map without one. */
  function Ends(trace: seq<Event>, id: RequestId): nat {
    if trace == [] then 0
    else
      var e := trace[|trace| - 1];
      Ends(trace[..|trace| - 1], id) + if IsFinal(e, id) || (e.Forgotten? && id in e.ids) then 1 else 0
  }

  /** Every start of a request is matched by an end or by the entry in the map. */
  predicate Balanced(s: Service, id: RequestId) {
    Starts(s.trace, id) == Ends(s.trace, id) + if Expected(s, id) == Running then 1 else 0
  }

  lemma CountsLog(s: Service, e: Event, id: RequestId)
    ensures var t := Log(s, e).trace;
      && Starts(t, id) == Starts(s.trace, id) + (if e == StartReport(id) then 1 else 0)
      && Ends(t, id) == Ends(s.trace, id) + (if IsFinal(e, id) || (e.Forgotten? && id in e.ids) then 1 else 0)
  {
    assert (s.trace + [e])[..|s.trace|] == s.trace;
  }

  /** The step routes a telecommand whose id is still in flight. */
  predicate Duplicates(s: Service, a: Action, id: RequestId)
    requires Enabled(s, a)
  {
    && id in s.active && a.DoTakeTc?
    && var s' := TakeTc(s, a.now, a.readable, a.connected); s'.pc.Routing? && s'.pc.id == id
  }

  /** In balance, and the request on its way into the map is not in it already. */
  predicate BalanceInv(s: Service, id: RequestId) {
    Balanced(s, id) && ((s.pc.Routing? || s.pc.Inserting?) && s.pc.id == id ==> id !in s.active)
  }

  lemma TakeTcBalances(s: Service, a: Action, id: RequestId)
    requires BalanceInv(s, id) && a.DoTakeTc? && Enabled(s, a) && !Duplicates(s, a, id)
    ensures BalanceInv(Perform(s, a), id)
  {
    hide Starts, Ends, Convert, ToBigEndian;
    if s.tcs != [] && a.readable {
      var tc, s1 := s.tcs[0], s.(tcs := s.tcs[1..]);
      var s' := Perform(s, a);
      var e := s'.trace[|s.trace|];
      CountsLog(s'.(trace := s.trace), e, id);
      if |s'.trace| == |s.trace| + 1 {
        assert s' == Log(s'.(trace := s.trace), e);
      } else {
        CountsLog(Log(s1, e), s'.trace[|s.trace| + 1], id);
        assert s' == Log(Log(s1, e), s'.trace[|s.trace| + 1]);
      }
    }
  }

  lemma ReplyBalances(s: Service, r: Reply, sendFails: bool, id: RequestId)
    requires BalanceInv(s, id) && s.pc == Polling
    ensures BalanceInv(HandleReply(s, r, sendFails), id)
  {
    hide Starts, Ends;
    var gone := s.(active := s.active - {r.id});
    CountsLog(s, Unrequested(r.id), id);
    CountsLog(gone, Forgotten({r.id}), id);
    var (report, finished) := ReportFor(r);
    if report.Some? {
      CountsLog(s, report.value, id);
      CountsLog(gone, report.value, id);
    }
  }

  lemma StepBalances(s: Service, a: Action, id: RequestId)
    requires BalanceInv(s, id) && Enabled(s, a) && !Duplicates(s, a, id)
    ensures BalanceInv(Perform(s, a), id)
  {
    hide Starts, Ends, HandleReply, TakeTc;
    match a
    case DoTakeTc(_, _, _) => TakeTcBalances(s, a, id);
    case DoReportStart =>
      CountsLog(s.(pc := Inserting(s.pc.id, s.pc.info.(token := Started))), StartReport(s.pc.id), id);
    case DoPollReply(sendFails) =>
      if s.replies != [] {
        ReplyBalances(s.(replies := s.replies[1..]), s.replies[0], sendFails, id);
      }
    case DoCheckTimeouts(now) => CountsLog(s.(active := s.active - Expired(s, now)), Forgotten(Expired(s, now)), id);
    case _ =>
  }

  lemma {:induction false} RunBalances(states: seq<Service>, actions: seq<Action>, k: nat, id: RequestId)
    requires IsRun(states, actions) && Initial(states[0]) && k < |states|
    requires forall i | 0 <= i < |actions| :: !Duplicates(states[i], actions[i], id)
    ensures BalanceInv(states[k], id)
  {
    hide Perform, Duplicates;
    if k > 0 {
      RunBalances(states, actions, k - 1, id);
      StepBalances(states[k - 1], actions[k - 1], id);
    }
  }

  lemma DuplicateUnbalances(s: Service, a: Action, id: RequestId)
    requires Enabled(s, a) && Duplicates(s, a, id) && Balanced(s, id)
    ensures !Balanced(Perform(s, a), id)
  {
    hide Starts, Ends, Convert;
    var s' := Perform(s, a);
    CountsLog(s'.(trace := s.trace), Routed(id), id);
    assert s' == Log(s'.(trace := s.trace), Routed(id));
  }

  /**
   In every interleaving, for each request id: every start report is matched by exactly one end or
   by the entry in the active map, throughout, exactly if no telecommand with that id is routed
   while the id is in flight. Rejected and unreadable telecommands make no difference.
   */
  lemma RequestsBalanceIff(states: seq<Service>, actions: seq<Action>, id: RequestId)
    requires IsRun(states, actions) && Initial(states[0])
    ensures (forall k | 0 <= k < |states| :: Balanced(states[k], id)) <==>
      forall i | 0 <= i < |actions| :: !Duplicates(states[i], actions[i], id)
  {
    hide Perform, Duplicates, Balanced;
    if forall i | 0 <= i < |actions| :: !Duplicates(states[i], actions[i], id) {
      forall k | 0 <= k < |states| ensures Balanced(states[k], id) {
        RunBalances(states, actions, k, id);
      }
    } else {
      var i :| 0 <= i < |actions| && Duplicates(states[i], actions[i], id);
      if Balanced(states[i], id) {
        DuplicateUnbalances(states[i], actions[i], id);
        assert states[i + 1] == Perform(states[i], actions[i]);
      }
    }
  }

  /** All that the service does with a telecommand it can handle. */
  function Handled(s: Service, now: nat): Service
    requires s.pc == Polling && Manageable(s, now)
  {
    InsertEntry(ReportStart(TakeTc(s, now, true, true)))
  }

  /** The next telecommand converts and has a known target. */
  predicate Manageable(s: Service, now: nat) {
    s.tcs != [] && Convert(s.tcs[0], now).Converted? && Convert(s.tcs[0], now).info.target in s.targets
  }

  lemma HandledTrace(s: Service, now: nat)
    requires s.pc == Polling && Manageable(s, now)
    ensures var s', id := Handled(s, now), s.tcs[0].id;
      && s'.trace == s.trace + [Routed(id), StartReport(id)] && s'.pc == Polling && s'.replies == s.replies
      && s'.active.Keys == s.active.Keys + {id} && |s'.requests| == |s.requests| + 1
  {
    hide Convert;
  }

  /**
   Handling a telecommand keeps starts and ends in balance exactly if its id is not in flight. If
   it is, one more request is started, but there is still only the one entry.
   */
  lemma BalanceNeedsDistinctIds(s: Service, now: nat)
    requires s.pc == Polling && Manageable(s, now) && Balanced(s, s.tcs[0].id)
    ensures var s', id := Handled(s, now), s.tcs[0].id;
      && (Balanced(s', id) <==> id !in s.active)
      && |s'.active| == |s.active| + if id in s.active then 0 else 1
  {
    hide Handled, Convert, Starts, Ends, ToBigEndian;
    var id, s' := s.tcs[0].id, Handled(s, now);
    HandledTrace(s, now);
    OneMoreStart(s.trace, id);
    assert id in s'.active;
    assert |s'.active.Keys| == |s.active.Keys + {id}|;
    if id in s.active {
      assert s.active.Keys + {id} == s.active.Keys;
    }
  }

  lemma OneMoreStart(trace: seq<Event>, id: RequestId)
    ensures var t := trace + [Routed(id), StartReport(id)];
      Starts(t, id) == Starts(trace, id) + 1 && Ends(t, id) == Ends(trace, id)
  {
    var t1 := trace + [Routed(id)];
    var t2 := t1 + [StartReport(id)];
    assert t1[..|trace|] == trace && t2[..|t1|] == t1;
    assert t2 == trace + [Routed(id), StartReport(id)];
  }

  predicate Finishes(v: ReplyVariant) {
    v.Completed? || v.CompletionFailed? || v.StepFailed?
  }

  /**
   What a duplicate does: both targets work on a request and answer it, but of their two answers
   only the first is reported, for both, and the second is taken for unrequested.
   */
  lemma DuplicateLosesAReport(s: Service, now: nat, first: ReplyVariant, second: ReplyVariant)
    requires s.pc == Polling && Manageable(s, now) && s.tcs[0].id in s.active
    requires s.replies == [Reply(s.tcs[0].id, first), Reply(s.tcs[0].id, second)] && Finishes(first)
    ensures var id := s.tcs[0].id; var s' := PollReply(PollReply(Handled(s, now), false), false);
      && s'.trace == s.trace + [Routed(id), StartReport(id), ReportFor(Reply(id, first)).0.value, Unrequested(id)]
      && |s'.requests| == |s.requests| + 1 && id !in s'.active
  {
    hide Handled, Convert;
    HandledTrace(s, now);
  }

  /** Whether a step ends a request without telling anyone. */
  predicate Silences(s: Service, a: Action, id: RequestId) {
    || (a.DoCheckTimeouts? && id in s.active && a.now > s.active[id].startTime + 30)
    || (a.DoPollReply? && a.sendFails && s.replies != [] && s.replies[0].id == id
      && s.replies[0].variant != OtherVariant)
  }

  /**
   An active request leaves the map in a step exactly if that step makes a final report for it,
   or comes more than thirty seconds after the request was taken, or fails to send a report. In the
   last two cases there never is a report.
   */
  lemma LeavesMapIff(s: Service, a: Action, id: RequestId)
    requires Inv(s) && Enabled(s, a) && Fresh(s, a) && id in s.active
    ensures var s' := Perform(s, a);
      && (id !in s'.active <==> Silences(s, a, id) || (|s'.trace| > |s.trace| && IsFinal(s'.trace[|s'.trace| - 1], id)))
      && !(Silences(s, a, id) && |s'.trace| > |s.trace| && IsFinal(s'.trace[|s'.trace| - 1], id))
  {
    hide PhaseOf;
  }

  /** What targets and packet sources do in the middle of telecommand handling does not disturb it. */
  lemma ArrivalsCommute(s: Service, arrival: Action, step: Action)
    requires arrival.TcArrives? || arrival.TargetReplies?
    requires step == DoReportStart || step == DoInsertEntry
    requires Enabled(s, step)
    ensures Enabled(Perform(s, arrival), step)
    ensures Perform(Perform(s, arrival), step) == Perform(Perform(s, step), arrival)
  {
  }

  /** The data of a failure report is that of its parameters, unless there are none within reach. */
  predicate CarriesParams(data: seq<Byte>, params: Option<ErrorParams>) {
    match params
    case None => data == []
    case Some(p) =>
      data == (if p.Heapless? then p.written else if p.Vec? then p.bytes else if p.Text? then p.utf8 else [])
  }

  /** The kind of report a reply deserves: success or failure, with its step and code. */
  predicate Answers(e: Event, r: Reply) {
    match e
    case CompletionReport(id) => id == r.id && r.variant == Completed
    case StepReport(id, step) => id == r.id && r.variant == StepSuccess(step)
    case CompletionFailureReport(id, code, data) =>
      && id == r.id && r.variant.CompletionFailed? && r.variant.code == code && CarriesParams(data, r.variant.params)
    case StepFailureReport(id, step, code, data) =>
      && id == r.id && r.variant.StepFailed? && r.variant.step == step && r.variant.code == code
      && CarriesParams(data, r.variant.params)
    case _ => false
  }

  /**
   Every reply taken from the queue is accounted for by exactly one event: the report that
   answers it, or the mark that it was unrequested, or that its report could not be sent.
   Only variants that are not known to the service leave no event.
   */
  lemma RepliesAreAccountedFor(s: Service, sendFails: bool)
    requires s.pc == Polling && s.replies != []
    ensures var r, s' := s.replies[0], PollReply(s, sendFails);
      && s'.replies == s.replies[1..]
      && (s'.trace == s.trace <==> r.id in s.active && r.variant == OtherVariant)
      && (s'.trace != s.trace ==> |s'.trace| == |s.trace| + 1)
      && (s'.trace != s.trace && r.id !in s.active ==> s'.trace[|s.trace|] == Unrequested(r.id))
      && (s'.trace != s.trace && r.id in s.active && sendFails ==> s'.trace[|s.trace|] == Forgotten({r.id}))
      && (s'.trace != s.trace && r.id in s.active && !sendFails ==> Answers(s'.trace[|s.trace|], r))
  {
  }
}
