/**
 What becomes of telecommands: who gets which request, what is remembered of it, and what is
 reported where there is no request. Over every interleaving of the service with its targets.
 */
module PusRouting {
  import opened Wrappers
  import opened PusSpec
  import opened PusRuns

  /** A telecommand for an action of a component, as the ground writes it. */
  function Commanding(id: RequestId, apid: nat, unique: nat, actionId: nat, payload: seq<Byte>): Tc {
    Tc(id, apid, 128, ToBigEndian(unique, 4) + ToBigEndian(actionId, 4) + payload)
  }

  /**
   Handling a telecommand for a known target puts one request into the queue of just that target,
   with the action and the payload it was built with, reports its start, and remembers target,
   action and time under its id. Nothing else changes.
   */
  lemma TelecommandReachesTarget(s: Service, now: nat, id: RequestId, apid: nat, unique: nat, actionId: nat,
                                 payload: seq<Byte>)
    requires unique < 0x1_0000_0000 && actionId < 0x1_0000_0000
    requires s.pc == Polling && s.tcs != [] && s.tcs[0] == Commanding(id, apid, unique, actionId, payload)
    requires apid * 0x1_0000_0000 + unique in s.targets
    ensures Manageable(s, now)
    ensures var target := apid * 0x1_0000_0000 + unique;
      Handled(s, now) == s.(
        tcs := s.tcs[1..],
        requests := s.requests + [(id, target, ActionRequest(actionId, if payload == [] then None else Some(payload)))],
        active := s.active[id := ActiveRequest(actionId, target, Started, now)],
        trace := s.trace + [Routed(id), StartReport(id)])
  {
    ConversionRoundTrip(id, apid, unique, actionId, payload, now);
    hide Convert, ToBigEndian;
  }

  // ------------------------------------------------- telecommands in general

  function ActionOf(tc: Tc): nat
    requires |tc.data| >= 8
  {
    FromBigEndian(tc.data[4..8])
  }

  /** The step takes a telecommand that asks for exactly this request, from a component that is known. */
  predicate Commands(s: Service, a: Action, r: (RequestId, ComponentId, ActionRequest)) {
    && a.DoTakeTc? && a.readable && a.connected && s.tcs != []
    && var tc := s.tcs[0];
       && tc.id == r.0 && |tc.data| >= 8 && tc.subservice == 128
       && r.1 == tc.apid * 0x1_0000_0000 + FromBigEndian(tc.data[..4]) && r.1 in s.targets
       && r.2.actionId == ActionOf(tc) && (if r.2.data.None? then |tc.data| == 8 else r.2.data.value == tc.data[8..])
  }

  /** The step takes the telecommand that an entry was made for. */
  predicate Opens(s: Service, a: Action, id: RequestId, e: ActiveRequest) {
    && a.DoTakeTc? && a.now == e.startTime && s.tcs != []
    && var tc := s.tcs[0];
       && tc.id == id && |tc.data| >= 8 && tc.subservice == 128
       && e.target == tc.apid * 0x1_0000_0000 + FromBigEndian(tc.data[..4]) && e.target in s.targets
       && e.actionId == ActionOf(tc)
  }

  /** The only step that queues a request is one that takes the telecommand for it. */
  lemma StepQueues(s: Service, a: Action)
    requires Enabled(s, a)
    ensures var s' := Perform(s, a);
      || s'.requests == s.requests
      || (|s'.requests| == |s.requests| + 1 && s'.requests[..|s.requests|] == s.requests
          && Commands(s, a, s'.requests[|s.requests|]))
  {
    hide FromBigEndian, ToBigEndian;
  }

  /**
   In every interleaving, every request in the queue of a target is there because a telecommand was
   taken that names this target, action and payload.
   */
  lemma {:induction false} EveryRequestWasCommanded(states: seq<Service>, actions: seq<Action>, k: nat, j: nat)
    requires IsRun(states, actions) && Initial(states[0]) && k < |states| && j < |states[k].requests|
    ensures exists i :: 0 <= i < k && Commands(states[i], actions[i], states[k].requests[j])
  {
    hide Perform, Commands;
    StepQueues(states[k - 1], actions[k - 1]);
    if j < |states[k - 1].requests| {
      EveryRequestWasCommanded(states, actions, k - 1, j);
      assert states[k].requests[j] == states[k - 1].requests[j];
    }
  }

  /** What the service is about to remember, or remembers, for a request. */
  predicate Holds(s: Service, id: RequestId, e: ActiveRequest) {
    || (id in s.active && s.active[id] == e)
    || (s.pc.Routing? && s.pc.id == id && s.pc.info == e)
    || (s.pc.Inserting? && s.pc.id == id && s.pc.info == e)
  }

  lemma StepHolds(s: Service, a: Action, id: RequestId, e: ActiveRequest)
    requires Enabled(s, a) && Holds(Perform(s, a), id, e)
    ensures Opens(s, a, id, e) || exists token :: Holds(s, id, e.(token := token))
  {
    hide FromBigEndian, ToBigEndian;
    if !Opens(s, a, id, e) {
      var token := if a.DoReportStart? && s.pc.id == id && !(id in s.active && s.active[id] == e)
        then s.pc.info.token else e.token;
      assert Holds(s, id, e.(token := token));
    }
  }

  /**
   In every interleaving, an entry of the active map names the target and action of a telecommand
   with its id, and the time at which that was taken.
   */
  lemma {:induction false} EveryEntryWasCommanded(states: seq<Service>, actions: seq<Action>, k: nat, id: RequestId,
                                                  e: ActiveRequest)
    requires IsRun(states, actions) && Initial(states[0]) && k < |states| && Holds(states[k], id, e)
    ensures exists i :: 0 <= i < k && Opens(states[i], actions[i], id, e)
  {
    hide Perform, Opens;
    if k > 0 {
      StepHolds(states[k - 1], actions[k - 1], id, e);
      if !Opens(states[k - 1], actions[k - 1], id, e) {
        var token :| Holds(states[k - 1], id, e.(token := token));
        EveryEntryWasCommanded(states, actions, k - 1, id, e.(token := token));
        var i :| 0 <= i < k - 1 && Opens(states[i], actions[i], id, e.(token := token));
        OpensAnyToken(states[i], actions[i], id, e, token);
      }
    }
  }

  lemma OpensAnyToken(s: Service, a: Action, id: RequestId, e: ActiveRequest, token: Token)
    requires Opens(s, a, id, e.(token := token))
    ensures Opens(s, a, id, e)
  {
  }

  function RequestIds(requests: seq<(RequestId, ComponentId, ActionRequest)>): seq<RequestId> {
    if requests == [] then [] else RequestIds(requests[..|requests| - 1]) + [requests[|requests| - 1].0]
  }

  function RoutedIds(trace: seq<Event>): seq<RequestId> {
    if trace == [] then []
    else
      var e := trace[|trace| - 1];
      RoutedIds(trace[..|trace| - 1]) + if e.Routed? then [e.id] else []
  }

  lemma RoutedLog(s: Service, e: Event)
    ensures RoutedIds(Log(s, e).trace) == RoutedIds(s.trace) + if e.Routed? then [e.id] else []
  {
    assert (s.trace + [e])[..|s.trace|] == s.trace;
  }

  lemma StepRoutes(s: Service, a: Action)
    requires Enabled(s, a) && RequestIds(s.requests) == RoutedIds(s.trace)
    ensures var s' := Perform(s, a); RequestIds(s'.requests) == RoutedIds(s'.trace)
  {
    hide RequestIds, RoutedIds, Convert, ToBigEndian;
    var s' := Perform(s, a);
    if |s'.trace| > |s.trace| {
      var e := s'.trace[|s.trace|];
      RoutedLog(s, e);
      if |s'.trace| == |s.trace| + 1 {
        assert s'.trace == Log(s, e).trace;
      } else {
        RoutedLog(Log(s, e), s'.trace[|s.trace| + 1]);
        assert s'.trace == Log(Log(s, e), s'.trace[|s.trace| + 1]).trace;
      }
    }
    if |s'.requests| > |s.requests| {
      OneMoreId(s.requests, s'.requests[|s.requests|]);
    }
  }

  lemma OneMoreId(requests: seq<(RequestId, ComponentId, ActionRequest)>, r: (RequestId, ComponentId, ActionRequest))
    ensures RequestIds(requests + [r]) == RequestIds(requests) + [r.0]
  {
    assert (requests + [r])[..|requests|] == requests;
  }

  /** In every interleaving, the requests queued are those marked as routed, in that order. */
  lemma {:induction false} RequestsAreThoseRouted(states: seq<Service>, actions: seq<Action>, k: nat)
    requires IsRun(states, actions) && Initial(states[0]) && k < |states|
    ensures RequestIds(states[k].requests) == RoutedIds(states[k].trace)
  {
    hide Perform;
    if k > 0 {
      RequestsAreThoseRouted(states, actions, k - 1);
      StepRoutes(states[k - 1], actions[k - 1]);
    }
  }

  // -------------------------------------------------- those not routed

  /** The reports for a telecommand that is not routed: a lone one where its target cannot be reached. */
  predicate Rejects(reports: seq<Event>, id: RequestId, reason: Reason, data: seq<Byte>) {
    && |reports| > 0 && reports[|reports| - 1] == RejectionReport(id, reason, data)
    && if reason == UnknownTargetIdCode || reason == RoutingError then |reports| == 1
       else |reports| == 2 && reports[0] == StartFailureReport(id, reason)
  }

  /**
   A telecommand that can be read is rejected exactly for one of four reasons, in this order, and
   with what was wrong in the report. Then no request is queued and nothing is remembered.
   */
  lemma RejectedIff(s: Service, now: nat, connected: bool)
    requires s.pc == Polling && s.tcs != []
    ensures var tc, s' := s.tcs[0], TakeTc(s, now, true, connected);
      var target := if |tc.data| < 8 then 0 else tc.apid * 0x1_0000_0000 + FromBigEndian(tc.data[..4]);
      && s.trace <= s'.trace && s'.tcs == s.tcs[1..]
      && var reports := s'.trace[|s.trace|..];
         if |tc.data| < 8
           then Rejects(reports, tc.id, NotEnoughAppDataCode, ToBigEndian(|tc.data|, 4) + ToBigEndian(8, 4))
         else if tc.subservice != 128 then Rejects(reports, tc.id, InvalidPusSubservice, [tc.subservice])
         else if target !in s.targets then Rejects(reports, tc.id, UnknownTargetIdCode, ToBigEndian(target, 8))
         else if !connected then Rejects(reports, tc.id, RoutingError, ToBigEndian(target, 8))
         else reports == [Routed(tc.id)]
    ensures var tc, s' := s.tcs[0], TakeTc(s, now, true, connected);
      s'.pc == Polling ==> s' == s.(tcs := s.tcs[1..], trace := s'.trace)
  {
    hide FromBigEndian, ToBigEndian;
  }
}
