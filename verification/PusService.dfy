/**
 The service object with its polling methods. Each method is the composition of the service
 thread's steps, and keeps what the runs of those steps keep.
 */
module PusService {
  import opened Wrappers
  import opened PusSpec
  import opened PusRuns

  datatype TcResult = Empty | HandledOne | ReadError | ConversionError(conversion: Conversion) | UnknownTargetId
    | SendError

  datatype ReplyResult = NoReply | Handled | ReportFailed

  /** Why a telecommand ends the way it does. */
  function TcResultOf(tc: Tc, targets: set<ComponentId>, now: nat, readable: bool, connected: bool): TcResult {
    if !readable then ReadError
    else
      match Convert(tc, now)
      case Converted(info, _) => if info.target !in targets then UnknownTargetId else if !connected then SendError
        else HandledOne
      case failure => ConversionError(failure)
  }

  /** What the caller is told agrees with what was reported. */
  predicate Told(r: TcResult, reports: seq<Event>) {
    match r
    case Empty => reports == []
    case ReadError => reports == []
    case HandledOne => |reports| == 2 && reports[0].Routed? && reports[1].StartReport?
    case ConversionError(_) => |reports| == 2 && reports[0].StartFailureReport?
    case UnknownTargetId => |reports| == 1 && reports[0].RejectionReport? && reports[0].reason == UnknownTargetIdCode
    case SendError => |reports| == 1 && reports[0].RejectionReport? && reports[0].reason == RoutingError
  }

  /** The state after handling a telecommand. */
  function AfterTc(s: Service, now: nat, readable: bool, connected: bool): Service
    requires s.pc == Polling
  {
    var s := TakeTc(s, now, readable, connected);
    if s.pc.Routing? then InsertEntry(ReportStart(s)) else s
  }

  lemma AfterTcKeeps(s: Service, now: nat, readable: bool, connected: bool)
    requires Inv(s) && s.pc == Polling && (s.tcs != [] ==> s.tcs[0].id !in s.active)
    ensures Inv(AfterTc(s, now, readable, connected))
  {
    hide Inv, TakeTc;
    TakeTcKeeps(s, now, readable, connected);
    var s1 := TakeTc(s, now, readable, connected);
    if s1.pc.Routing? {
      StartKeeps(s1);
      StartKeeps(ReportStart(s1));
    }
  }

  lemma ResultIsTold(s: Service, now: nat, readable: bool, connected: bool)
    requires s.pc == Polling
    ensures s.trace <= AfterTc(s, now, readable, connected).trace
    ensures Told(if s.tcs == [] then Empty else TcResultOf(s.tcs[0], s.targets, now, readable, connected),
                 AfterTc(s, now, readable, connected).trace[|s.trace|..])
  {
    hide Convert, ToBigEndian;
  }

  class PusTargetedRequestService {
    const targets: set<ComponentId>
    var activeRequestMap: map<RequestId, ActiveRequest>
    var tcs: seq<Tc>
    var requests: seq<(RequestId, ComponentId, ActionRequest)>
    var replies: seq<Reply>
    var failDataBuf: seq<Byte>
    ghost var trace: seq<Event>

    ghost function View(): Service
      reads this
    {
      Service(Polling, activeRequestMap, targets, tcs, requests, replies, trace)
    }

    /** Entries hold started tokens, and the buffer is there: all that handling a reply relies on. */
    ghost predicate Valid()
      reads this
    {
      && |failDataBuf| == FAIL_DATA_LEN
      && forall id | id in activeRequestMap :: activeRequestMap[id].token == Started
    }

    constructor (targets: set<ComponentId>)
      ensures Valid() && Initial(View()) && Inv(View()) && this.targets == targets && tcs == []
    {
      this.targets := targets;
      activeRequestMap := map[];
      tcs := [];
      requests := [];
      replies := [];
      failDataBuf := seq(FAIL_DATA_LEN, _ => 0);
      trace := [];
    }

    /** Steps 1 to 5 of the service: poll, convert, route, report the start, remember the request. */
    method PollAndHandleNextTc(now: nat, readable: bool, connected: bool) returns (r: TcResult)
      requires Valid()
      modifies this
      ensures View() == AfterTc(old(View()), now, readable, connected)
      ensures Valid() && (old(Inv(View()) && (tcs != [] ==> tcs[0].id !in activeRequestMap)) ==> Inv(View()))
      ensures r == if old(tcs) == [] then Empty else TcResultOf(old(tcs)[0], targets, now, readable, connected)
      ensures r == HandledOne <==> TakeTc(old(View()), now, readable, connected).pc.Routing?
      ensures old(trace) <= trace && Told(r, trace[|old(trace)|..])
    {
      hide Told, ToBigEndian, Inv, Convert;
      ghost var s := View();
      ResultIsTold(s, now, readable, connected);
      if Inv(s) && (tcs != [] ==> tcs[0].id !in activeRequestMap) {
        AfterTcKeeps(s, now, readable, connected);
      }
      if |tcs| == 0 {
        return Empty;
      }
      var tc := tcs[0];
      tcs := tcs[1..];
      if !readable {
        return ReadError;
      }
      var conversion := ConvertTc(tc, now);
      if !conversion.Converted? {
        HandleConversionError(conversion, tc.id);
        return ConversionError(conversion);
      }
      var requestInfo := conversion.info;
      if requestInfo.target !in targets {
        trace := trace + [RejectionReport(tc.id, UnknownTargetIdCode, ToBigEndian(requestInfo.target, 8))];
        return UnknownTargetId;
      }
      if !connected {
        trace := trace + [RejectionReport(tc.id, RoutingError, ToBigEndian(requestInfo.target, 8))];
        return SendError;
      }
      requests := requests + [(tc.id, requestInfo.target, conversion.request)];
      trace := trace + [Routed(tc.id)];
      trace := trace + [StartReport(tc.id)];
      requestInfo := requestInfo.(token := Started);
      activeRequestMap := activeRequestMap[tc.id := requestInfo];
      return HandledOne;
    }

    /** The completion failure that follows a failed conversion, with what was wrong. */
    method HandleConversionError(error: Conversion, id: RequestId)
      requires !error.Converted?
      modifies this`trace
      ensures error.NotEnoughAppData? ==>
        var data := ToBigEndian(error.found, 4) + ToBigEndian(error.expected, 4);
        trace == old(trace) + [RejectionReport(id, NotEnoughAppDataCode, data)]
      ensures error.InvalidSubservice? ==>
        trace == old(trace) + [RejectionReport(id, InvalidPusSubservice, [error.subservice])]
    {
      match error {
        case InvalidSubservice(subservice) =>
          trace := trace + [RejectionReport(id, InvalidPusSubservice, [subservice])];
        case NotEnoughAppData(expected, found) =>
          var contextInfo := ToBigEndian(found, 4);
          contextInfo := contextInfo + ToBigEndian(expected, 4);
          trace := trace + [RejectionReport(id, NotEnoughAppDataCode, contextInfo)];
      }
    }

    /** The action converter: parses user data, and reports a start failure where it cannot. */
    method ConvertTc(tc: Tc, now: nat) returns (c: Conversion)
      modifies this`trace
      ensures c == Convert(tc, now)
      ensures c.Converted? ==> trace == old(trace)
      ensures c.NotEnoughAppData? ==> trace == old(trace) + [StartFailureReport(tc.id, NotEnoughAppDataCode)]
      ensures c.InvalidSubservice? ==> trace == old(trace) + [StartFailureReport(tc.id, InvalidPusSubservice)]
    {
      if |tc.data| < 8 {
        trace := trace + [StartFailureReport(tc.id, NotEnoughAppDataCode)];
        return NotEnoughAppData(8, |tc.data|);
      }
      var target := TargetOf(tc);
      var actionId := FromBigEndian(tc.data[4..8]);
      if tc.subservice == 128 {
        var data := if |tc.data| == 8 then None else Some(tc.data[8..]);
        return Converted(ActiveRequest(actionId, target, Accepted, now), ActionRequest(actionId, data));
      }
      trace := trace + [StartFailureReport(tc.id, InvalidPusSubservice)];
      return InvalidSubservice(tc.subservice);
    }

    /** Step 6: take one reply and report it, finishing the request where the reply does. */
    method PollAndHandleNextReply(sendFails: bool) returns (r: ReplyResult)
      requires Valid()
      modifies this
      ensures View() == PollReply(old(View()), sendFails)
      ensures Valid() && (old(Inv(View())) ==> Inv(View()))
      ensures r == NoReply <==> old(replies) == []
      ensures r == ReportFailed <==> sendFails && old(replies) != [] && old(replies)[0].id in old(activeRequestMap)
                                     && old(replies)[0].variant != OtherVariant
    {
      if Inv(View()) {
        StepKeeps(View(), DoPollReply(sendFails));
      }
      if |replies| == 0 {
        return NoReply;
      }
      var reply := replies[0];
      replies := replies[1..];
      if reply.id !in activeRequestMap {
        trace := trace + [Unrequested(reply.id)];
        return Handled;
      }
      var failed, finished := ReportReply(reply, sendFails);
      if failed || finished {
        activeRequestMap := activeRequestMap - {reply.id};
      }
      if failed {
        trace := trace + [Forgotten({reply.id})];
        return ReportFailed;
      }
      return Handled;
    }

    /** The action reply handler; `failed` when the report could not be sent. */
    method ReportReply(reply: Reply, sendFails: bool) returns (failed: bool, finished: bool)
      requires Valid() && reply.id in activeRequestMap
      modifies this`trace, this`failDataBuf
      ensures Valid()
      ensures failed <==> sendFails && ReportFor(reply).0.Some?
      ensures !failed ==> finished == ReportFor(reply).1
      ensures trace == old(trace) + if failed || ReportFor(reply).0.None? then [] else [ReportFor(reply).0.value]
    {
      match reply.variant {
        case CompletionFailed(code, params) =>
          var data := PropagateParams(params);
          if sendFails { return true, false; }
          trace := trace + [CompletionFailureReport(reply.id, code, data)];
          return false, true;
        case StepFailed(step, code, params) =>
          var data := PropagateParams(params);
          if sendFails { return true, false; }
          trace := trace + [StepFailureReport(reply.id, step, code, data)];
          return false, true;
        case Completed =>
          if sendFails { return true, false; }
          trace := trace + [CompletionReport(reply.id)];
          return false, true;
        case StepSuccess(step) =>
          if sendFails { return true, false; }
          trace := trace + [StepReport(reply.id, step)];
          return false, false;
        case OtherVariant =>
          return false, false;
      }
    }

    /** Parameters that need no heap go through the small buffer, whose other bytes stay behind. */
    method PropagateParams(params: Option<ErrorParams>) returns (data: seq<Byte>)
      requires |failDataBuf| == FAIL_DATA_LEN
      modifies this`failDataBuf
      ensures data == FailureData(params) && |failDataBuf| == FAIL_DATA_LEN
    {
      match params {
        case Some(Heapless(written)) =>
          failDataBuf := written + failDataBuf[|written|..];
          data := failDataBuf[..|written|];
        case Some(Vec(bytes)) => data := bytes;
        case Some(Text(bytes)) => data := bytes;
        case Some(InStore) => data := [];
        case None => data := [];
      }
    }

    /** Step 7: collect what has timed out, then remove it. */
    method CheckForRequestTimeouts(now: nat)
      requires Valid()
      modifies this
      ensures View() == CheckTimeouts(old(View()), now)
      ensures Valid() && (old(Inv(View())) ==> Inv(View()))
    {
      if Inv(View()) {
        StepKeeps(View(), DoCheckTimeouts(now));
      }
      ghost var expired := Expired(View(), now);
      var toDelete := CollectExpired(now);
      RemoveAll(toDelete);
      assert (set id | id in toDelete) == expired;
      trace := trace + [Forgotten(expired)];
    }

    method CollectExpired(now: nat) returns (toDelete: seq<RequestId>)
      ensures forall id :: id in toDelete <==> id in activeRequestMap && now > activeRequestMap[id].startTime + 30
    {
      toDelete := [];
      var left := activeRequestMap.Keys;
      while left != {}
        invariant left <= activeRequestMap.Keys
        invariant forall id :: id in toDelete <==>
          id in activeRequestMap && id !in left && now > activeRequestMap[id].startTime + 30
        decreases |left|
      {
        var id :| id in left;
        left := left - {id};
        if now > activeRequestMap[id].startTime + TIMEOUT_SECONDS {
          toDelete := toDelete + [id];
        }
      }
    }

    method RemoveAll(ids: seq<RequestId>)
      modifies this`activeRequestMap
      ensures activeRequestMap == old(activeRequestMap) - (set id | id in ids)
    {
      ghost var before := activeRequestMap;
      for i := 0 to |ids|
        invariant activeRequestMap == before - (set id | id in ids[..i])
      {
        assert ids[..i + 1] == ids[..i] + [ids[i]];
        activeRequestMap := activeRequestMap - {ids[i]};
      }
      assert ids[..|ids|] == ids;
    }
  }
}
