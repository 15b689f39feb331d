/**
 What the destination handler can get into from its construction on: the invariant of check
 limit handling for every fault table, and for each property that fails for some tables the exact
 tables for which it fails, with a run that shows it.
 */
module CfdpReach {
  import opened Wrappers
  import opened Reassembly
  import opened Filestore
  import opened CfdpSpec
  import opened CfdpRuns
  import opened CfdpTransfer
  import opened CfdpLimits

  // ---------------------------------------------- who gets into the check limit

  /** Only a known remote makes the handler busy, and only an ignored mismatch starts the check limit. */
  ghost predicate CheckInv(c: Config, h: Handler) {
    && (h.state == Busy ==> c.remotes != map[])
    && (h.step == ReceivingWithCheckLimit ==>
          && c.faultTable(FileChecksumFailure) == IgnoreError
          && !h.tp.acknowledged && !h.tp.metadataOnly
          && (h.tp.checksumType == Modular || h.tp.checksumType == Crc32))
  }

  lemma InsertKeepsCheckInv(c: Config, h: Handler, env: Env, p: Packet)
    requires Ready(h) && CheckInv(c, h)
    ensures var (g, flow) := Insert(c, h, env, p);
      flow != Todo && (flow == Continue ==> g.state == Busy) ==> CheckInv(c, g)
  {
    hide HandleNoErrorEof, DeclareFault;
  }

  lemma BusyKeepsCheckInv(c: Config, h: Handler, env: Env)
    requires MidCall(h) && CheckInv(c, h)
    ensures var (g, out) := FsmBusy(c, h, env); out != Panicked ==> CheckInv(c, g)
  {
    hide CheckLimitHandling, CompleteTransfer;
  }

  lemma CallKeepsCheckInv(c: Config, h: Handler, packet: Option<Packet>, env: Env)
    requires Ready(h) && CheckInv(c, h)
    ensures var (g, out) := Call(c, h, packet, env); out != Panicked ==> CheckInv(c, g)
  {
    hide Insert, FsmBusy;
    InsertReady(c, h, packet, env);
    if packet.Some? {
      InsertKeepsCheckInv(c, h, env, packet.value);
    }
    var (g, flow) := if packet.Some? then Insert(c, h, env, packet.value) else (h, Continue);
    if flow == Continue && g.state == Busy {
      BusyKeepsCheckInv(c, g, env);
    }
  }

  lemma {:induction false} RunKeepsCheckInv(c: Config, h: Handler, inputs: seq<Input>)
    requires Ready(h) && CheckInv(c, h)
    ensures var (g, outs) := Run(c, h, inputs); Panicked !in outs ==> CheckInv(c, g)
    decreases |inputs|
  {
    hide Call, CheckInv;
    if inputs != [] {
      CallKeepsReady(c, h, inputs[0].packet, inputs[0].env);
      CallKeepsCheckInv(c, h, inputs[0].packet, inputs[0].env);
      var (g, out) := Call(c, h, inputs[0].packet, inputs[0].env);
      if out != Panicked {
        RunKeepsCheckInv(c, g, inputs[1..]);
      }
    }
  }

  /** In every run, with any fault table, the next call panics exactly for one of the known causes. */
  lemma EveryPanicHasACause(c: Config, disk: Disk, inputs: seq<Input>, packet: Option<Packet>, env: Env)
    requires Panicked !in Run(c, Initial(disk), inputs).1
    ensures var h := Run(c, Initial(disk), inputs).0;
      Call(c, h, packet, env).1 == Panicked <==> PanicCause(c, h, packet, env)
  {
    hide Call;
    RunKeepsCheckInv(c, Initial(disk), inputs);
    CallPanicsIff(c, Run(c, Initial(disk), inputs).0, packet, env);
  }

  // ------------------------------------------------- a run into the check limit

  const EmptyDisk: Disk := Disk(map[], {})
  const Still: Env := Env(false, false, false, false, false, false)
  const Expiry: Env := Still.(expired := true)

  /** An empty file whose EOF has the wrong checksum. */
  function Announced(id: nat, closure: bool): Metadata {
    Metadata(id, 0, 0, false, closure, Modular, 0, "s", "d")
  }

  const WrongEof: Eof := Eof(true, 0, 1)

  function IntoCheckLimit(id: nat, closure: bool): seq<Input> {
    [Input(Some(MetadataPdu(Some(Announced(id, closure)))), Still), Input(Some(EofPdu(Some(WrongEof))), Still)]
  }

  /** In check limit handling for that file, with a given check count and nothing left over from before. */
  predicate Checking(c: Config, h: Handler, id: nat, closure: bool, count: nat) {
    && ReceivingLate(c, h, Announced(id, closure), "d", [], WrongEof) && h.tp.checkCount == count
    && id in c.remotes && h.disk.dirs == {}
  }

  lemma EntersCheckLimit(c: Config, id: nat, closure: bool) returns (h: Handler)
    requires id in c.remotes && c.faultTable(FileChecksumFailure) == IgnoreError
    ensures Run(c, Initial(EmptyDisk), IntoCheckLimit(id, closure)) == (h, [Sent(0), Sent(0)])
    ensures Ready(h) && Checking(c, h, id, closure, 0)
  {
    hide Call, Receiving;
    var first, second := Input(Some(MetadataPdu(Some(Announced(id, closure)))), Still),
      Input(Some(EofPdu(Some(WrongEof))), Still);
    var start := Initial(EmptyDisk);
    var g := OneCall(c, start, first);
    MetadataStarts(c, start, Announced(id, closure), Still, "d");
    h := OneCall(c, g, second);
    EofTooEarly(c, g, Announced(id, closure), "d", [], WrongEof, Still);
    RunConcat(c, start, [first], [second]);
    assert [first] + [second] == IntoCheckLimit(id, closure);
    assert [Sent(0)] + [Sent(0)] == [Sent(0), Sent(0)];
  }

  /** A poll that finds the checksum still wrong, before the limit is reached. */
  lemma PollMisses(c: Config, h: Handler, id: nat, closure: bool, count: nat)
    requires Ready(h) && Checking(c, h, id, closure, count)
    ensures var (g, out) := Call(c, h, None, Expiry);
      && (count + 1 < c.remotes[id].checkLimit ==> out == Sent(0) && Checking(c, g, id, closure, count + 1))
      && (count + 1 >= c.remotes[id].checkLimit && !EndsAtLimit(c) ==>
        out == Sent(0) && Checking(c, g, id, closure, count))
  {
    assert ChecksumVerify(c, h, Expiry) == (h, false);
  }

  function PollTimes(n: nat): seq<Input> {
    if n == 0 then [] else [Input(None, Expiry)] + PollTimes(n - 1)
  }

  /** Polls below the limit just count. */
  lemma {:induction false} PollsCount(c: Config, h: Handler, id: nat, closure: bool, count: nat, n: nat)
    returns (g: Handler)
    requires Ready(h) && Checking(c, h, id, closure, count) && count + n < Max(1, c.remotes[id].checkLimit)
    ensures Run(c, h, PollTimes(n)).0 == g && Panicked !in Run(c, h, PollTimes(n)).1
    ensures Ready(g) && Checking(c, g, id, closure, count + n)
    decreases n
  {
    hide Call, Checking;
    if n == 0 {
      g := h;
    } else {
      PollMisses(c, h, id, closure, count);
      CallKeepsReady(c, h, None, Expiry);
      var next := Call(c, h, None, Expiry).0;
      g := PollsCount(c, next, id, closure, count + 1, n - 1);
      assert PollTimes(n)[1..] == PollTimes(n - 1);
    }
  }

  // ------------------------------------------------------- the check limit ends

  /** However the calls go on, those that stay in check limit handling poll less often than the limit allows. */
  ghost predicate EndsFrom(c: Config, h: Handler)
    requires Ready(h)
  {
    forall more | StaysInCheck(c, h, more) ::
      PollCount(c, h, more) == 0 || h.tp.checkCount + PollCount(c, h, more) < h.tp.remote.value.checkLimit
  }

  /** In every run, check limit handling is left within the limit. */
  ghost predicate AlwaysEnds(c: Config) {
    forall disk, inputs | Panicked !in Run(c, Initial(disk), inputs).1 :: EndsFrom(c, Run(c, Initial(disk), inputs).0)
  }

  /** Some run gets into check limit handling. */
  ghost predicate CanCheck(c: Config) {
    c.remotes != map[] && c.faultTable(FileChecksumFailure) == IgnoreError
  }

  /** With the limit fault ignored, a wrong checksum keeps the handler there for any number of polls. */
  lemma {:induction false} PollsStay(c: Config, h: Handler, id: nat, closure: bool, count: nat, n: nat)
    requires Ready(h) && Checking(c, h, id, closure, count) && !EndsAtLimit(c)
    ensures StaysInCheck(c, h, PollTimes(n)) && PollCount(c, h, PollTimes(n)) == n
    decreases n
  {
    hide Call;
    if n > 0 {
      PollMisses(c, h, id, closure, count);
      CallKeepsReady(c, h, None, Expiry);
      var next := Call(c, h, None, Expiry).0;
      PollsStay(c, next, id, closure, next.tp.checkCount, n - 1);
      assert PollTimes(n)[1..] == PollTimes(n - 1);
    }
  }

  /**
   The bound holds in every run exactly for the tables that cancel or abandon when the limit is
   reached, and for those with which no run gets into check limit handling.
   */
  lemma CheckLimitEndsIff(c: Config)
    ensures AlwaysEnds(c) <==> EndsAtLimit(c) || !CanCheck(c)
  {
    hide Call;
    if EndsAtLimit(c) || !CanCheck(c) {
      forall disk, inputs | Panicked !in Run(c, Initial(disk), inputs).1
        ensures EndsFrom(c, Run(c, Initial(disk), inputs).0)
      {
        var h := Run(c, Initial(disk), inputs).0;
        RunKeepsCheckInv(c, Initial(disk), inputs);
        forall more | StaysInCheck(c, h, more)
          ensures PollCount(c, h, more) == 0 || h.tp.checkCount + PollCount(c, h, more) < h.tp.remote.value.checkLimit
        {
          CheckLimitEnds(c, h, more);
        }
      }
    } else {
      var id, closure :| id in c.remotes && closure;
      var h := EntersCheckLimit(c, id, closure);
      PollsStay(c, h, id, closure, 0, c.remotes[id].checkLimit + 1);
      assert !EndsFrom(c, h) && h == Run(c, Initial(EmptyDisk), IntoCheckLimit(id, closure)).0;
    }
  }

  // ------------------------------------------------- state and step together

  predicate Together(h: Handler) {
    h.state == Idle <==> h.step == IdleStep
  }

  /** In every run, state and step agree on whether the handler is idle. */
  ghost predicate AlwaysTogether(c: Config) {
    forall disk, inputs :: Panicked !in Run(c, Initial(disk), inputs).1 ==> Together(Run(c, Initial(disk), inputs).0)
  }

  /**
   A check can abandon the transaction for an unreadable file and then cancel it for the limit,
   which puts an idle handler into a busy step.
   */
  ghost predicate Unruly(c: Config) {
    && CanCheck(c) && Abandons(c, FilestoreRejection)
    && c.faultTable(CheckLimitReached) == NoticeOfCancellation
  }

  lemma InsertKeepsTogether(c: Config, h: Handler, env: Env, p: Packet)
    requires Ready(h) && Together(h)
    ensures var (g, flow) := Insert(c, h, env, p); flow.Return? ==> Together(g)
  {
    hide HandleEof;
  }

  lemma BusyKeepsTogether(c: Config, h: Handler, env: Env)
    requires MidCall(h) && CheckInv(c, h) && !Unruly(c)
    ensures var (g, out) := FsmBusy(c, h, env); out != Panicked ==> Together(g)
  {
    hide CompleteTransfer, StartTransaction;
    if h.step == ReceivingWithCheckLimit {
      CheckStaysTogether(c, h, env);
    }
  }

  lemma CheckStaysTogether(c: Config, h: Handler, env: Env)
    requires MidCall(h) && CheckInv(c, h) && !Unruly(c) && h.step == ReceivingWithCheckLimit
    ensures Together(CheckLimitHandling(c, h, env))
  {
  }

  lemma {:induction false} RunKeepsTogether(c: Config, h: Handler, inputs: seq<Input>)
    requires Ready(h) && CheckInv(c, h) && Together(h) && !Unruly(c)
    ensures var (g, outs) := Run(c, h, inputs); Panicked !in outs ==> Together(g)
    decreases |inputs|
  {
    hide FsmBusy, Insert, CheckInv, Unruly, Together;
    if inputs != [] {
      var packet, env := inputs[0].packet, inputs[0].env;
      CallKeepsReady(c, h, packet, env);
      CallKeepsCheckInv(c, h, packet, env);
      InsertReady(c, h, packet, env);
      if packet.Some? {
        InsertKeepsCheckInv(c, h, env, packet.value);
        InsertKeepsTogether(c, h, env, packet.value);
      }
      var (g, flow) := if packet.Some? then Insert(c, h, env, packet.value) else (h, Continue);
      if flow == Continue && g.state == Busy {
        BusyKeepsTogether(c, g, env);
      }
      if Call(c, h, packet, env).1 != Panicked {
        RunKeepsTogether(c, Call(c, h, packet, env).0, inputs[1..]);
      }
    }
  }

  /** The last check: the file cannot be read, the limit is reached, the Finished PDU cannot be sent. */
  const Disaster: Env := Env(false, false, true, true, true, true)

  lemma DisasterSeparates(c: Config, h: Handler, id: nat, closure: bool, count: nat)
    requires Ready(h) && Checking(c, h, id, closure, count) && Unruly(c) && count + 1 >= c.remotes[id].checkLimit
      && closure
    ensures var (g, out) := Call(c, h, None, Disaster); out.Failed? && g.state == Idle && g.step == TransferCompletion
  {
    var (h1, matches) := ChecksumVerify(c, h, Disaster);
    assert !matches && h1 == DeclareFault(c, h, FilestoreRejection);
  }

  /** State and step stay together in every run exactly for the tables that are not unruly. */
  lemma AlwaysTogetherIff(c: Config)
    ensures AlwaysTogether(c) <==> !Unruly(c)
  {
    hide Call;
    if !Unruly(c) {
      forall disk, inputs | Panicked !in Run(c, Initial(disk), inputs).1
        ensures Together(Run(c, Initial(disk), inputs).0)
      {
        RunKeepsTogether(c, Initial(disk), inputs);
      }
    } else {
      var id, closure :| id in c.remotes && closure;
      var start, limit := Initial(EmptyDisk), c.remotes[id].checkLimit;
      var n := if limit == 0 then 0 else limit - 1;
      var h := EntersCheckLimit(c, id, closure);
      var g := PollsCount(c, h, id, closure, 0, n);
      DisasterSeparates(c, g, id, closure, n);
      var last := Input(None, Disaster);
      var end := OneCall(c, g, last);
      RunConcat(c, start, IntoCheckLimit(id, closure), PollTimes(n));
      RunConcat(c, start, IntoCheckLimit(id, closure) + PollTimes(n), [last]);
      var inputs := IntoCheckLimit(id, closure) + PollTimes(n) + [last];
      assert Panicked !in Run(c, start, inputs).1 && !Together(Run(c, start, inputs).0);
    }
  }

  // --------------------------------------------------------------- the books

  ghost predicate SenderWorks(inputs: seq<Input>) {
    forall i | 0 <= i < |inputs| :: !inputs[i].env.sendFails
  }

  lemma CallBalances(c: Config, h: Handler, packet: Option<Packet>, env: Env)
    requires Ready(h) && EvidenceInv(c, h) && CheckInv(c, h) && BooksBalance(c, h) && !Unruly(c)
    ensures var (g, out) := Call(c, h, packet, env);
      out != Panicked ==> BooksBalance(c, g) && (NothingOwed(c, h) && !env.sendFails ==> NothingOwed(c, g))
  {
    hide Observe, Insert, FsmBusy, CheckInv, Unruly, BooksBalance;
    InsertReady(c, h, packet, env);
    if packet.Some? {
      InsertKeeps(c, h, env, packet.value);
      InsertKeepsCheckInv(c, h, env, packet.value);
    }
    var (g, flow) := if packet.Some? then Insert(c, h, env, packet.value) else (h, Continue);
    if flow == Continue && g.state == Busy {
      FsmBusyKeeps(c, g, env);
      if g.step == ReceivingWithCheckLimit {
        CheckStaysTogether(c, g, env);
      }
    }
  }

  lemma {:induction false} RunBalances(c: Config, h: Handler, inputs: seq<Input>)
    requires Ready(h) && EvidenceInv(c, h) && CheckInv(c, h) && BooksBalance(c, h) && !Unruly(c)
    ensures var (g, outs) := Run(c, h, inputs);
      Panicked !in outs ==> BooksBalance(c, g) && (NothingOwed(c, h) && SenderWorks(inputs) ==> NothingOwed(c, g))
    decreases |inputs|
  {
    hide Call, Observe, CheckInv, Unruly, BooksBalance;
    if inputs != [] {
      var packet, env := inputs[0].packet, inputs[0].env;
      CallKeepsReady(c, h, packet, env);
      CallKeeps(c, h, packet, env);
      CallKeepsCheckInv(c, h, packet, env);
      CallBalances(c, h, packet, env);
      if Call(c, h, packet, env).1 != Panicked {
        RunBalances(c, Call(c, h, packet, env).0, inputs[1..]);
      }
    }
  }

  /**
   In every run, with any table that is not unruly and whatever the PDU sender does: the finished
   indications are one for each transaction that is neither abandoned nor in progress, plus one
   repetition for each Finished PDU that was due and not sent. Every Finished PDU directly follows
   a finished indication, and what the calls returned adds up to those sent. With a working sender
   none is owed, so each transaction that is not abandoned is finished exactly once.
   */
  lemma EveryTransactionFinishesOnce(c: Config, disk: Disk, inputs: seq<Input>)
    requires !Unruly(c)
    ensures var (g, outs) := Run(c, Initial(disk), inputs); var o := Observe(c.crc, g.trace);
      Panicked !in outs ==>
        && o.finished == o.taken - o.abandoned - (if g.state == Busy then 1 else 0) + (o.due - o.sent)
        && o.sent <= o.due && o.orderly && o.sent == PacketsReturned(outs)
        && (SenderWorks(inputs) ==> o.sent == o.due)
  {
    RunKeeps(c, Initial(disk), inputs);
    RunBalances(c, Initial(disk), inputs);
  }

  /** In every run the books balance. */
  ghost predicate AlwaysBalanced(c: Config) {
    forall disk, inputs | Panicked !in Run(c, Initial(disk), inputs).1 ::
      BooksBalance(c, Run(c, Initial(disk), inputs).0)
  }

  /** The last check: the file cannot be read and the limit is reached. */
  const Unreadable: Env := Expiry.(verifyFails := true)

  /** With an unruly table, that check abandons the transaction and cancels it all the same. */
  lemma AbandonedThenCancelled(c: Config, h: Handler, id: nat, closure: bool, count: nat) returns (g: Handler)
    requires Ready(h) && Checking(c, h, id, closure, count) && Unruly(c) && count + 1 >= c.remotes[id].checkLimit
    ensures CheckLimitHandling(c, h, Unreadable) == g && g.step == TransferCompletion && g.state == Idle
    ensures SameCore(h.tp, g.tp) && g.disk == h.disk
    ensures var o, o' := Observe(c.crc, h.trace), Observe(c.crc, g.trace);
      o' == Noticed(o).(abandoned := o.abandoned + 1)
  {
    hide Observe;
    var (h1, matches) := ChecksumVerify(c, h, Unreadable);
    assert !matches && h1 == DeclareFault(c, h, FilestoreRejection);
    FaultObserved(c, h, FilestoreRejection);
    g := DeclareFault(c, h1, CheckLimitReached);
    FaultObserved(c, h1, CheckLimitReached);
  }

  /** So it counts as an abandonment and as a finish of the same transaction. */
  lemma CountedTwice(c: Config, h: Handler, id: nat, closure: bool, count: nat)
    requires Ready(h) && Checking(c, h, id, closure, count) && Unruly(c) && count + 1 >= c.remotes[id].checkLimit
    requires !closure
    ensures var (g, out) := Call(c, h, None, Unreadable);
      out == Sent(0) && (BooksBalance(c, h) ==> !BooksBalance(c, g))
  {
    hide Observe, FinishJustified, CheckLimitHandling, ChecksumVerify;
    var g := AbandonedThenCancelled(c, h, id, closure, count);
    CompletionObserved(c, g, Unreadable);
  }

  /** The books balance in every run exactly for the tables that are not unruly. */
  lemma AlwaysBalancedIff(c: Config)
    ensures AlwaysBalanced(c) <==> !Unruly(c)
  {
    hide Call, BooksBalance;
    if !Unruly(c) {
      forall disk, inputs | Panicked !in Run(c, Initial(disk), inputs).1
        ensures BooksBalance(c, Run(c, Initial(disk), inputs).0)
      {
        InitialBalanced(c, disk);
        RunBalances(c, Initial(disk), inputs);
      }
    } else {
      var id, closure :| id in c.remotes && !closure;
      var start, n := Initial(EmptyDisk), Max(1, c.remotes[id].checkLimit) - 1;
      var h := EntersCheckLimit(c, id, closure);
      var g := PollsCount(c, h, id, closure, 0, n);
      CountedTwice(c, g, id, closure, n);
      var last := Input(None, Unreadable);
      var end := OneCall(c, g, last);
      RunConcat(c, start, IntoCheckLimit(id, closure), PollTimes(n));
      RunConcat(c, start, IntoCheckLimit(id, closure) + PollTimes(n), [last]);
      var inputs := IntoCheckLimit(id, closure) + PollTimes(n);
      assert Panicked !in Run(c, start, inputs).1 && Panicked !in Run(c, start, inputs + [last]).1;
      assert !BooksBalance(c, Run(c, start, inputs).0) || !BooksBalance(c, Run(c, start, inputs + [last]).0);
    }
  }

  lemma InitialBalanced(c: Config, disk: Disk)
    ensures EvidenceInv(c, Initial(disk)) && BooksBalance(c, Initial(disk))
  {
  }

  // ---------------------------------------------- a cancellation that outlasts its transaction

  /** The check limit is reached and the transaction cancelled. */
  lemma LimitCancels(c: Config, h: Handler, id: nat, closure: bool, count: nat)
    requires Ready(h) && Checking(c, h, id, closure, count) && count + 1 >= c.remotes[id].checkLimit
    requires c.faultTable(CheckLimitReached) == NoticeOfCancellation
    ensures var (g, out) := Call(c, h, None, Expiry);
      && out == Sent(if closure then 1 else 0) && g.state == Idle && g.tp.disposition == Cancelled
      && g.tp.progress == 0 && !g.tp.metadataOnly && g.disk.dirs == {}
  {
    assert ChecksumVerify(c, h, Expiry) == (h, false);
  }

  /** An empty file with a wrong checksum, polled until its check limit is reached. */
  function CancelledTransfer(c: Config, id: nat, closure: bool): seq<Input>
    requires id in c.remotes
  {
    IntoCheckLimit(id, closure) + PollTimes(Max(1, c.remotes[id].checkLimit))
  }

  lemma {:induction false} PollTimesEnd(n: nat)
    ensures PollTimes(n) + [Input(None, Expiry)] == PollTimes(n + 1)
  {
    if n > 0 {
      PollTimesEnd(n - 1);
      assert PollTimes(n) + [Input(None, Expiry)] == [Input(None, Expiry)] + (PollTimes(n - 1) + [Input(None, Expiry)]);
    }
  }

  /**
   With the default reactions to both faults, one empty file whose checksum never matches is
   enough: every later proper transfer from a remote that discards on cancellation is reported
   without a fault and without an error, and its verified file is thrown away.
   */
  lemma StaleCancellationDiscards(c: Config, id: nat, closure: bool, t: Transfer)
    requires id in c.remotes && c.faultTable(FileChecksumFailure) == IgnoreError
    requires c.faultTable(CheckLimitReached) == NoticeOfCancellation
    requires Proper(c, {}, t) && Disjoint(SegmentsOf(t.data)) && t.m.checksumType != NullChecksum
      && c.remotes[t.m.sourceId].dispositionOnCancellation
    ensures var start := Initial(EmptyDisk);
      var before, after := Run(c, start, CancelledTransfer(c, id, closure)),
        Run(c, start, CancelledTransfer(c, id, closure) + InputsOf(t));
      && Panicked !in after.1 && Faults(after.0.trace) == Faults(before.0.trace)
      && t.path !in after.0.disk.files
      && Reports(after.0.trace, TransactionId(t.m.sourceId, t.m.seqNum), t.m, None)
  {
    hide Call, InputsOf, Faults, Reports, Covering, Disjoint, Delivers, Describes;
    var start, n := Initial(EmptyDisk), Max(1, c.remotes[id].checkLimit) - 1;
    var h := EntersCheckLimit(c, id, closure);
    var g := PollsCount(c, h, id, closure, 0, n);
    LimitCancels(c, g, id, closure, n);
    var last := Input(None, Expiry);
    var idle := OneCall(c, g, last);
    PollTimesEnd(n);
    RunConcat(c, start, IntoCheckLimit(id, closure), PollTimes(n));
    RunConcat(c, start, IntoCheckLimit(id, closure) + PollTimes(n), [last]);
    assert IntoCheckLimit(id, closure) + PollTimes(n) + [last] == CancelledTransfer(c, id, closure);
    TransferInAnyOrder(c, idle, t);
    RunConcat(c, start, CancelledTransfer(c, id, closure), InputsOf(t));
  }
}
