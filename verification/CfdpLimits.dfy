/**
 Check limit handling ends, and what the handler does where its fault table, its sender or its
 own reset let it down.
 */
module CfdpLimits {
  import opened Wrappers
  import opened Reassembly
  import opened Filestore
  import opened CfdpSpec
  import opened CfdpRuns

  // ------------------------------------------------------------ check limit

  /** The table does something about a transfer whose check limit is reached. */
  predicate EndsAtLimit(c: Config) {
    c.faultTable(CheckLimitReached) == NoticeOfCancellation || c.faultTable(CheckLimitReached) == AbandonTransaction
  }

  /** The call gets as far as the check and finds its timer expired. */
  predicate Polls(c: Config, h: Handler, i: Input)
    requires Ready(h)
  {
    && i.env.expired
    && (i.packet.None? || Insert(c, h, i.env, i.packet.value).1 == Continue)
  }

  /** Packets that arrive while the check limit runs leave its counter and its timer alone. */
  lemma InsertKeepsCheck(c: Config, h: Handler, env: Env, p: Packet)
    requires Ready(h) && h.step == ReceivingWithCheckLimit
    ensures var (g, flow) := Insert(c, h, env, p);
      && g.tp.checkCount == h.tp.checkCount && g.tp.remote == h.tp.remote
      && (flow == Continue ==> g.step == ReceivingWithCheckLimit && g.tp.timer && g.state == Busy)
  {
  }

  /**
   As long as the handler stays in the check limit step, every poll with an expired timer adds
   one to the check count, nothing else changes it, and it stays below the limit.
   */
  lemma CheckCountAdvances(c: Config, h: Handler, i: Input)
    requires Ready(h) && h.step == ReceivingWithCheckLimit
    requires EndsAtLimit(c)
    ensures var (g, out) := Call(c, h, i.packet, i.env);
      out != Panicked && g.step == ReceivingWithCheckLimit ==>
        && g.tp.checkCount == h.tp.checkCount + (if Polls(c, h, i) then 1 else 0)
        && g.tp.remote == h.tp.remote
        && (Polls(c, h, i) ==> g.tp.checkCount < g.tp.remote.value.checkLimit)
  {
    if i.packet.Some? {
      InsertKeepsCheck(c, h, i.env, i.packet.value);
    }
    InsertReady(c, h, i.packet, i.env);
    var (g, flow) := if i.packet.Some? then Insert(c, h, i.env, i.packet.value) else (h, Continue);
    if flow == Continue {
      CheckedOnce(c, g, i.env);
    }
  }

  lemma CheckedOnce(c: Config, h: Handler, env: Env)
    requires MidCall(h) && h.step == ReceivingWithCheckLimit
    requires EndsAtLimit(c)
    ensures var (g, out) := FsmBusy(c, h, env);
      out != Panicked && g.step == ReceivingWithCheckLimit ==>
        && g.tp.checkCount == h.tp.checkCount + (if env.expired then 1 else 0)
        && g.tp.remote == h.tp.remote
        && (env.expired ==> g.tp.checkCount < g.tp.remote.value.checkLimit)
  {
    hide ChecksumVerify, CompleteTransfer;
  }

  /** The run stays in the check limit step from its start to its end. */
  predicate StaysInCheck(c: Config, h: Handler, inputs: seq<Input>)
    requires Ready(h)
    decreases |inputs|
  {
    h.step == ReceivingWithCheckLimit &&
    (inputs == [] ||
     (CallKeepsReady(c, h, inputs[0].packet, inputs[0].env);
      var (g, out) := Call(c, h, inputs[0].packet, inputs[0].env);
      out != Panicked && StaysInCheck(c, g, inputs[1..])))
  }

  /** How many calls of the run poll with an expired timer. */
  function PollCount(c: Config, h: Handler, inputs: seq<Input>): nat
    requires Ready(h)
    decreases |inputs|
  {
    if inputs == [] then 0
    else
      CallKeepsReady(c, h, inputs[0].packet, inputs[0].env);
      var (g, out) := Call(c, h, inputs[0].packet, inputs[0].env);
      (if Polls(c, h, inputs[0]) then 1 else 0) + if out == Panicked then 0 else PollCount(c, g, inputs[1..])
  }

  /**
   Whatever data PDUs arrive and whatever else happens in between, a run that stays in check
   limit handling has fewer polls with an expired timer than the limit allows (and none at all
   if the limit is zero or one). So the step is left within max(1, limit) of them.
   */
  lemma {:induction false} CheckLimitEnds(c: Config, h: Handler, inputs: seq<Input>)
    requires Ready(h) && EndsAtLimit(c)
    requires StaysInCheck(c, h, inputs)
    ensures PollCount(c, h, inputs) == 0 || h.tp.checkCount + PollCount(c, h, inputs) < h.tp.remote.value.checkLimit
    decreases |inputs|
  {
    hide Call;
    if inputs != [] {
      CallKeepsReady(c, h, inputs[0].packet, inputs[0].env);
      CheckCountAdvances(c, h, inputs[0]);
      var (g, out) := Call(c, h, inputs[0].packet, inputs[0].env);
      CheckLimitEnds(c, g, inputs[1..]);
    }
  }

  // --------------------------------------------------------- rough edges

  /** An EOF that the handler takes, and that makes the call panic. */
  predicate EofPanics(c: Config, h: Handler, env: Env, eof: Eof) {
    || !eof.noError
    || EofAbandons(c, h, env, eof)
    || (h.tp.acknowledged && !SizeStops(c, h, eof))
  }

  /**
   What makes a call panic: nothing to do while idle, PDUs whose handling is not written yet, or
   an EOF that carries an error, raises a fault that the table abandons on, or finishes an
   acknowledged transfer.
   */
  predicate PanicCause(c: Config, h: Handler, packet: Option<Packet>, env: Env) {
    match packet
    case None => h.state == Idle
    case Some(AckOrPrompt) => true
    case Some(EofPdu(Some(eof))) => h.state == Busy && h.step == ReceivingFileData && EofPanics(c, h, env, eof)
    case _ => false
  }

  /** The exact condition, for every fault table, under which a call panics. */
  lemma CallPanicsIff(c: Config, h: Handler, packet: Option<Packet>, env: Env)
    requires Ready(h) && (h.step == ReceivingWithCheckLimit ==> !h.tp.acknowledged)
    ensures Call(c, h, packet, env).1 == Panicked <==> PanicCause(c, h, packet, env)
  {
    hide HandleNoErrorEof, CheckLimitHandling, FsmBusy;
    InsertReady(c, h, packet, env);
    var (g, flow) := if packet.Some? then Insert(c, h, env, packet.value) else (h, Continue);
    if flow == Continue && g.state == Busy {
      BusyPanicsIff(c, g, env);
    }
  }

  lemma BusyPanicsIff(c: Config, h: Handler, env: Env)
    requires MidCall(h) && (h.step == ReceivingWithCheckLimit ==> !h.tp.acknowledged)
    ensures FsmBusy(c, h, env).1 == Panicked <==> h.step == SendingAckPdu
  {
    hide StartTransaction, CompleteTransfer;
  }

  /** A cancelled transfer whose file is to be discarded, but is no longer there. */
  ghost predicate Stuck(h: Handler) {
    && Ready(h) && h.state == Busy && h.step == TransferCompletion && h.tp.disposition == Cancelled
      && h.tp.delivery == Incomplete
    && h.tp.remote.value.dispositionOnCancellation && !Exists(h.disk, h.tp.destPath)
  }

  /**
   Exactly when completing a transfer, in whatever call, leaves the handler stuck: the cancelled
   file is to be discarded, and it is gone already, or it can be removed but the Finished PDU not
   be sent. From then on removing the file fails, so no later call with any packet gets further.
   */
  lemma CompletionSticksIff(h: Handler, env: Env)
    requires MidCall(h) && h.step == TransferCompletion
    ensures Stuck(CompleteTransfer(h, env).0) <==>
      && Discards(h) && h.tp.destPath !in h.disk.dirs
      && (h.tp.destPath !in h.disk.files || (WantsFinishedPdu(h.tp) && env.sendFails && !env.removeFails))
  {
  }

  lemma StuckOnce(c: Config, h: Handler, packet: Option<Packet>, env: Env)
    requires Stuck(h)
    ensures var (g, out) := Call(c, h, packet, env); g == h && (out.Failed? || out == Panicked)
  {
    hide HandleNoErrorEof, DeclareFault, StartTransaction, CheckLimitHandling;
  }

  lemma {:induction false} StuckForever(c: Config, h: Handler, inputs: seq<Input>)
    requires Stuck(h)
    ensures var (g, outs) := Run(c, h, inputs);
      g == h && forall i | 0 <= i < |outs| :: outs[i].Failed? || outs[i] == Panicked
    decreases |inputs|
  {
    hide Call;
    if inputs != [] {
      StuckOnce(c, h, inputs[0].packet, inputs[0].env);
      var (g, out) := Call(c, h, inputs[0].packet, inputs[0].env);
      if out != Panicked {
        StuckForever(c, h, inputs[1..]);
      }
    }
  }

  // ------------------------------------------- a metadata-only transaction sticks

  /** Same names, and same identity or the one that the unchanged header fields spell. */
  predicate SameIdentity(h: Handler, g: Handler) {
    && g.tp.metadataOnly == h.tp.metadataOnly && g.tp.srcName == h.tp.srcName && g.tp.destName == h.tp.destName
    && g.tp.sourceId == h.tp.sourceId && g.tp.seqNum == h.tp.seqNum
    && g.tp.transactionId in {h.tp.transactionId, Some(TransactionId(h.tp.sourceId, h.tp.seqNum))}
  }

  lemma InsertKeepsIdentity(c: Config, h: Handler, env: Env, p: Packet)
    requires Ready(h) && h.tp.metadataOnly
    ensures SameIdentity(h, Insert(c, h, env, p).0)
  {
    hide HandleEof, HandleFileData;
    if p.FileDataPdu? {
      FileDataKeepsCore(c, h, env, p.segment);
    }
  }

  lemma CallKeepsIdentity(c: Config, h: Handler, packet: Option<Packet>, env: Env)
    requires Ready(h) && h.tp.metadataOnly
    ensures SameIdentity(h, Call(c, h, packet, env).0)
  {
    hide Insert, FsmBusy;
    InsertReady(c, h, packet, env);
    if packet.Some? {
      InsertKeepsIdentity(c, h, env, packet.value);
    }
    var (g, flow) := if packet.Some? then Insert(c, h, env, packet.value) else (h, Continue);
    if flow == Continue && g.state == Busy {
      BusyKeepsIdentity(c, g, env);
    }
  }

  lemma BusyKeepsIdentity(c: Config, h: Handler, env: Env)
    requires MidCall(h)
    ensures SameIdentity(h, FsmBusy(c, h, env).0)
  {
    hide StartTransaction, CheckLimitHandling, CompleteTransfer, SameIdentity;
    var (h1, flow) := if h.step == TransactionStart then StartTransaction(c, h, env) else (h, Continue);
    StartIdentity(c, h, env);
    if !flow.Return? {
      var h2 := if h1.step == ReceivingWithCheckLimit then CheckLimitHandling(c, h1, env) else h1;
      CoreIdentity(h, h1, h2);
      var (h3, sent) := if h2.step == TransferCompletion then CompleteTransfer(h2, env) else (h2, Sent(0));
      CoreIdentity(h, h2, h3);
      CoreIdentity(h, h3, Reset(h3));
    }
  }

  lemma StartIdentity(c: Config, h: Handler, env: Env)
    ensures SameIdentity(h, StartTransaction(c, h, env).0) && SameIdentity(h, h)
  {
    hide StartTransaction;
  }

  lemma CoreIdentity(h: Handler, g: Handler, next: Handler)
    ensures SameIdentity(h, g) && (g.tp == next.tp || SameCore(g.tp, next.tp) || next == Reset(g)) ==>
      SameIdentity(h, next)
  {
  }

  /**
   The metadata-only mark is never taken back. Once a metadata PDU without file names was
   accepted, every later transaction in any run is carried out under the file names and the
   transaction id of the last transaction before it.
   */
  lemma {:induction false} MetadataOnlySticks(c: Config, h: Handler, inputs: seq<Input>)
    requires Ready(h) && h.tp.metadataOnly
    ensures SameIdentity(h, Run(c, h, inputs).0)
    decreases |inputs|
  {
    hide Call;
    if inputs != [] {
      CallKeepsReady(c, h, inputs[0].packet, inputs[0].env);
      CallKeepsIdentity(c, h, inputs[0].packet, inputs[0].env);
      var (g, out) := Call(c, h, inputs[0].packet, inputs[0].env);
      if out != Panicked {
        MetadataOnlySticks(c, g, inputs[1..]);
      }
    }
  }

  /** The mark is set exactly by a metadata PDU with neither name, from a known remote entity. */
  lemma MetadataOnlyIff(c: Config, h: Handler, m: Metadata)
    requires Ready(h) && h.state == Idle && !h.tp.metadataOnly
    ensures HandleMetadata(c, h, Some(m)).0.tp.metadataOnly <==>
      m.sourceId in c.remotes && m.srcName == "" && m.destName == ""
  {
  }
}
