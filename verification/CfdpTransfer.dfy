/**
 Whole file transfers in unacknowledged mode: what arrives, in whatever order, is what is
 stored, and exactly when the handler reports it without a fault.
 */
module CfdpTransfer {
  import opened Wrappers
  import opened Reassembly
  import opened Filestore
  import opened CfdpSpec
  import opened CfdpRuns

  /** How many faults a trace reports. */
  function Faults(trace: seq<Event>): nat {
    if trace == [] then 0
    else Faults(trace[..|trace| - 1]) + if trace[|trace| - 1].FaultReported? then 1 else 0
  }

  lemma FaultsLog(trace: seq<Event>, e: Event)
    ensures Faults(trace + [e]) == Faults(trace) + if e.FaultReported? then 1 else 0
  {
    assert (trace + [e])[..|trace|] == trace;
  }

  /** Nothing in the environment fails. */
  predicate Quiet(env: Env) {
    !env.startFails && !env.writeFails && !env.verifyFails && !env.removeFails && !env.sendFails
  }

  /** Metadata of an ordinary unacknowledged file transfer from a known remote entity. */
  predicate Ordinary(c: Config, m: Metadata) {
    && m.sourceId in c.remotes && m.srcName != "" && m.destName != "" && !m.acknowledged
    && m.checksumType != OtherChecksum
  }

  /** Where the file of `m` will be stored, if that is possible. */
  function Destination(c: Config, dirs: set<string>, m: Metadata): Option<string> {
    if m.destName in dirs then c.inDirectory(m.destName, m.srcName) else Some(m.destName)
  }

  /** In the middle of receiving `m` at `path`, with the given segments written so far. */
  predicate Receiving(c: Config, h: Handler, m: Metadata, path: string, written: seq<Segment>, startProgress: nat) {
    && h.state == Busy && h.step == ReceivingFileData
    && h.tp.transactionId == Some(TransactionId(m.sourceId, m.seqNum))
    && h.tp.remote == (if m.sourceId in c.remotes then Some(c.remotes[m.sourceId]) else None)
    && h.tp.destPath == path && path in h.disk.files
    && h.disk.files[path] == Assembled(written)
    && h.tp.progress == startProgress + TotalLength(written)
    && h.tp.checksumType == m.checksumType && h.tp.closureRequested == m.closureRequested
    && !h.tp.acknowledged && !h.tp.metadataOnly
    && h.tp.condition == NoError && h.tp.delivery == Incomplete && h.tp.fileStatus == Retained
  }

  /** What outlasts the calls of a transfer: the completion disposition and the directories. */
  predicate Carries(h: Handler, g: Handler) {
    g.tp.disposition == h.tp.disposition && g.disk.dirs == h.disk.dirs
  }

  lemma MetadataStarts(c: Config, h: Handler, m: Metadata, env: Env, path: string)
    requires Ready(h) && h.state == Idle && !h.tp.metadataOnly && Ordinary(c, m) && Quiet(env)
    requires Destination(c, h.disk.dirs, m) == Some(path) && path !in h.disk.dirs
    ensures var (g, out) := Call(c, h, Some(MetadataPdu(Some(m))), env);
      && out == Sent(0) && Receiving(c, g, m, path, [], h.tp.progress)
      && Carries(h, g) && Faults(g.trace) == Faults(h.trace)
  {
    hide Faults;
    var (h1, flow) := HandleMetadata(c, h, Some(m));
    assert flow == Continue;
    FaultsLog(h.trace, TakenOnEvent(h1.tp));
    var id := TransactionId(h1.tp.sourceId, h1.tp.seqNum);
    FaultsLog(h1.trace, MetadataIndication(id, m.fileSize, m.srcName, m.destName));
    var (h2, flow2) := StartTransaction(c, h1, env);
    assert flow2 == Continue;
  }

  lemma SegmentIsWritten(c: Config, h: Handler, m: Metadata, path: string, written: seq<Segment>, p0: nat, s: Segment,
                         env: Env)
    requires Ready(h) && Receiving(c, h, m, path, written, p0) && Quiet(env)
    ensures var (g, out) := Call(c, h, Some(FileDataPdu(Some(s))), env);
      && out == Sent(0) && Receiving(c, g, m, path, written + [s], p0)
      && Carries(h, g) && Faults(g.trace) == Faults(h.trace)
  {
    hide Faults;
    var seg := SegmentIndication(h.tp.transactionId.value, s.offset, |s.data|);
    FaultsLog(h.trace, seg);
    FaultsLog(if c.indicateSegments then h.trace + [seg] else h.trace, Stored(s));
    assert (written + [s])[..|written|] == written;
  }

  /**
   An input that may come in the middle of a transfer: a poll, a segment, or a PDU that the handler
   rejects because it is for someone else, broken, or of a transaction it is too busy for.
   */
  predicate Harmless(i: Input) {
    && Quiet(i.env)
    && match i.packet
       case None => true
       case Some(FileDataPdu(_)) => true
       case Some(MetadataPdu(_)) => true
       case Some(EofPdu(eof)) => eof.None?
       case Some(AckOrPrompt) => false
       case Some(_) => true
  }

  predicate BringsSegment(i: Input) {
    i.packet.Some? && i.packet.value.FileDataPdu? && i.packet.value.segment.Some?
  }

  /** The segments among some inputs, in the order of arrival. */
  function SegmentsOf(inputs: seq<Input>): seq<Segment> {
    if inputs == [] then []
    else if BringsSegment(inputs[0]) then [inputs[0].packet.value.segment.value] + SegmentsOf(inputs[1..])
    else SegmentsOf(inputs[1..])
  }

  /** The inputs bring these segments, and nothing else that would make a difference. */
  ghost predicate Delivers(inputs: seq<Input>, segs: seq<Segment>) {
    SegmentsOf(inputs) == segs && forall i | 0 <= i < |inputs| :: Harmless(inputs[i])
  }

  /** Everything harmless but a segment leaves a receiving handler as it is. */
  lemma OthersAreIgnored(c: Config, h: Handler, i: Input)
    requires Ready(h) && h.state == Busy && Harmless(i)
    requires h.step == ReceivingFileData || (h.step == ReceivingWithCheckLimit && !i.env.expired)
    requires !BringsSegment(i)
    ensures var (g, out) := Call(c, h, i.packet, i.env); g == h && out != Panicked
  {
    hide HandleNoErrorEof, DeclareFault;
  }

  lemma {:induction false} SegmentsAreWritten(c: Config, h: Handler, m: Metadata, path: string,
                                              written: seq<Segment>, p0: nat, inputs: seq<Input>)
    requires Ready(h) && Receiving(c, h, m, path, written, p0) && Delivers(inputs, SegmentsOf(inputs))
    ensures var (g, outs) := Run(c, h, inputs);
      && Panicked !in outs && Receiving(c, g, m, path, written + SegmentsOf(inputs), p0)
      && Carries(h, g) && Faults(g.trace) == Faults(h.trace)
    decreases |inputs|
  {
    hide Call, Faults, Assembled, TotalLength;
    if inputs == [] {
      assert written + [] == written;
    } else {
      var i := inputs[0];
      CallKeepsReady(c, h, i.packet, i.env);
      var (g, out) := Call(c, h, i.packet, i.env);
      if BringsSegment(i) {
        var s := i.packet.value.segment.value;
        SegmentIsWritten(c, h, m, path, written, p0, s, i.env);
        SegmentsAreWritten(c, g, m, path, written + [s], p0, inputs[1..]);
        assert written + [s] + SegmentsOf(inputs[1..]) == written + SegmentsOf(inputs);
      } else {
        OthersAreIgnored(c, h, i);
        SegmentsAreWritten(c, g, m, path, written, p0, inputs[1..]);
      }
    }
  }

  /** An EOF PDU that describes `src` truthfully. */
  predicate Describes(c: Config, m: Metadata, eof: Eof, src: seq<U8>) {
    && eof.noError && eof.fileSize == |src|
    && (m.checksumType == Modular || m.checksumType == Crc32 ==> eof.checksum == ChecksumOf(c.crc, m.checksumType, src))
  }

  /** The completed file is thrown away because of a disposition left over from an earlier transaction. */
  predicate Discarded(c: Config, h: Handler, m: Metadata) {
    && h.tp.disposition == Cancelled && m.checksumType != NullChecksum
    && m.sourceId in c.remotes && c.remotes[m.sourceId].dispositionOnCancellation
  }

  /** A truthful EOF after all the segments is accepted without a fault. */
  lemma EofAccepted(c: Config, h: Handler, m: Metadata, path: string, segs: seq<Segment>, eof: Eof, src: seq<U8>,
                    env: Env)
    returns (g: Handler)
    requires Ready(h) && Ordinary(c, m) && Quiet(env)
    requires Receiving(c, h, m, path, segs, 0) && Partition(src, segs) && Describes(c, m, eof, src)
    ensures Insert(c, h, env, EofPdu(Some(eof))) == (g, Continue)
    ensures g.state == Busy && g.step == TransferCompletion && g.disk == h.disk && g.disk.files[path] == src
    ensures g.tp == h.tp.(checksum := eof.checksum, delivery := g.tp.delivery)
    ensures (g.tp.delivery == Incomplete <==> m.checksumType != NullChecksum) && g.tp.progress == eof.fileSize
    ensures Faults(g.trace) == Faults(h.trace)
  {
    hide Faults, Assembled, TotalLength;
    AnyOrderReassembles(src, segs);
    var id := h.tp.transactionId.value;
    var h1 := if c.indicateEof then Log(h, EofIndication(id)) else h;
    FaultsLog(h.trace, EofIndication(id));
    FaultsLog(h1.trace, EofTaken(eof));
    var h2 := Log(h1, EofTaken(eof));
    var h3 := h2.(tp := h2.tp.(checksum := eof.checksum));
    var (h4, matches) := ChecksumVerify(c, h3, env);
    FaultsLog(h3.trace, Verified(m.checksumType, eof.checksum, src));
    assert matches;
    assert HandleNoErrorEof(c, h2, env, eof) == (h4, true);
    g := CompleteTransition(h4);
  }

  lemma EofCompletes(c: Config, h: Handler, m: Metadata, path: string, segs: seq<Segment>, eof: Eof, src: seq<U8>,
                     env: Env)
    requires Ready(h) && Ordinary(c, m) && Quiet(env)
    requires Receiving(c, h, m, path, segs, 0) && Partition(src, segs) && Describes(c, m, eof, src)
    ensures var (g, out) := Call(c, h, Some(EofPdu(Some(eof))), env);
      && out == Sent(if m.closureRequested then 1 else 0)
      && g.state == Idle && Carries(h, g) && Faults(g.trace) == Faults(h.trace)
      && g.tp.progress == eof.fileSize && !g.tp.metadataOnly
      && (if Discarded(c, h, m) then path !in g.disk.files else path in g.disk.files && g.disk.files[path] == src)
      && Reports(g.trace, TransactionId(m.sourceId, m.seqNum), m, if Discarded(c, h, m) then None else Some(src))
  {
    hide Faults, Assembled, TotalLength, Insert;
    var g := EofAccepted(c, h, m, path, segs, eof, src, env);
    CompletionAddsNoFault(g, env);
  }

  /**
   The trace ends with the finished indication, and the Finished PDU if one was requested. Both
   say that there was no error; but only a transfer without a checksum is reported complete,
   because verifying a checksum does not set the delivery code.
   */
  predicate Reports(trace: seq<Event>, id: TransactionId, m: Metadata, file: Option<seq<U8>>) {
    var delivery := if m.checksumType == NullChecksum then Complete else Incomplete;
    var status := if file.Some? then Retained else DiscardDeliberately;
    var n := if m.closureRequested then 2 else 1;
    && |trace| >= n
    && trace[|trace| - n] == FinishedIndication(id, NoError, delivery, status, file)
    && (m.closureRequested ==> trace[|trace| - 1] == FinishedPduSent(None, delivery, status))
  }

  lemma CompletionAddsNoFault(h: Handler, env: Env)
    requires h.tp.transactionId.Some? && h.tp.remote.Some?
    ensures Faults(CompleteTransfer(h, env).0.trace) == Faults(h.trace)
  {
    hide Faults;
    var (g, flow) := NoticeOfCompletion(h, env);
    FaultsLog(h.trace, FinishedEvent(g));
    FaultsLog(g.trace, FinishedPduEvent(g.tp));
  }

  lemma {:induction false} FaultsGrow(a: seq<Event>, b: seq<Event>)
    requires a <= b
    ensures Faults(a) <= Faults(b)
    decreases |b|
  {
    if a == b {
    } else {
      FaultsGrow(a, b[..|b| - 1]);
    }
  }

  /** Progress beyond the file, left over or from overlaps, makes a truthful EOF a file size error. */
  lemma EofFaults(c: Config, h: Handler, m: Metadata, path: string, segs: seq<Segment>, p0: nat, eof: Eof,
                  src: seq<U8>, env: Env)
    requires Ready(h) && Receiving(c, h, m, path, segs, p0) && p0 + TotalLength(segs) > |src|
    requires Describes(c, m, eof, src)
    ensures Faults(Call(c, h, Some(EofPdu(Some(eof))), env).0.trace) > Faults(h.trace)
  {
    hide Faults, Assembled, TotalLength, ChecksumVerify;
    var id := h.tp.transactionId.value;
    var h1 := if c.indicateEof then Log(h, EofIndication(id)) else h;
    FaultsLog(h.trace, EofIndication(id));
    FaultsLog(h1.trace, EofTaken(eof));
    var h2 := Log(h1, EofTaken(eof));
    var h3 := DeclareFault(c, h2, FileSizeError);
    SizeFaultCounts(c, h2);
    var (h4, finish) := HandleNoErrorEof(c, h2, env, eof);
    assert h3.trace <= h4.trace;
    var (g, out) := Call(c, h, Some(EofPdu(Some(eof))), env);
    assert h4.trace <= g.trace;
    FaultsGrow(h3.trace, g.trace);
  }

  lemma SizeFaultCounts(c: Config, h: Handler)
    requires h.tp.transactionId.Some?
    ensures Faults(DeclareFault(c, h, FileSizeError).trace) == Faults(h.trace) + 1
  {
    hide Faults;
    var code := c.faultTable(FileSizeError);
    var before :=
      if code == NoticeOfCancellation then Cancel(h, FileSizeError).trace
      else if code == AbandonTransaction then Abandon(h).trace else h.trace;
    FaultsLog(h.trace, CancellationNotice(FileSizeError));
    FaultsLog(h.trace, Abandoned);
    FaultsLog(before, FaultReported(h.tp.transactionId.value, FileSizeError, h.tp.progress, code));
  }

  /** A transfer of `src` to `path`: its PDUs, and what else arrives in between, with the environment meanwhile. */
  datatype Transfer = Transfer(m: Metadata, path: string, src: seq<U8>, eof: Eof, first: Env, data: seq<Input>,
                               last: Env)

  /**
   An ordinary transfer: possible, complete, truthful, and nothing in the environment fails. Its
   segments arrive in any order, and some may arrive more than once or overlap.
   */
  ghost predicate Proper(c: Config, dirs: set<string>, t: Transfer) {
    && Ordinary(c, t.m) && Destination(c, dirs, t.m) == Some(t.path) && t.path !in dirs
    && Covering(t.src, SegmentsOf(t.data)) && Delivers(t.data, SegmentsOf(t.data)) && Describes(c, t.m, t.eof, t.src)
    && Quiet(t.first) && Quiet(t.last)
  }

  function InputsOf(t: Transfer): seq<Input> {
    [Input(Some(MetadataPdu(Some(t.m))), t.first)] + t.data + [Input(Some(EofPdu(Some(t.eof))), t.last)]
  }

  /**
   A whole transfer: metadata, then segments that cover `src` in any order, among polls and PDUs
   that are rejected, then the EOF. It is reported without a fault exactly when no progress was left
   over from an earlier transaction and no byte arrives twice; and then the file is stored byte for
   byte, the EOF size equals the progress, the Finished PDU goes out exactly if requested, and the
   handler is idle. The file is still there afterwards unless a disposition left over from an
   earlier cancellation discards it.
   */
  lemma TransferInAnyOrder(c: Config, h: Handler, t: Transfer)
    requires Ready(h) && h.state == Idle && !h.tp.metadataOnly && Proper(c, h.disk.dirs, t)
    ensures
      var (g, outs) := Run(c, h, InputsOf(t));
      var kept := if Discarded(c, h, t.m) then None else Some(t.src);
      var clean := h.tp.progress == 0 && Disjoint(SegmentsOf(t.data));
      && (Faults(g.trace) == Faults(h.trace) <==> clean)
      && (clean ==>
            && |outs| == |InputsOf(t)| && Panicked !in outs
            && outs[|outs| - 1] == Sent(if t.m.closureRequested then 1 else 0)
            && g.state == Idle && g.tp.progress == |t.src| && !g.tp.metadataOnly && Carries(h, g)
            && (if kept.Some? then t.path in g.disk.files && g.disk.files[t.path] == t.src else t.path !in g.disk.files)
            && Reports(g.trace, TransactionId(t.m.sourceId, t.m.seqNum), t.m, kept))
  {
    hide Faults, Call, Receiving, Covering, Disjoint, Assembled, TotalLength;
    var start, finish := Input(Some(MetadataPdu(Some(t.m))), t.first), Input(Some(EofPdu(Some(t.eof))), t.last);
    var segs := SegmentsOf(t.data);
    var g1 := OneCall(c, h, start);
    MetadataStarts(c, h, t.m, t.first, t.path);
    SegmentsAreWritten(c, g1, t.m, t.path, [], h.tp.progress, t.data);
    RunConcat(c, h, [start], t.data);
    var g2 := Run(c, g1, t.data).0;
    assert [] + segs == segs;
    RunConcat(c, h, [start] + t.data, [finish]);
    var g3 := OneCall(c, g2, finish);
    AnyOrderReassembles(t.src, segs);
    if h.tp.progress == 0 && Disjoint(segs) {
      EofCompletes(c, g2, t.m, t.path, segs, t.eof, t.src, t.last);
    } else {
      EofFaults(c, g2, t.m, t.path, segs, h.tp.progress, t.eof, t.src, t.last);
    }
  }

  /**
   The same from the handler as constructed: a first transfer is free of faults exactly if no byte
   arrives twice, and a second one after that only if the first file was empty, because progress is
   never taken back.
   */
  lemma SecondTransferFaultsIff(c: Config, disk: Disk, one: Transfer, two: Transfer)
    requires Proper(c, disk.dirs, one) && Proper(c, disk.dirs, two)
    ensures Faults(Run(c, Initial(disk), InputsOf(one)).0.trace) == 0 <==> Disjoint(SegmentsOf(one.data))
    ensures Disjoint(SegmentsOf(one.data)) ==>
      (Faults(Run(c, Initial(disk), InputsOf(one) + InputsOf(two)).0.trace) == 0 <==>
         one.src == [] && Disjoint(SegmentsOf(two.data)))
  {
    hide Call, Proper, InputsOf, Disjoint;
    TransferInAnyOrder(c, Initial(disk), one);
    if Disjoint(SegmentsOf(one.data)) {
      var g := Run(c, Initial(disk), InputsOf(one)).0;
      TransferInAnyOrder(c, g, two);
      RunConcat(c, Initial(disk), InputsOf(one), InputsOf(two));
    }
  }

  lemma OneCall(c: Config, h: Handler, i: Input) returns (g: Handler)
    requires Ready(h)
    ensures g == Call(c, h, i.packet, i.env).0
    ensures Run(c, h, [i]) == (g, [Call(c, h, i.packet, i.env).1])
    ensures Call(c, h, i.packet, i.env).1 != Panicked ==> Ready(g)
  {
    CallKeepsReady(c, h, i.packet, i.env);
    g := Call(c, h, i.packet, i.env).0;
    assert [i][1..] == [];
    var out := Call(c, h, i.packet, i.env).1;
    assert out != Panicked ==> Run(c, g, []) == (g, []);
    assert [out] + [] == [out];
  }

  // ------------------------------------------- segments that arrive after the EOF

  /** Like `Receiving`, but the EOF is in and the check limit timer runs. */
  predicate ReceivingLate(c: Config, h: Handler, m: Metadata, path: string, written: seq<Segment>, eof: Eof) {
    && h.step == ReceivingWithCheckLimit && h.tp.timer && h.tp.checksum == eof.checksum
    && Receiving(c, h.(step := ReceivingFileData), m, path, written, 0)
  }

  /** An EOF that comes before the last segments is one checksum fault, which is ignored. */
  lemma EofTooEarly(c: Config, h: Handler, m: Metadata, path: string, written: seq<Segment>, eof: Eof, env: Env)
    requires Ready(h) && Receiving(c, h, m, path, written, 0) && Ordinary(c, m) && Quiet(env) && !env.expired
    requires eof.noError && TotalLength(written) <= eof.fileSize && c.faultTable(FileChecksumFailure) == IgnoreError
    requires m.checksumType == Modular || m.checksumType == Crc32
    requires ChecksumOf(c.crc, m.checksumType, Assembled(written)) != eof.checksum
    ensures var (g, out) := Call(c, h, Some(EofPdu(Some(eof))), env);
      && out == Sent(0) && ReceivingLate(c, g, m, path, written, eof) && g.tp.checkCount == 0
      && Carries(h, g) && Faults(g.trace) == Faults(h.trace) + 1
  {
    hide Faults, Assembled, TotalLength;
    var id := h.tp.transactionId.value;
    var h1 := if c.indicateEof then Log(h, EofIndication(id)) else h;
    FaultsLog(h.trace, EofIndication(id));
    FaultsLog(h1.trace, EofTaken(eof));
    var h2 := Log(h1, EofTaken(eof));
    var h3 := h2.(tp := h2.tp.(checksum := eof.checksum));
    assert ChecksumVerify(c, h3, env) == (h3, false);
    var fault := FaultReported(id, FileChecksumFailure, h.tp.progress, IgnoreError);
    FaultsLog(h3.trace, fault);
    assert DeclareFault(c, h3, FileChecksumFailure) == Log(h3, fault);
    var h4 := StartCheckLimitHandling(Log(h3, fault));
    assert HandleNoErrorEof(c, h2, env, eof) == (h4, false);
    assert CheckLimitHandling(c, h4, env) == h4;
  }

  lemma LateSegmentIsWritten(c: Config, h: Handler, m: Metadata, path: string, written: seq<Segment>, eof: Eof,
                             s: Segment, env: Env)
    requires Ready(h) && ReceivingLate(c, h, m, path, written, eof) && Quiet(env) && !env.expired
    ensures var (g, out) := Call(c, h, Some(FileDataPdu(Some(s))), env);
      && out == Sent(0) && ReceivingLate(c, g, m, path, written + [s], eof)
      && Carries(h, g) && Faults(g.trace) == Faults(h.trace)
  {
    hide Faults;
    var seg := SegmentIndication(h.tp.transactionId.value, s.offset, |s.data|);
    FaultsLog(h.trace, seg);
    FaultsLog(if c.indicateSegments then h.trace + [seg] else h.trace, Stored(s));
    assert (written + [s])[..|written|] == written;
  }

  lemma {:induction false} LateSegmentsAreWritten(c: Config, h: Handler, m: Metadata, path: string,
                                                  written: seq<Segment>, eof: Eof, inputs: seq<Input>)
    requires Ready(h) && ReceivingLate(c, h, m, path, written, eof) && Delivers(inputs, SegmentsOf(inputs))
    requires forall i | 0 <= i < |inputs| :: !inputs[i].env.expired
    ensures var (g, outs) := Run(c, h, inputs);
      && Panicked !in outs && ReceivingLate(c, g, m, path, written + SegmentsOf(inputs), eof)
      && Carries(h, g) && Faults(g.trace) == Faults(h.trace)
    decreases |inputs|
  {
    hide Call, Faults, Assembled, TotalLength;
    if inputs == [] {
      assert written + [] == written;
    } else {
      var i := inputs[0];
      CallKeepsReady(c, h, i.packet, i.env);
      var (g, out) := Call(c, h, i.packet, i.env);
      if BringsSegment(i) {
        var s := i.packet.value.segment.value;
        LateSegmentIsWritten(c, h, m, path, written, eof, s, i.env);
        LateSegmentsAreWritten(c, g, m, path, written + [s], eof, inputs[1..]);
        assert written + [s] + SegmentsOf(inputs[1..]) == written + SegmentsOf(inputs);
      } else {
        OthersAreIgnored(c, h, i);
        LateSegmentsAreWritten(c, g, m, path, written, eof, inputs[1..]);
      }
    }
  }

  /** When everything is there, the next expiry of the timer completes the transfer. */
  lemma PollCompletes(c: Config, h: Handler, m: Metadata, path: string, segs: seq<Segment>, eof: Eof, src: seq<U8>,
                      env: Env)
    requires Ready(h) && ReceivingLate(c, h, m, path, segs, eof) && Ordinary(c, m) && Quiet(env) && env.expired
    requires m.checksumType == Modular || m.checksumType == Crc32
    requires Covering(src, segs) && Describes(c, m, eof, src)
    ensures var (g, out) := Call(c, h, None, env);
      && out == Sent(if m.closureRequested then 1 else 0) && g.state == Idle && Faults(g.trace) == Faults(h.trace)
      && (if Discarded(c, h, m) then path !in g.disk.files else path in g.disk.files && g.disk.files[path] == src)
      && Reports(g.trace, TransactionId(m.sourceId, m.seqNum), m, if Discarded(c, h, m) then None else Some(src))
  {
    hide Faults, Assembled, TotalLength;
    AnyOrderReassembles(src, segs);
    FaultsLog(h.trace, Verified(m.checksumType, eof.checksum, src));
    assert ChecksumVerify(c, h, env) == (Log(h, Verified(m.checksumType, eof.checksum, src)), true);
    var h1 := CompleteTransition(Log(h, Verified(m.checksumType, eof.checksum, src)));
    assert CheckLimitHandling(c, h, env) == h1;
    CompletionAddsNoFault(h1, env);
  }

  /**
   The EOF may overtake segments: with checksum failures ignored, an EOF in the middle of the
   segments costs one reported fault, and the transfer completes at the first expiry of the check
   limit timer after the last segment. What arrives after the EOF may also arrive twice.
   */
  lemma TransferWithEarlyEof(c: Config, h: Handler, m: Metadata, path: string, src: seq<U8>, eof: Eof,
                             first: seq<Input>, eofEnv: Env, second: seq<Input>, poll: Env)
    requires Ready(h) && c.faultTable(FileChecksumFailure) == IgnoreError
    requires Receiving(c, h, m, path, [], 0) && Ordinary(c, m) && (m.checksumType == Modular || m.checksumType == Crc32)
    requires Covering(src, SegmentsOf(first) + SegmentsOf(second)) && TotalLength(SegmentsOf(first)) <= |src|
    requires Describes(c, m, eof, src)
    requires ChecksumOf(c.crc, m.checksumType, Assembled(SegmentsOf(first))) != eof.checksum
    requires Delivers(first, SegmentsOf(first)) && Delivers(second, SegmentsOf(second))
    requires forall i | 0 <= i < |second| :: !second[i].env.expired
    requires Quiet(eofEnv) && !eofEnv.expired && Quiet(poll) && poll.expired
    ensures
      var inputs := first + [Input(Some(EofPdu(Some(eof))), eofEnv)] + second + [Input(None, poll)];
      var (g, outs) := Run(c, h, inputs);
      && Panicked !in outs && g.state == Idle && Faults(g.trace) == Faults(h.trace) + 1
      && (if Discarded(c, h, m) then path !in g.disk.files else path in g.disk.files && g.disk.files[path] == src)
      && Reports(g.trace, TransactionId(m.sourceId, m.seqNum), m, if Discarded(c, h, m) then None else Some(src))
  {
    hide Faults, Call, Receiving, Covering, Assembled, ReceivingLate;
    var eofInput, pollInput := Input(Some(EofPdu(Some(eof))), eofEnv), Input(None, poll);
    var before, after := SegmentsOf(first), SegmentsOf(second);
    SegmentsAreWritten(c, h, m, path, [], 0, first);
    assert [] + before == before;
    var g1 := Run(c, h, first).0;
    EofTooEarly(c, g1, m, path, before, eof, eofEnv);
    var g2 := OneCall(c, g1, eofInput);
    LateSegmentsAreWritten(c, g2, m, path, before, eof, second);
    var g3 := Run(c, g2, second).0;
    PollCompletes(c, g3, m, path, before + after, eof, src, poll);
    var g4 := OneCall(c, g3, pollInput);
    RunConcat(c, h, first, [eofInput]);
    RunConcat(c, h, first + [eofInput], second);
    RunConcat(c, h, first + [eofInput] + second, [pollInput]);
  }
}
