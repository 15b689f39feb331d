/**
 What holds of every run of the destination handler, proved by watching its trace.
 */
module CfdpRuns {
  import opened Wrappers
  import opened Reassembly
  import opened Filestore
  import opened CfdpSpec

  datatype Input = Input(packet: Option<Packet>, env: Env)

  /** A run: the calls made one after the other, ending early if one of them panics. */
  function Run(c: Config, h: Handler, inputs: seq<Input>): (r: (Handler, seq<Outcome>))
    requires Ready(h)
    ensures |r.1| <= |inputs|
    ensures Panicked !in r.1 ==> Ready(r.0) && |r.1| == |inputs|
    decreases |inputs|
  {
    if inputs == [] then (h, [])
    else
      CallKeepsReady(c, h, inputs[0].packet, inputs[0].env);
      var (g, out) := Call(c, h, inputs[0].packet, inputs[0].env);
      if out == Panicked then (g, [out])
      else
        var (end, outs) := Run(c, g, inputs[1..]);
        (end, [out] + outs)
  }

  /** A run can be cut anywhere before it panics. */
  lemma {:induction false} RunConcat(c: Config, h: Handler, a: seq<Input>, b: seq<Input>)
    requires Ready(h) && Panicked !in Run(c, h, a).1
    ensures var (g, outs) := Run(c, h, a); Run(c, h, a + b) == (Run(c, g, b).0, outs + Run(c, g, b).1)
    decreases |a|
  {
    hide Call, Ready;
    if a == [] {
      assert a + b == b && [] + Run(c, h, b).1 == Run(c, h, b).1;
    } else {
      CallKeepsReady(c, h, a[0].packet, a[0].env);
      var (g, out) := Call(c, h, a[0].packet, a[0].env);
      assert (a + b)[1..] == a[1..] + b;
      var (end, outs) := Run(c, g, a[1..]);
      assert out == Run(c, h, a).1[0] && outs == Run(c, h, a).1[1..];
      RunConcat(c, g, a[1..], b);
      assert [out] + (outs + Run(c, end, b).1) == [out] + outs + Run(c, end, b).1;
    }
  }

  // ------------------------------------------------------------- observing

  /** Why a transfer may be completed, as far as its trace tells. */
  datatype Evidence = Exempt | Nothing | Notice | Matched(kind: ChecksumType, checksum: U32, contents: seq<U8>)

  datatype Observation = Observation(
    evidence: Evidence,      // for the transaction taken on last
    kind: ChecksumType,      // its checksum type
    eof: Option<Eof>,        // the last EOF taken for it
    everNotice: bool,        // a notice of cancellation was issued at some time
    justified: bool,         // every finished indication so far had evidence for it
    taken: nat, finished: nat, abandoned: nat,
    wanted: bool,            // the transaction taken on last wants a Finished PDU
    due: nat, sent: nat,     // Finished PDUs owed and sent
    orderly: bool,           // every Finished PDU directly followed a finished indication
    justFinished: bool)

  const NothingSeen: Observation :=
    Observation(Exempt, NullChecksum, None, false, true, 0, 0, 0, false, 0, 0, true, false)

  /** The contents have the checksum of their kind. */
  predicate Matches(crc: Crc, kind: ChecksumType, checksum: U32, contents: seq<U8>) {
    (kind == Modular || kind == Crc32) && ChecksumOf(crc, kind, contents) == checksum
  }

  predicate FinishJustified(crc: Crc, o: Observation, status: FileStatus, file: Option<seq<U8>>) {
    o.taken > 0 &&
    match o.evidence
    case Exempt => true
    case Notice => true
    case Nothing => false
    case Matched(kind, checksum, contents) =>
      && kind == o.kind && o.eof.Some? && checksum == o.eof.value.checksum && Matches(crc, kind, checksum, contents)
      && (file == Some(contents) || (file.None? && status == DiscardDeliberately && o.everNotice))
  }

  function Next(crc: Crc, o: Observation, e: Event): Observation {
    var o' := o.(justFinished := e.FinishedIndication?);
    match e
    case TakenOn(wants, _, metadataOnly, kind) =>
      o'.(evidence := if HasChecksum(kind, metadataOnly) then Nothing else Exempt, kind := kind, eof := None,
          taken := o.taken + 1, wanted := wants)
    case EofTaken(eof) => o'.(eof := Some(eof))
    case CancellationNotice(_) =>
      o'.(evidence := if o.evidence == Exempt then Exempt else Notice, everNotice := true)
    case Abandoned => o'.(abandoned := o.abandoned + 1)
    case Verified(kind, checksum, contents) =>
      var settled := o.evidence == Exempt || o.evidence == Notice;
      o'.(evidence := if settled then o.evidence else Matched(kind, checksum, contents))
    case FinishedIndication(_, _, _, status, file) =>
      o'.(justified := o.justified && FinishJustified(crc, o, status, file),
          finished := o.finished + 1, due := if o.wanted then o.due + 1 else o.due)
    case FinishedPduSent(_, _, _) => o'.(sent := o.sent + 1, orderly := o.orderly && o.justFinished)
    case _ => o'
  }

  function Observe(crc: Crc, trace: seq<Event>): Observation {
    if trace == [] then NothingSeen else Next(crc, Observe(crc, trace[..|trace| - 1]), trace[|trace| - 1])
  }

  lemma ObserveLog(crc: Crc, h: Handler, e: Event)
    ensures Observe(crc, Log(h, e).trace) == Next(crc, Observe(crc, h.trace), e)
  {
    assert (h.trace + [e])[..|h.trace|] == h.trace;
  }

  lemma NothingObserved(crc: Crc)
    ensures Observe(crc, []) == NothingSeen
  {
  }

  lemma ObserveLast(crc: Crc, trace: seq<Event>)
    requires trace != []
    ensures Observe(crc, trace) == Next(crc, Observe(crc, trace[..|trace| - 1]), trace[|trace| - 1])
  {
  }

  // ------------------------------------------------------------ invariants

  /** The evidence is about this transfer, and completion is only reached with enough of it. */
  ghost predicate Backed(c: Config, h: Handler) {
    var o := Observe(c.crc, h.trace);
    && o.taken > 0 && (o.evidence == Exempt <==> !Verifiable(h.tp))
    && (Verifiable(h.tp) ==> o.kind == h.tp.checksumType)
    && (h.step == ReceivingWithCheckLimit ==> EofIs(c, h))
    && (h.step == TransferCompletion ==> EvidenceNow(c, h))
  }

  /** The checksum to verify is that of the EOF taken last. */
  ghost predicate EofIs(c: Config, h: Handler) {
    var o := Observe(c.crc, h.trace); o.eof.Some? && o.eof.value.checksum == h.tp.checksum
  }

  /** A notice was issued, or the file is what the checksum was verified against. */
  ghost predicate EvidenceNow(c: Config, h: Handler) {
    FinishJustified(c.crc, Observe(c.crc, h.trace), h.tp.fileStatus, FileContents(h))
  }

  /** What holds whatever has become of the transaction. */
  ghost predicate Honest(c: Config, h: Handler) {
    var o := Observe(c.crc, h.trace); o.justified && (h.tp.disposition == Cancelled ==> o.everNotice)
  }

  /** What holds between calls. */
  ghost predicate EvidenceInv(c: Config, h: Handler) {
    Honest(c, h) && (h.state == Busy ==> Backed(c, h))
  }

  /** What holds within a call, even after a fault has abandoned the transaction. */
  ghost predicate MidInv(c: Config, h: Handler) {
    Honest(c, h) && Backed(c, h)
  }

  /**
   Every transaction taken on is abandoned, in progress or finished once, and finished once more
   for each Finished PDU still owed.
   */
  ghost predicate BooksBalance(c: Config, h: Handler) {
    var o := Observe(c.crc, h.trace);
    && o.taken + (o.due - o.sent) == o.finished + o.abandoned + (if h.state == Busy then 1 else 0)
    && o.sent <= o.due && o.orderly
    && (h.state == Busy ==> o.wanted == WantsFinishedPdu(h.tp))
  }

  /** No transaction was finished and no PDU sent in between. */
  ghost predicate SameCounts(c: Config, h: Handler, g: Handler) {
    var o, o' := Observe(c.crc, h.trace), Observe(c.crc, g.trace);
    o'.finished == o.finished && o'.sent == o.sent && o'.due == o.due
  }

  /** Nor was an EOF taken, or its checksum changed. */
  ghost predicate SameEof(c: Config, h: Handler, g: Handler) {
    SameCounts(c, h, g) && g.tp.checksum == h.tp.checksum && Observe(c.crc, g.trace).eof == Observe(c.crc, h.trace).eof
  }

  function Noticed(o: Observation): Observation {
    o.(evidence := if o.evidence == Exempt then Exempt else Notice, everNotice := true, justFinished := false)
  }

  lemma FaultObserved(c: Config, h: Handler, cond: ConditionCode)
    requires h.tp.transactionId.Some?
    ensures var o, o' := Observe(c.crc, h.trace), Observe(c.crc, DeclareFault(c, h, cond).trace);
      o' == match c.faultTable(cond)
            case NoticeOfCancellation => Noticed(o)
            case AbandonTransaction =>
              o.(justFinished := false, abandoned := o.abandoned + if h.state == Busy then 1 else 0)
            case _ => o.(justFinished := false)
  {
    hide Observe;
    var code := c.faultTable(cond);
    var fault := FaultReported(h.tp.transactionId.value, cond, h.tp.progress, code);
    if code == NoticeOfCancellation {
      ObserveLog(c.crc, h.(step := TransferCompletion, tp := h.tp.(condition := cond, disposition := Cancelled)),
        CancellationNotice(cond));
      ObserveLog(c.crc, Cancel(h, cond), fault);
    } else if code == AbandonTransaction {
      ObserveLog(c.crc, Reset(h), Abandoned);
      ObserveLog(c.crc, Abandon(h), fault);
    } else {
      ObserveLog(c.crc, h, fault);
    }
  }

  lemma FaultKeeps(c: Config, h: Handler, cond: ConditionCode)
    requires h.tp.transactionId.Some? && MidInv(c, h)
    ensures var g := DeclareFault(c, h, cond);
      && MidInv(c, g) && SameEof(c, h, g)
      && (BooksBalance(c, h) ==> BooksBalance(c, g))
  {
    hide Observe, Next;
    FaultObserved(c, h, cond);
  }

  /** A transfer without a checksum needs no evidence. */
  lemma ExemptNow(c: Config, h: Handler)
    requires MidInv(c, h) && !Verifiable(h.tp)
    ensures EvidenceNow(c, h)
  {
    hide Observe;
  }

  /** A match is evidence. */
  lemma MatchKeeps(c: Config, h: Handler)
    requires MidInv(c, h) && EofIs(c, h) && Verifiable(h.tp) && h.tp.destPath in h.disk.files
    requires Matches(c.crc, h.tp.checksumType, h.tp.checksum, h.disk.files[h.tp.destPath])
    ensures var g := Log(h, Verified(h.tp.checksumType, h.tp.checksum, h.disk.files[h.tp.destPath]));
      MidInv(c, g) && SameEof(c, h, g) && EvidenceNow(c, g) && (BooksBalance(c, h) ==> BooksBalance(c, g))
  {
    hide Observe, ChecksumOf;
    ObserveLog(c.crc, h, Verified(h.tp.checksumType, h.tp.checksum, h.disk.files[h.tp.destPath]));
  }

  lemma VerifyKeeps(c: Config, h: Handler, env: Env)
    requires h.tp.transactionId.Some? && MidInv(c, h) && EofIs(c, h)
    ensures var (g, matches) := ChecksumVerify(c, h, env);
      && MidInv(c, g) && SameEof(c, h, g)
      && (matches ==> EvidenceNow(c, g))
      && (BooksBalance(c, h) ==> BooksBalance(c, g))
  {
    hide Observe, DeclareFault, FinishJustified;
    var (g, matches) := ChecksumVerify(c, h, env);
    if h.tp.checksumType == OtherChecksum {
      FaultKeeps(c, h, UnsupportedChecksumType);
    } else if FileUnreadable(h, env) {
      FaultKeeps(c, h, FilestoreRejection);
    } else if matches && Verifiable(h.tp) {
      MatchKeeps(c, h);
    }
    if !Verifiable(h.tp) {
      ExemptNow(c, g);
    }
  }

  /** Verifying the file, and declaring the fault if that fails. */
  lemma EofCheckKeeps(c: Config, h: Handler, env: Env)
    requires h.tp.transactionId.Some? && MidInv(c, h) && EofIs(c, h)
    ensures var (h1, matches) := ChecksumVerify(c, h, env);
      var g := if matches then h1 else DeclareFault(c, h1, FileChecksumFailure);
      && MidInv(c, g) && SameEof(c, h, g) && (matches ==> EvidenceNow(c, g))
      && (BooksBalance(c, h) ==> BooksBalance(c, g))
  {
    hide Observe, ChecksumVerify, DeclareFault, FinishJustified, Backed, BooksBalance, Honest;
    VerifyKeeps(c, h, env);
    var (h1, matches) := ChecksumVerify(c, h, env);
    if !matches {
      FaultKeeps(c, h1, FileChecksumFailure);
    }
  }

  lemma EofKeeps(c: Config, h: Handler, env: Env, eof: Eof)
    requires h.tp.transactionId.Some? && h.tp.remote.Some? && h.step == ReceivingFileData
    requires MidInv(c, h) && Observe(c.crc, h.trace).eof == Some(eof)
    ensures var (g, finish) := HandleNoErrorEof(c, h, env, eof);
      && MidInv(c, g) && SameCounts(c, h, g)
      && (finish && !g.tp.acknowledged ==> EvidenceNow(c, g))
      && (BooksBalance(c, h) ==> BooksBalance(c, g))
  {
    hide Observe, ChecksumVerify, DeclareFault, FinishJustified;
    var tooLong := h.tp.progress > eof.fileSize;
    if tooLong {
      FaultKeeps(c, h, FileSizeError);
    }
    if !SizeStops(c, h, eof) {
      var h1 := if tooLong then DeclareFault(c, h, FileSizeError) else h;
      var h2 := h1.(tp := h1.tp.(checksum := eof.checksum));
      if !h2.tp.acknowledged {
        EofCheckKeeps(c, h2, env);
      }
    }
  }

  lemma EofPacketKeeps(c: Config, h: Handler, env: Env, eof: Option<Eof>)
    requires Ready(h) && EvidenceInv(c, h)
    ensures var (g, flow) := HandleEof(c, h, env, eof);
      && (flow != Todo ==> EvidenceInv(c, g) && SameCounts(c, h, g))
      && (flow == Continue ==> MidInv(c, g))
      && (BooksBalance(c, h) && flow != Todo ==> BooksBalance(c, g))
  {
    hide Observe, HandleNoErrorEof;
    if h.state == Busy && h.step == ReceivingFileData && eof.Some? && eof.value.noError {
      var id := h.tp.transactionId.value;
      var h1 := if c.indicateEof then Log(h, EofIndication(id)) else h;
      if c.indicateEof {
        ObserveLog(c.crc, h, EofIndication(id));
      }
      ObserveLog(c.crc, h1, EofTaken(eof.value));
      EofKeeps(c, Log(h1, EofTaken(eof.value)), env, eof.value);
    }
  }

  lemma InsertKeeps(c: Config, h: Handler, env: Env, p: Packet)
    requires Ready(h) && EvidenceInv(c, h)
    ensures var (g, flow) := Insert(c, h, env, p);
      && (flow != Todo ==> EvidenceInv(c, g) && SameCounts(c, h, g))
      && (BooksBalance(c, h) && flow != Todo ==> BooksBalance(c, g))
  {
    hide Observe, HandleEof, HandleFileData, HandleMetadata;
    match p
    case MetadataPdu(m) => MetadataKeeps(c, h, m);
    case FileDataPdu(s) => FileDataKeeps(c, h, env, s);
    case EofPdu(e) => EofPacketKeeps(c, h, env, e);
    case _ =>
  }

  lemma MetadataKeeps(c: Config, h: Handler, m: Option<Metadata>)
    requires Ready(h) && EvidenceInv(c, h)
    ensures var (g, flow) := HandleMetadata(c, h, m);
      EvidenceInv(c, g) && SameCounts(c, h, g) && (BooksBalance(c, h) ==> BooksBalance(c, g))
  {
    hide Observe;
    var (g, flow) := HandleMetadata(c, h, m);
    if flow == Continue {
      var g0 := g.(trace := h.trace);
      assert g == Log(g0, TakenOnEvent(g.tp));
      ObserveLog(c.crc, g0, TakenOnEvent(g.tp));
    }
  }

  /** Logging something that is no evidence of anything. */
  lemma IndicationKeeps(c: Config, h: Handler, e: Event)
    requires (e.SegmentIndication? || e.Stored?) && h.step != TransferCompletion && EvidenceInv(c, h)
    ensures EvidenceInv(c, Log(h, e)) && SameCounts(c, h, Log(h, e))
    ensures BooksBalance(c, h) ==> BooksBalance(c, Log(h, e))
  {
    hide Observe, FinishJustified;
    ObserveLog(c.crc, h, e);
  }

  /** Nor is what file data changes in a handler that is not completing. */
  lemma ProgressKeeps(c: Config, h: Handler, disk: Disk, progress: nat)
    requires h.step != TransferCompletion && EvidenceInv(c, h)
    ensures var g := h.(disk := disk, tp := h.tp.(progress := progress));
      EvidenceInv(c, g) && SameCounts(c, h, g) && (BooksBalance(c, h) ==> BooksBalance(c, g))
  {
    hide Observe, FinishJustified;
  }

  lemma FileDataKeeps(c: Config, h: Handler, env: Env, s: Option<Segment>)
    requires Ready(h) && EvidenceInv(c, h)
    ensures var (g, flow) := HandleFileData(c, h, env, s);
      EvidenceInv(c, g) && SameCounts(c, h, g) && (BooksBalance(c, h) ==> BooksBalance(c, g))
  {
    hide Observe, FinishJustified, DeclareFault, BooksBalance, Backed;
    if h.state == Busy && (h.step == ReceivingFileData || h.step == ReceivingWithCheckLimit) && s.Some? {
      var seg := SegmentIndication(h.tp.transactionId.value, s.value.offset, |s.value.data|);
      var h1 := if c.indicateSegments then Log(h, seg) else h;
      IndicationKeeps(c, h, seg);
      FaultKeeps(c, h1, FilestoreRejection);
      var (disk, _) := Write(h.disk, h.tp.destPath, s.value.offset, s.value.data, env.writeFails);
      var progress := h.tp.progress + |s.value.data|;
      ProgressKeeps(c, h1, disk, progress);
      IndicationKeeps(c, h1.(disk := disk, tp := h.tp.(progress := progress)), Stored(s.value));
    }
  }

  lemma StartKeeps(c: Config, h: Handler, env: Env)
    requires h.step == TransactionStart && MidInv(c, h)
    ensures var (g, flow) := StartTransaction(c, h, env);
      MidInv(c, g) && SameCounts(c, h, g) && (BooksBalance(c, h) ==> BooksBalance(c, g))
  {
    hide Observe;
    var id := TransactionId(h.tp.sourceId, h.tp.seqNum);
    ObserveLog(c.crc, h.(tp := h.tp.(destPath := h.tp.destName, transactionId := Some(id))),
      MetadataIndication(id, h.tp.fileSize, h.tp.srcName, h.tp.destName));
  }

  lemma CheckLimitKeeps(c: Config, h: Handler, env: Env)
    requires MidCall(h) && h.step == ReceivingWithCheckLimit && MidInv(c, h)
    ensures var g := CheckLimitHandling(c, h, env);
      MidInv(c, g) && SameCounts(c, h, g) && (BooksBalance(c, h) ==> BooksBalance(c, g))
  {
    hide Observe, ChecksumVerify;
    VerifyKeeps(c, h, env);
    var (g, matches) := ChecksumVerify(c, h, env);
    FaultKeeps(c, g, CheckLimitReached);
  }

  /** No Finished PDU is owed. */
  ghost predicate NothingOwed(c: Config, h: Handler) {
    var o := Observe(c.crc, h.trace); o.sent == o.due
  }

  /**
   What a call returns counts the PDUs it sent. It indicates at most one finish, and after that the
   handler is back in the idle step exactly if a wanted Finished PDU could be sent.
   */
  ghost predicate CallBooks(c: Config, h: Handler, g: Handler, out: Outcome, env: Env) {
    var o, o' := Observe(c.crc, h.trace), Observe(c.crc, g.trace);
    && o'.sent == o.sent + (if out.Sent? then out.packets else 0)
    && (o'.finished == o.finished || (o'.finished == o.finished + 1 && IdlesUnlessOwed(g, env)))
  }

  predicate IdlesUnlessOwed(g: Handler, env: Env) {
    g.step == IdleStep <==> !(WantsFinishedPdu(g.tp) && env.sendFails)
  }

  /** Where completing a transfer leaves the handler at the end of the call. */
  function AfterCompletion(g: Handler): Handler {
    if g.step == SendingFinishedPdu then Reset(g) else g
  }

  /** The end of a transfer: what is indicated has evidence for it. */
  lemma CompletionKeeps(c: Config, h: Handler, env: Env)
    requires h.tp.transactionId.Some? && h.tp.remote.Some? && h.step == TransferCompletion && MidInv(c, h)
    ensures EvidenceInv(c, AfterCompletion(CompleteTransfer(h, env).0))
  {
    hide Observe, FinishJustified;
    CompletionObserved(c, h, env);
    if !RemovalFails(h, env) {
      NoticeJustified(c, h, env);
      var g0 := NoticeOfCompletion(h, env).0;
      var o := Observe(c.crc, h.trace);
      JustifiedAfterFinish(c.crc, o, FinishedEvent(g0));
    }
  }

  /** What is about to be indicated has evidence for it, whether or not the file was thrown away. */
  lemma NoticeJustified(c: Config, h: Handler, env: Env)
    requires h.tp.transactionId.Some? && h.tp.remote.Some? && h.step == TransferCompletion && MidInv(c, h)
    requires !RemovalFails(h, env)
    ensures var g := NoticeOfCompletion(h, env).0;
      FinishJustified(c.crc, Observe(c.crc, h.trace), g.tp.fileStatus, FileContents(g))
  {
    hide Observe;
  }

  /** Indicating it once more would have the same evidence. */
  lemma JustifiedAfterFinish(crc: Crc, o: Observation, e: Event)
    requires e.FinishedIndication?
    ensures FinishJustified(crc, Next(crc, o, e), e.status, e.file) == FinishJustified(crc, o, e.status, e.file)
  {
  }

  /** And it keeps the books. */
  lemma CompletionBalances(c: Config, h: Handler, env: Env)
    requires h.tp.transactionId.Some? && h.tp.remote.Some? && h.step == TransferCompletion
    requires h.state == Busy && BooksBalance(c, h)
    ensures var g := AfterCompletion(CompleteTransfer(h, env).0);
      BooksBalance(c, g) && (NothingOwed(c, h) && !env.sendFails ==> NothingOwed(c, g))
  {
    hide Observe, Next, CompleteTransfer, NoticeOfCompletion, RemovalFails;
    CompletionObserved(c, h, env);
    FinishCounts(c.crc, Observe(c.crc, h.trace), FinishedEvent(NoticeOfCompletion(h, env).0));
  }

  lemma FinishCounts(crc: Crc, o: Observation, e: Event)
    requires e.FinishedIndication?
    ensures var o' := Next(crc, o, e);
      o' == o.(justified := o'.justified, justFinished := true, finished := o.finished + 1,
               due := if o.wanted then o.due + 1 else o.due)
  {
  }

  lemma CompletionObserved(c: Config, h: Handler, env: Env)
    requires h.tp.transactionId.Some? && h.tp.remote.Some?
    ensures var (g, out) := CompleteTransfer(h, env); var o := Observe(c.crc, h.trace);
      if RemovalFails(h, env) then g == h && out.Failed?
      else
        var (g0, _) := NoticeOfCompletion(h, env);
        var o' := Next(c.crc, o, FinishedEvent(g0));
        && out == (if !WantsFinishedPdu(h.tp) then Sent(0) else if env.sendFails then Failed(Pdu) else Sent(1))
        && Observe(c.crc, g.trace) ==
             if out == Sent(1) then o'.(justFinished := false, sent := o'.sent + 1, orderly := o'.orderly) else o'
  {
    hide Observe;
    var (g, flow) := NoticeOfCompletion(h, env);
    if flow == Continue {
      var g0 := g.(trace := h.trace);
      assert g == Log(g0, FinishedEvent(g));
      ObserveLog(c.crc, g0, FinishedEvent(g));
      if WantsFinishedPdu(g.tp) && !env.sendFails {
        ObserveLog(c.crc, g, FinishedPduEvent(g.tp));
      }
    }
  }

  /** The same as books: one more finish exactly if the file did not get in the way. */
  lemma CompletionBooks(c: Config, h: Handler, env: Env)
    requires h.tp.transactionId.Some? && h.tp.remote.Some? && h.step == TransferCompletion
    ensures var (g, out) := CompleteTransfer(h, env);
      && CallBooks(c, h, AfterCompletion(g), out, env)
      && (Observe(c.crc, g.trace).finished == Observe(c.crc, h.trace).finished <==> RemovalFails(h, env))
      && (RemovalFails(h, env) ==> g == h)
      && (out.Sent? ==> g.step in {SendingFinishedPdu, IdleStep})
  {
    hide Observe, Next, CompleteTransfer, NoticeOfCompletion, RemovalFails;
    CompletionObserved(c, h, env);
    FinishCounts(c.crc, Observe(c.crc, h.trace), FinishedEvent(NoticeOfCompletion(h, env).0));
  }

  /** A check that is due does not complete a transaction that it has abandoned. */
  predicate CheckStaysBusy(c: Config, h: Handler, env: Env)
    requires MidCall(h)
  {
    h.step == ReceivingWithCheckLimit && CheckLimitHandling(c, h, env).step == TransferCompletion ==>
      CheckLimitHandling(c, h, env).state == Busy
  }

  lemma FsmBusyKeeps(c: Config, h: Handler, env: Env)
    requires MidCall(h) && MidInv(c, h)
    ensures var (g, out) := FsmBusy(c, h, env);
      && (out != Panicked ==> EvidenceInv(c, g) && CallBooks(c, h, g, out, env))
      && (out != Panicked && BooksBalance(c, h) && CheckStaysBusy(c, h, env) ==>
            BooksBalance(c, g) && (NothingOwed(c, h) && !env.sendFails ==> NothingOwed(c, g)))
  {
    hide Observe, StartTransaction, CheckLimitHandling, CompleteTransfer;
    var (h1, flow) := if h.step == TransactionStart then StartTransaction(c, h, env) else (h, Continue);
    if h.step == TransactionStart {
      StartKeeps(c, h, env);
    }
    if flow == Continue {
      var h2 := if h1.step == ReceivingWithCheckLimit then CheckLimitHandling(c, h1, env) else h1;
      if h1.step == ReceivingWithCheckLimit {
        CheckLimitKeeps(c, h1, env);
      }
      if h2.step == TransferCompletion {
        CompletionKeeps(c, h2, env);
        CompletionBooks(c, h2, env);
        if h2.state == Busy && BooksBalance(c, h2) {
          CompletionBalances(c, h2, env);
        }
      }
    }
  }

  lemma CallKeeps(c: Config, h: Handler, packet: Option<Packet>, env: Env)
    requires Ready(h) && EvidenceInv(c, h)
    ensures var (g, out) := Call(c, h, packet, env);
      out != Panicked ==> EvidenceInv(c, g) && CallBooks(c, h, g, out, env)
  {
    hide Observe, Insert, FsmBusy;
    InsertReady(c, h, packet, env);
    if packet.Some? {
      InsertKeeps(c, h, env, packet.value);
    }
    var (g, flow) := if packet.Some? then Insert(c, h, env, packet.value) else (h, Continue);
    if flow == Continue && g.state == Busy {
      FsmBusyKeeps(c, g, env);
    }
  }

  // ---------------------------------------------------------- every run

  /** What the calls of a run returned in total. */
  function PacketsReturned(outs: seq<Outcome>): nat {
    if outs == [] then 0 else (if outs[0].Sent? then outs[0].packets else 0) + PacketsReturned(outs[1..])
  }

  lemma {:induction false} RunKeeps(c: Config, h: Handler, inputs: seq<Input>)
    requires Ready(h) && EvidenceInv(c, h)
    ensures var (g, outs) := Run(c, h, inputs);
      Panicked !in outs ==>
        && EvidenceInv(c, g)
        && Observe(c.crc, g.trace).sent == Observe(c.crc, h.trace).sent + PacketsReturned(outs)
    decreases |inputs|
  {
    hide Call, Observe;
    if inputs != [] {
      CallKeepsReady(c, h, inputs[0].packet, inputs[0].env);
      CallKeeps(c, h, inputs[0].packet, inputs[0].env);
      var (g, out) := Call(c, h, inputs[0].packet, inputs[0].env);
      if out != Panicked {
        RunKeeps(c, g, inputs[1..]);
        var outs := Run(c, g, inputs[1..]).1;
        assert ([out] + outs)[1..] == outs;
      }
    }
  }

  lemma InitialHonest(c: Config, disk: Disk)
    ensures EvidenceInv(c, Initial(disk))
  {
  }

  /**
   In every run, with any fault table and whatever the sender does, the call that indicates the end
   of a transaction, be it for an EOF, a poll or a repetition, indicates it once, and leaves the
   handler in the idle step exactly if a wanted Finished PDU could be sent.
   */
  lemma FinishIsFinalIff(c: Config, disk: Disk, inputs: seq<Input>, packet: Option<Packet>, env: Env)
    requires Panicked !in Run(c, Initial(disk), inputs).1
    requires Call(c, Run(c, Initial(disk), inputs).0, packet, env).1 != Panicked
    ensures var h := Run(c, Initial(disk), inputs).0; var g := Call(c, h, packet, env).0;
      var o, o' := Observe(c.crc, h.trace), Observe(c.crc, g.trace);
      o'.finished != o.finished ==>
        o'.finished == o.finished + 1 && (g.step == IdleStep <==> !(WantsFinishedPdu(g.tp) && env.sendFails))
  {
    hide Call, Observe;
    InitialHonest(c, disk);
    RunKeeps(c, Initial(disk), inputs);
    CallKeeps(c, Run(c, Initial(disk), inputs).0, packet, env);
  }

  /**
   And where it is not, each further poll indicates the end again exactly if it does not fail on
   throwing the file away.
   */
  lemma PollIndicatesAgainIff(c: Config, h: Handler, env: Env)
    requires Ready(h) && h.state == Busy && h.step == TransferCompletion
    ensures var g := Call(c, h, None, env).0; var o, o' := Observe(c.crc, h.trace), Observe(c.crc, g.trace);
      o'.finished == o.finished + (if RemovalFails(h, env) then 0 else 1)
  {
    hide Observe, CompleteTransfer;
    CompletionBooks(c, h, env);
  }

  /** Where the transaction in progress was taken on; -1 if none ever was. */
  function LastTaken(trace: seq<Event>): (i: int)
    ensures -1 <= i < |trace|
    ensures i >= 0 ==> trace[i].TakenOn?
    ensures forall j | i < j < |trace| :: !trace[j].TakenOn?
  {
    if trace == [] then -1
    else if trace[|trace| - 1].TakenOn? then |trace| - 1
    else LastTaken(trace[..|trace| - 1])
  }

  /** The transaction taken on is one whose file is checked against a checksum. */
  predicate ChecksumOwed(e: Event) {
    e.TakenOn? && HasChecksum(e.kind, e.metadataOnly)
  }

  ghost predicate NoticeSince(trace: seq<Event>, i: int) {
    exists n :: i < n < |trace| && 0 <= n && trace[n].CancellationNotice?
  }

  ghost predicate VerifiedSince(trace: seq<Event>, i: int, kind: ChecksumType, checksum: U32, contents: seq<U8>) {
    exists v :: i < v < |trace| && 0 <= v && trace[v] == Verified(kind, checksum, contents)
  }

  ghost predicate EofSince(trace: seq<Event>, i: int, checksum: U32) {
    exists e :: i < e < |trace| && 0 <= e && trace[e].EofTaken? && trace[e].eof.checksum == checksum
  }

  /** Where the transaction in progress was taken on, with what kind of checksum. */
  lemma {:induction false} KindInTrace(crc: Crc, trace: seq<Event>)
    ensures var o, i := Observe(crc, trace), LastTaken(trace);
      && (i >= 0 <==> o.taken > 0) && (i >= 0 ==> o.kind == trace[i].kind)
      && (o.evidence == Exempt ==> i < 0 || !ChecksumOwed(trace[i]))
  {
    hide Observe, FinishJustified;
    if trace == [] {
      NothingObserved(crc);
    } else {
      ObserveLast(crc, trace);
      KindInTrace(crc, trace[..|trace| - 1]);
    }
  }

  /** The evidence for its completion, and its EOF, are in the trace since. */
  lemma {:induction false} EvidenceInTrace(crc: Crc, trace: seq<Event>)
    ensures var o, i := Observe(crc, trace), LastTaken(trace);
      && (o.evidence == Notice ==> NoticeSince(trace, i))
      && (o.evidence.Matched? ==> VerifiedSince(trace, i, o.evidence.kind, o.evidence.checksum, o.evidence.contents))
      && (o.eof.Some? ==> EofSince(trace, i, o.eof.value.checksum))
  {
    hide NoticeSince, VerifiedSince, EofSince, Observe, FinishJustified;
    if trace == [] {
      NothingObserved(crc);
    } else {
      ObserveLast(crc, trace);
      var init, e := trace[..|trace| - 1], trace[|trace| - 1];
      EvidenceInTrace(crc, init);
      var o, i := Observe(crc, init), LastTaken(init);
      assert trace == init + [e];
      SinceExtends(init, e, i, o.evidence, if o.eof.Some? then o.eof.value.checksum else 0);
    }
  }

  lemma {:induction false} NoticeInTrace(crc: Crc, trace: seq<Event>)
    ensures Observe(crc, trace).everNotice ==> NoticeSince(trace, -1)
  {
    hide NoticeSince, Observe, FinishJustified;
    if trace == [] {
      NothingObserved(crc);
    } else {
      ObserveLast(crc, trace);
      var init, e := trace[..|trace| - 1], trace[|trace| - 1];
      NoticeInTrace(crc, init);
      assert trace == init + [e];
      SinceExtends(init, e, -1, Exempt, 0);
    }
  }

  /** What an observation says can be pointed at in the trace. */
  lemma ObservedInTrace(crc: Crc, trace: seq<Event>)
    ensures var o, i := Observe(crc, trace), LastTaken(trace);
      && (o.evidence == Exempt ==> i < 0 || !ChecksumOwed(trace[i]))
      && (i >= 0 ==> o.kind == trace[i].kind)
      && (o.evidence == Notice ==> NoticeSince(trace, i))
      && (o.evidence.Matched? ==> VerifiedSince(trace, i, o.evidence.kind, o.evidence.checksum, o.evidence.contents))
      && (o.eof.Some? ==> EofSince(trace, i, o.eof.value.checksum))
      && (o.everNotice ==> NoticeSince(trace, -1))
      && (i >= 0 <==> o.taken > 0)
  {
    hide NoticeSince, VerifiedSince, EofSince, Observe, LastTaken;
    KindInTrace(crc, trace);
    EvidenceInTrace(crc, trace);
    NoticeInTrace(crc, trace);
  }

  /** What happened since position `i` still did after one more event, which itself happened too. */
  lemma SinceExtends(init: seq<Event>, e: Event, i: int, was: Evidence, checksum: U32)
    requires -1 <= i < |init|
    ensures e.CancellationNotice? || NoticeSince(init, i) ==> NoticeSince(init + [e], i)
    ensures was.Matched? && VerifiedSince(init, i, was.kind, was.checksum, was.contents) ==>
              VerifiedSince(init + [e], i, was.kind, was.checksum, was.contents)
    ensures e.Verified? ==> VerifiedSince(init + [e], i, e.kind, e.checksum, e.contents)
    ensures EofSince(init, i, checksum) ==> EofSince(init + [e], i, checksum)
    ensures e.EofTaken? ==> EofSince(init + [e], i, e.eof.checksum)
  {
    var trace := init + [e];
    assert trace[|init|] == e;
    if NoticeSince(init, i) {
      var n :| i < n < |init| && 0 <= n && init[n].CancellationNotice?;
      assert trace[n].CancellationNotice?;
    }
    if was.Matched? && VerifiedSince(init, i, was.kind, was.checksum, was.contents) {
      var v :| i < v < |init| && 0 <= v && init[v] == Verified(was.kind, was.checksum, was.contents);
      assert trace[v] == init[v];
    }
    if EofSince(init, i, checksum) {
      var n :| i < n < |init| && 0 <= n && init[n].EofTaken? && init[n].eof.checksum == checksum;
      assert trace[n] == init[n];
    }
  }

  /**
   The file reported at the end of a trace has the checksum, of the kind its metadata PDU asked
   for, that an EOF PDU of the same transaction carried; or it had it when last verified, and was
   thrown away since, for which some notice of cancellation is needed.
   */
  ghost predicate FileMatchesEof(crc: Crc, trace: seq<Event>, status: FileStatus, file: Option<seq<U8>>) {
    var i := LastTaken(trace);
    exists checksum: U32, contents: seq<U8> ::
      && i >= 0 && Matches(crc, trace[i].kind, checksum, contents)
      && EofSince(trace, i, checksum) && VerifiedSince(trace, i, trace[i].kind, checksum, contents)
      && (file == Some(contents) || (file.None? && status == DiscardDeliberately && NoticeSince(trace, -1)))
  }

  /**
   In every run, with any fault table: whenever a transaction with a CRC or modular checksum is
   reported finished, either a notice of cancellation was issued for it, or the file as it is
   then has the checksum that the EOF PDU of this very transaction carried. The one way such a
   file is gone is that some notice of cancellation was issued earlier in the life of the handler.
   */
  lemma EveryFinishIsJustified(c: Config, disk: Disk, inputs: seq<Input>, k: nat)
    requires var (g, outs) := Run(c, Initial(disk), inputs);
      Panicked !in outs && k < |g.trace| && g.trace[k].FinishedIndication?
    ensures var trace := Run(c, Initial(disk), inputs).0.trace; var i := LastTaken(trace[..k]);
      && i >= 0
      && (|| !ChecksumOwed(trace[i])
          || NoticeSince(trace[..k], i)
          || FileMatchesEof(c.crc, trace[..k], trace[k].status, trace[k].file))
  {
    RunKeeps(c, Initial(disk), inputs);
    var trace := Run(c, Initial(disk), inputs).0.trace;
    JustifiedAt(c.crc, trace, k);
    ObservedInTrace(c.crc, trace[..k]);
    var o := Observe(c.crc, trace[..k]);
    if o.evidence.Matched? {
      assert Matches(c.crc, o.evidence.kind, o.evidence.checksum, o.evidence.contents);
    }
  }

  lemma {:induction false} JustifiedAt(crc: Crc, trace: seq<Event>, k: nat)
    requires Observe(crc, trace).justified && k < |trace| && trace[k].FinishedIndication?
    ensures FinishJustified(crc, Observe(crc, trace[..k]), trace[k].status, trace[k].file)
    decreases |trace|
  {
    hide FinishJustified, Observe;
    ObserveLast(crc, trace);
    var init := trace[..|trace| - 1];
    if k < |init| {
      JustifiedAt(crc, init, k);
      assert init[..k] == trace[..k];
    }
  }
}
