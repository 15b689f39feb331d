/**
 What the destination handler tells the outside is true: in every run, with any fault table and
 environment, each indication, fault report and Finished PDU says what the trace before it shows.
 */
module CfdpReports {
  import opened Wrappers
  import opened Reassembly
  import opened Filestore
  import opened CfdpSpec
  import opened CfdpRuns

  // ------------------------------------------------- what a trace tells

  /** The story so far: of the transaction taken on last, and of the handler's whole life. */
  datatype Story = Story(
    taken: Option<Event>,        // the mark with which it was taken on
    stored: seq<Segment>,        // its segments written so far
    eof: Option<Eof>,            // the last EOF taken for it
    condition: ConditionCode,    // that of its last notice of cancellation, if any
    abandoned: bool,
    id: Option<TransactionId>,   // as indicated last
    progress: nat,               // bytes written since construction
    cancelled: bool,             // a notice of cancellation was ever issued
    said: Option<Event>,         // the last event that is neither a notice nor an abandonment
    last: Option<Event>)

  const Untold: Story := Story(None, [], None, NoError, false, None, 0, false, None, None)

  function TellNext(s: Story, e: Event): Story {
    var s := s.(last := Some(e), said := if e.CancellationNotice? || e.Abandoned? then s.said else Some(e));
    match e
    case TakenOn(_, _, _, _) =>
      s.(taken := Some(e), stored := [], eof := None, condition := NoError, abandoned := false)
    case MetadataIndication(id, _, _, _) => s.(id := Some(id))
    case Stored(segment) => s.(stored := s.stored + [segment], progress := s.progress + |segment.data|)
    case EofTaken(eof) => s.(eof := Some(eof))
    case CancellationNotice(cond) => s.(condition := cond, cancelled := true)
    case Abandoned => s.(abandoned := true)
    case _ => s
  }

  function Tell(trace: seq<Event>): Story {
    if trace == [] then Untold else TellNext(Tell(trace[..|trace| - 1]), trace[|trace| - 1])
  }

  /** The transaction has no checksum to verify. */
  predicate Unchecked(taken: Event) {
    taken.TakenOn? && (taken.kind == NullChecksum || taken.metadataOnly)
  }

  /** Delivery is only called complete for a transfer without a checksum that was not cancelled. */
  function DueDelivery(s: Story): DeliveryCode {
    if s.taken.Some? && Unchecked(s.taken.value) && s.condition == NoError then Complete else Incomplete
  }

  /** The file is thrown away if the remote asks for it and any transaction so far was cancelled. */
  function DueStatus(s: Story): FileStatus {
    if s.taken.Some? && s.taken.value.TakenOn? && s.taken.value.discardable && s.cancelled
       && DueDelivery(s) == Incomplete then DiscardDeliberately
    else if s.abandoned then Unreported else Retained
  }

  /** The error in a Finished PDU; an unsupported checksum is none. */
  function DueError(cond: ConditionCode): Option<ConditionCode> {
    if cond == NoError || cond == UnsupportedChecksumType then None else Some(cond)
  }

  predicate AfterNotice(s: Story) {
    s.last.Some? && s.last.value.CancellationNotice?
  }

  predicate AfterRejection(s: Story) {
    s.said.Some? && s.said.value.FaultReported? && s.said.value.condition == FilestoreRejection
  }

  /** The file does not have the checksum of the EOF, or could not be read to tell. */
  predicate Mismatched(c: Config, s: Story) {
    && s.taken.Some? && ChecksumOwed(s.taken.value) && s.eof.Some?
    && (AfterRejection(s) || ChecksumOf(c.crc, s.taken.value.kind, Assembled(s.stored)) != s.eof.value.checksum)
  }

  /** There is a reason for this fault. A rejection has its reason in the filestore alone. */
  predicate Caused(c: Config, s: Story, cond: ConditionCode) {
    match cond
    case FileSizeError => s.eof.Some? && s.progress > s.eof.value.fileSize
    case FileChecksumFailure => Mismatched(c, s)
    case CheckLimitReached => Mismatched(c, s)
    case UnsupportedChecksumType =>
      s.taken.Some? && s.taken.value.TakenOn? && s.taken.value.kind == OtherChecksum && !s.taken.value.metadataOnly
    case FilestoreRejection => s.taken.Some?
    case NoError => false
  }

  /** After this story, the event says what is the case. */
  predicate EventTrue(c: Config, s: Story, e: Event) {
    match e
    case SegmentIndication(id, _, _) => c.indicateSegments && s.id == Some(id)
    case Stored(segment) =>
      && s.id.Some?
      && (c.indicateSegments ==> s.last == Some(SegmentIndication(s.id.value, segment.offset, |segment.data|)))
    case EofIndication(id) => c.indicateEof && s.id == Some(id)
    case EofTaken(_) => s.id.Some? && (c.indicateEof ==> s.last == Some(EofIndication(s.id.value)))
    case CancellationNotice(cond) => c.faultTable(cond) == NoticeOfCancellation
    case FaultReported(id, cond, progress, code) =>
      && s.id == Some(id) && progress == s.progress && code == c.faultTable(cond) && Caused(c, s, cond)
      && (if code == NoticeOfCancellation then s.last == Some(CancellationNotice(cond)) else !AfterNotice(s))
    case Verified(kind, checksum, contents) =>
      && s.taken.Some? && s.taken.value.TakenOn? && kind == s.taken.value.kind
      && contents == Assembled(s.stored) && Matches(c.crc, kind, checksum, contents)
    case FinishedIndication(id, cond, delivery, status, file) =>
      && s.taken.Some? && s.id == Some(id) && cond == s.condition
      && delivery == DueDelivery(s) && status == DueStatus(s)
      && file == if status == DiscardDeliberately then None else Some(Assembled(s.stored))
    case FinishedPduSent(error, delivery, status) =>
      && s.taken.Some? && s.taken.value.TakenOn? && s.taken.value.wantsFinishedPdu
      && s.last.Some? && s.last.value.FinishedIndication? && error == DueError(s.last.value.condition)
      && delivery == s.last.value.delivery && status == s.last.value.status
    case _ => true
  }

  ghost predicate Truthful(c: Config, trace: seq<Event>) {
    forall k | 0 <= k < |trace| :: EventTrue(c, Tell(trace[..k]), trace[k])
  }

  lemma TellOneMore(trace: seq<Event>, e: Event)
    ensures Tell(trace + [e]) == TellNext(Tell(trace), e)
  {
    assert (trace + [e])[..|trace|] == trace;
  }

  lemma TruthOneMore(c: Config, trace: seq<Event>, e: Event)
    requires Truthful(c, trace) && EventTrue(c, Tell(trace), e)
    ensures Truthful(c, trace + [e])
  {
    hide EventTrue, Tell;
    var longer := trace + [e];
    forall k | 0 <= k < |longer| ensures EventTrue(c, Tell(longer[..k]), longer[k]) {
      if k < |trace| {
        assert longer[..k] == trace[..k] && longer[k] == trace[k];
      } else {
        assert longer[..k] == trace && longer[k] == e;
      }
    }
  }

  lemma TellLog(c: Config, h: Handler, e: Event)
    ensures Tell(Log(h, e).trace) == TellNext(Tell(h.trace), e)
    ensures Truthful(c, h.trace) && EventTrue(c, Tell(h.trace), e) ==> Truthful(c, Log(h, e).trace)
  {
    hide EventTrue, Tell, TellNext, Truthful;
    TellOneMore(h.trace, e);
    if Truthful(c, h.trace) && EventTrue(c, Tell(h.trace), e) {
      TruthOneMore(c, h.trace, e);
    }
  }

  // ------------------------------------------------------------ invariants

  /** The story is true and agrees with what outlasts a transaction. */
  ghost predicate Told(c: Config, h: Handler) {
    var s := Tell(h.trace);
    && Truthful(c, h.trace) && !AfterNotice(s)
    && s.id == h.tp.transactionId && s.progress == h.tp.progress
    && (s.cancelled <==> h.tp.disposition == Cancelled)
  }

  /** The story is about this transaction. */
  ghost predicate Same(h: Handler) {
    h.tp.remote.Some? && Tell(h.trace).taken == Some(TakenOnEvent(h.tp))
  }

  /** The file on disk is what was stored. */
  ghost predicate FileIs(h: Handler) {
    FileContents(h) == Some(Assembled(Tell(h.trace).stored))
  }

  /** A transfer that is not complete, perhaps cancelled or abandoned within this call. */
  ghost predicate Open(h: Handler) {
    var s := Tell(h.trace);
    && Same(h) && FileIs(h)
    && h.tp.delivery == Incomplete && h.tp.fileStatus == (if s.abandoned then Unreported else Retained)
    && (h.state == Busy || h.step == TransferCompletion ==> h.tp.condition == s.condition)
    && (h.step == TransferCompletion && NothingToVerify(h.tp) ==> s.condition != NoError)
    && (h.state != Busy ==> s.abandoned) && h.state != Suspended
  }

  /** Ready to be reported as finished, or so reported before. */
  ghost predicate Closing(h: Handler) {
    var s := Tell(h.trace);
    && Same(h) && h.tp.condition == s.condition && h.tp.delivery == DueDelivery(s)
    && (FileIs(h) || h.tp.fileStatus == DiscardDeliberately)
    && (h.tp.fileStatus == DiscardDeliberately ==> Discards(h) && h.tp.destPath !in h.disk.files)
    && (h.tp.fileStatus != DiscardDeliberately ==> h.tp.fileStatus == if s.abandoned then Unreported else Retained)
  }

  /** The checksum to verify is that of the EOF taken last. */
  ghost predicate EofKnown(h: Handler) {
    Tell(h.trace).eof.Some? && Tell(h.trace).eof.value.checksum == h.tp.checksum
  }

  /** Nothing has gone wrong with the transaction yet. */
  ghost predicate Clean(h: Handler) {
    var s := Tell(h.trace);
    h.tp.condition == NoError == s.condition && h.tp.delivery == Incomplete && !s.abandoned
  }

  /** What a transaction in progress has to show for itself in each step. */
  ghost predicate InProgress(h: Handler) {
    match h.step
    case TransactionStart => Same(h) && Clean(h) && Tell(h.trace).stored == []
    case ReceivingFileData => Open(h) && Clean(h)
    case ReceivingWithCheckLimit => Open(h) && Verifiable(h.tp) && EofKnown(h)
    case TransferCompletion => Closing(h)
    case _ => true
  }

  /** What holds between calls. */
  ghost predicate Accounted(c: Config, h: Handler) {
    Told(c, h) && (h.state == Busy ==> InProgress(h))
  }

  // ------------------------------------------------------- faults and checks

  /** A fault with a cause is truthfully announced and reported. */
  lemma FaultTrue(c: Config, s: Story, id: TransactionId, cond: ConditionCode)
    requires s.id == Some(id) && Caused(c, s, cond) && !AfterNotice(s)
    ensures var code := c.faultTable(cond); var fault := FaultReported(id, cond, s.progress, code);
      match code
      case NoticeOfCancellation =>
        && EventTrue(c, s, CancellationNotice(cond))
        && EventTrue(c, TellNext(s, CancellationNotice(cond)), fault)
      case AbandonTransaction =>
        EventTrue(c, s, Abandoned) && EventTrue(c, TellNext(s, Abandoned), fault) && EventTrue(c, s, fault)
      case _ => EventTrue(c, s, fault)
  {
    hide ChecksumOf, Assembled;
  }

  lemma CancelTold(c: Config, h: Handler, cond: ConditionCode)
    requires h.tp.transactionId.Some? && Told(c, h) && Open(h) && Caused(c, Tell(h.trace), cond)
    requires c.faultTable(cond) == NoticeOfCancellation
    ensures var g := DeclareFault(c, h, cond); Told(c, g) && Open(g) && Reported(c, h, g, cond)
  {
    hide Tell, Truthful, Assembled, EventTrue, ChecksumOf;
    FaultTrue(c, Tell(h.trace), h.tp.transactionId.value, cond);
    var h0 := h.(step := TransferCompletion, tp := h.tp.(condition := cond, disposition := Cancelled));
    TellLog(c, h0, CancellationNotice(cond));
    TellLog(c, Cancel(h, cond), FaultReported(h.tp.transactionId.value, cond, h.tp.progress, c.faultTable(cond)));
  }

  lemma AbandonTold(c: Config, h: Handler, cond: ConditionCode)
    requires h.tp.transactionId.Some? && Told(c, h) && Open(h) && Caused(c, Tell(h.trace), cond)
    requires c.faultTable(cond) == AbandonTransaction
    ensures var g := DeclareFault(c, h, cond); Told(c, g) && Open(g) && Reported(c, h, g, cond)
  {
    hide Tell, Truthful, Assembled, EventTrue, Caused;
    FaultTrue(c, Tell(h.trace), h.tp.transactionId.value, cond);
    TellLog(c, Reset(h), Abandoned);
    TellLog(c, Abandon(h), FaultReported(h.tp.transactionId.value, cond, h.tp.progress, c.faultTable(cond)));
  }

  /** The fault is what was said last, and what it is about is as before. */
  ghost predicate Reported(c: Config, h: Handler, g: Handler, cond: ConditionCode)
    requires h.tp.transactionId.Some?
  {
    var s, s' := Tell(h.trace), Tell(g.trace);
    && s'.said == Some(FaultReported(h.tp.transactionId.value, cond, h.tp.progress, c.faultTable(cond)))
    && s'.eof == s.eof && s'.stored == s.stored
  }

  lemma FaultTold(c: Config, h: Handler, cond: ConditionCode)
    requires h.tp.transactionId.Some? && Told(c, h) && Open(h) && Caused(c, Tell(h.trace), cond)
    ensures var g := DeclareFault(c, h, cond);
      && Told(c, g) && Open(g) && Reported(c, h, g, cond)
      && (c.faultTable(cond) == IgnoreError ==> g.step == h.step && g.state == h.state)
      && (g.step == ReceivingFileData && g.state == Busy && Clean(h) ==> Clean(g))
  {
    hide Tell, Truthful, Assembled, EventTrue, Caused;
    var code := c.faultTable(cond);
    if code == NoticeOfCancellation {
      CancelTold(c, h, cond);
    } else if code == AbandonTransaction {
      AbandonTold(c, h, cond);
    } else {
      FaultTrue(c, Tell(h.trace), h.tp.transactionId.value, cond);
      TellLog(c, h, FaultReported(h.tp.transactionId.value, cond, h.tp.progress, code));
    }
  }

  lemma VerifyTold(c: Config, h: Handler, env: Env)
    requires h.tp.transactionId.Some? && Told(c, h) && Open(h) && !NothingToVerify(h.tp) && EofKnown(h)
    ensures var (g, matches) := ChecksumVerify(c, h, env);
      && Told(c, g) && Open(g) && EofKnown(g)
      && (!matches ==> Mismatched(c, Tell(g.trace)))
      && (g.step == ReceivingFileData && g.state == Busy && Clean(h) ==> Clean(g))
  {
    hide Tell, Truthful, Assembled, DeclareFault;
    if h.tp.checksumType == OtherChecksum {
      FaultTold(c, h, UnsupportedChecksumType);
    } else if FileUnreadable(h, env) {
      FaultTold(c, h, FilestoreRejection);
    } else {
      TellLog(c, h, Verified(h.tp.checksumType, h.tp.checksum, h.disk.files[h.tp.destPath]));
    }
  }

  /** A cancelled or verified transfer can be reported as finished. */
  lemma OpenCloses(h: Handler)
    requires Open(h) && (h.step == TransferCompletion || (h.state == Busy && !NothingToVerify(h.tp)))
    ensures Closing(h) && Closing(h.(step := TransferCompletion))
  {
    hide Tell, Assembled;
  }

  // ------------------------------------------------------------- packets

  /** An EOF that fits the file, once its checksum is known. */
  lemma EofCheckTold(c: Config, h: Handler, env: Env)
    requires h.tp.transactionId.Some? && h.step == ReceivingFileData && h.state == Busy && !NothingToVerify(h.tp)
    requires Told(c, h) && Open(h) && Clean(h) && EofKnown(h)
    ensures var (h1, matches) := ChecksumVerify(c, h, env);
      if matches then Told(c, h1) && (h1.state == Busy ==> Closing(h1.(step := TransferCompletion)))
      else
        var g := DeclareFault(c, h1, FileChecksumFailure);
        Told(c, g) && Open(g) && EofKnown(g) && (g.step == ReceivingFileData && g.state == Busy ==> Clean(g))
  {
    hide Tell, Truthful, Assembled, ChecksumVerify, DeclareFault, EventTrue, ChecksumOf;
    VerifyTold(c, h, env);
    var (h1, matches) := ChecksumVerify(c, h, env);
    if matches {
      if h1.state == Busy {
        OpenCloses(h1);
      }
    } else {
      FaultTold(c, h1, FileChecksumFailure);
    }
  }

  lemma EofTold(c: Config, h: Handler, env: Env, eof: Eof)
    requires h.tp.transactionId.Some? && h.tp.remote.Some? && h.step == ReceivingFileData && h.state == Busy
    requires Told(c, h) && Open(h) && Clean(h) && Tell(h.trace).eof == Some(eof)
    ensures var (g, finish) := HandleNoErrorEof(c, h, env, eof);
      && Told(c, g)
      && (!finish && g.state == Busy ==> InProgress(g))
      && (finish && g.state == Busy && !g.tp.acknowledged ==> Closing(g.(step := TransferCompletion)))
  {
    hide Tell, Truthful, Assembled, ChecksumVerify, DeclareFault, Closing, EventTrue, ChecksumOf;
    var tooLong := h.tp.progress > eof.fileSize;
    if tooLong {
      FaultTold(c, h, FileSizeError);
    }
    var h1 := if tooLong then DeclareFault(c, h, FileSizeError) else h;
    if SizeStops(c, h, eof) {
      if h1.step == TransferCompletion {
        OpenCloses(h1);
      }
    } else {
      var h2 := h1.(tp := h1.tp.(checksum := eof.checksum));
      if NothingToVerify(h2.tp) {
        UncheckedCloses(c, h2, env);
      } else if !h2.tp.acknowledged {
        EofCheckTold(c, h2, env);
        var (h3, matches) := ChecksumVerify(c, h2, env);
        var g := DeclareFault(c, h3, FileChecksumFailure);
        if !matches && g.step == TransferCompletion {
          OpenCloses(g);
        }
      }
    }
  }

  lemma UncheckedCloses(c: Config, h: Handler, env: Env)
    requires h.tp.transactionId.Some? && NothingToVerify(h.tp) && Told(c, h) && Open(h) && Clean(h)
    ensures var (g, matches) := ChecksumVerify(c, h, env);
      matches && Told(c, g) && Closing(g.(step := TransferCompletion))
  {
    hide Tell, Truthful, Assembled;
  }

  lemma EofPacketTold(c: Config, h: Handler, env: Env, eof: Option<Eof>)
    requires Ready(h) && Accounted(c, h)
    ensures var (g, flow) := HandleEof(c, h, env, eof); flow != Todo ==> Accounted(c, g)
  {
    hide Tell, Truthful, Assembled, HandleNoErrorEof, Closing, ChecksumOf, Caused;
    if h.state == Busy && h.step == ReceivingFileData && eof.Some? && eof.value.noError {
      var e := EofIndication(h.tp.transactionId.value);
      TellLog(c, h, e);
      var h1 := if c.indicateEof then Log(h, e) else h;
      TellLog(c, h1, EofTaken(eof.value));
      EofTold(c, Log(h1, EofTaken(eof.value)), env, eof.value);
    }
  }

  lemma RejectionTold(c: Config, h: Handler)
    requires h.tp.transactionId.Some? && h.state == Busy && Told(c, h) && InProgress(h)
    requires h.step == ReceivingFileData || h.step == ReceivingWithCheckLimit
    ensures Accounted(c, DeclareFault(c, h, FilestoreRejection))
  {
    hide Tell, Truthful, Assembled, DeclareFault, Closing;
    FaultTold(c, h, FilestoreRejection);
    var g := DeclareFault(c, h, FilestoreRejection);
    if g.step == TransferCompletion {
      OpenCloses(g);
    }
  }

  lemma FileDataTold(c: Config, h: Handler, env: Env, data: Option<Segment>)
    requires Ready(h) && Accounted(c, h)
    ensures Accounted(c, HandleFileData(c, h, env, data).0)
  {
    hide Tell, Truthful, Assembled, DeclareFault, Closing, ChecksumOf, Caused;
    if h.state == Busy && (h.step == ReceivingFileData || h.step == ReceivingWithCheckLimit) && data.Some? {
      var s := data.value;
      var e := SegmentIndication(h.tp.transactionId.value, s.offset, |s.data|);
      TellLog(c, h, e);
      var h1 := if c.indicateSegments then Log(h, e) else h;
      if env.writeFails {
        RejectionTold(c, h1);
      } else {
        SegmentTold(c, h1, s);
      }
    }
  }

  lemma SegmentTold(c: Config, h: Handler, s: Segment)
    requires h.tp.transactionId.Some? && Told(c, h) && Open(h)
    requires var e := SegmentIndication(h.tp.transactionId.value, s.offset, |s.data|);
      c.indicateSegments ==> Tell(h.trace).last == Some(e)
    ensures var (disk, _) := Write(h.disk, h.tp.destPath, s.offset, s.data, false);
      var g := Log(h.(disk := disk, tp := h.tp.(progress := h.tp.progress + |s.data|)), Stored(s));
      Told(c, g) && Open(g) && (Clean(h) ==> Clean(g)) && (EofKnown(h) ==> EofKnown(g))
  {
    hide Tell, Truthful, Assembled, EventTrue, WriteAt;
    StoredTrue(c, Tell(h.trace), s);
    var (disk, _) := Write(h.disk, h.tp.destPath, s.offset, s.data, false);
    TellLog(c, h.(disk := disk, tp := h.tp.(progress := h.tp.progress + |s.data|)), Stored(s));
    AssembleOneMore(Tell(h.trace).stored, s);
  }

  lemma StoredTrue(c: Config, story: Story, s: Segment)
    requires story.id.Some?
    requires c.indicateSegments ==> story.last == Some(SegmentIndication(story.id.value, s.offset, |s.data|))
    ensures EventTrue(c, story, Stored(s))
  {
  }

  lemma AssembleOneMore(segs: seq<Segment>, s: Segment)
    ensures Assembled(segs + [s]) == WriteAt(Assembled(segs), s.offset, s.data)
  {
    assert (segs + [s])[..|segs|] == segs;
  }

  lemma MetadataTold(c: Config, h: Handler, m: Option<Metadata>)
    requires Ready(h) && Accounted(c, h)
    ensures Accounted(c, HandleMetadata(c, h, m).0)
  {
    hide Tell, Truthful, Assembled, Closing;
    var (g, flow) := HandleMetadata(c, h, m);
    if flow == Continue {
      assert g == Log(g.(trace := h.trace), TakenOnEvent(g.tp));
      TellLog(c, g.(trace := h.trace), TakenOnEvent(g.tp));
    }
  }

  lemma InsertTold(c: Config, h: Handler, env: Env, p: Packet)
    requires Ready(h) && Accounted(c, h)
    ensures var (g, flow) := Insert(c, h, env, p); flow != Todo ==> Accounted(c, g)
  {
    hide Accounted, HandleEof, HandleFileData, HandleMetadata;
    match p
    case MetadataPdu(m) => MetadataTold(c, h, m);
    case FileDataPdu(s) => FileDataTold(c, h, env, s);
    case EofPdu(e) => EofPacketTold(c, h, env, e);
    case _ =>
  }

  // ------------------------------------------------------- the busy states

  lemma IndicateTold(c: Config, h: Handler)
    requires h.step == TransactionStart && Told(c, h) && InProgress(h)
    ensures var g := IndicateMetadata(h); Told(c, g) && InProgress(g)
  {
    hide Tell, Truthful, Assembled, Closing, Open;
    var g := IndicateMetadata(h);
    assert g == Log(g.(trace := h.trace), g.trace[|h.trace|]);
    TellLog(c, g.(trace := h.trace), g.trace[|h.trace|]);
  }

  /** An empty destination is what no segments assemble to. */
  lemma EmptiedTold(c: Config, h: Handler, path: string, env: Env)
    requires h.state == Busy && h.step == TransactionStart && Told(c, h) && InProgress(h)
    requires EmptyFile(h.disk, path, env).1.None?
    ensures var g := h.(disk := EmptyFile(h.disk, path, env).0, step := ReceivingFileData,
                        tp := h.tp.(destPath := path, fileStatus := Retained));
      Told(c, g) && InProgress(g)
  {
    hide Tell, Truthful, Closing;
  }

  lemma StartTold(c: Config, h: Handler, env: Env)
    requires MidCall(h) && h.step == TransactionStart && Told(c, h) && InProgress(h)
    ensures var g := StartTransaction(c, h, env).0; Told(c, g) && InProgress(g)
  {
    hide Tell, Truthful, Assembled, Closing, Open, EmptyFile, EventTrue;
    IndicateTold(c, h);
    var g := IndicateMetadata(h);
    var path := if g.tp.destName in g.disk.dirs then c.inDirectory(g.tp.destName, g.tp.srcName)
      else Some(g.tp.destName);
    if path.Some? && EmptyFile(g.disk, path.value, env).1.None? {
      EmptiedTold(c, g, path.value, env);
    }
  }

  lemma CheckLimitTold(c: Config, h: Handler, env: Env)
    requires MidCall(h) && h.step == ReceivingWithCheckLimit && Told(c, h) && InProgress(h)
    ensures var g := CheckLimitHandling(c, h, env);
      && Told(c, g)
      && (g.step == ReceivingWithCheckLimit || g.step == TransferCompletion ==> InProgress(g))
  {
    hide Tell, Truthful, Assembled, ChecksumVerify, DeclareFault, Closing, EventTrue, ChecksumOf;
    if env.expired {
      VerifyTold(c, h, env);
      var (g, matches) := ChecksumVerify(c, h, env);
      if matches {
        OpenCloses(g);
      } else {
        FaultTold(c, g, CheckLimitReached);
        var g' := DeclareFault(c, g, CheckLimitReached);
        if g'.step == TransferCompletion {
          OpenCloses(g');
        }
        if g.step == TransferCompletion {
          OpenCloses(g.(tp := g.tp.(checkCount := g.tp.checkCount + 1)));
        }
      }
    }
  }

  /** The indication that completes a transfer is true. */
  lemma NoticeTrue(c: Config, h: Handler, env: Env)
    requires h.tp.transactionId.Some? && h.tp.remote.Some? && Told(c, h) && Closing(h) && !RemovalFails(h, env)
    ensures var g := NoticeOfCompletion(h, env).0;
      && EventTrue(c, Tell(h.trace), FinishedEvent(g))
      && (WantsFinishedPdu(h.tp) ==> EventTrue(c, TellNext(Tell(h.trace), FinishedEvent(g)), FinishedPduEvent(g.tp)))
      && g == Log(g.(trace := h.trace), FinishedEvent(g))
      && Told(c, g.(trace := h.trace)) && Closing(g.(trace := h.trace))
  {
    hide Tell, Truthful, Assembled;
  }

  /** Logging something that changes nothing in the story. */
  lemma LogTold(c: Config, h: Handler, e: Event)
    requires e.FinishedIndication? || e.FinishedPduSent?
    requires Told(c, h) && h.tp.remote.Some? && Closing(h) && EventTrue(c, Tell(h.trace), e)
    ensures Told(c, Log(h, e)) && Closing(Log(h, e)) && Tell(Log(h, e).trace) == TellNext(Tell(h.trace), e)
  {
    hide Tell, Truthful, Assembled, EventTrue;
    TellLog(c, h, e);
  }

  lemma CompletionTold(c: Config, h: Handler, env: Env)
    requires h.tp.transactionId.Some? && h.tp.remote.Some? && h.step == TransferCompletion && Told(c, h) && Closing(h)
    ensures var (g, out) := CompleteTransfer(h, env); Told(c, g) && (out.Failed? ==> Closing(g))
  {
    hide Told, Closing, Tell, EventTrue;
    if !RemovalFails(h, env) {
      var g := NoticeOfCompletion(h, env).0;
      NoticeTrue(c, h, env);
      LogTold(c, g.(trace := h.trace), FinishedEvent(g));
      ToldAgain(c, g);
      if WantsFinishedPdu(g.tp) {
        LogTold(c, g, FinishedPduEvent(g.tp));
        ToldAgain(c, Log(g, FinishedPduEvent(g.tp)));
      }
    }
  }

  /** What is told does not depend on what is reset. */
  lemma ToldAgain(c: Config, h: Handler)
    requires Told(c, h)
    ensures Told(c, Reset(h)) && Told(c, h.(step := SendingFinishedPdu))
  {
    hide Tell, Truthful;
  }

  lemma FsmBusyTold(c: Config, h: Handler, env: Env)
    requires MidCall(h) && Told(c, h) && InProgress(h)
    ensures var (g, out) := FsmBusy(c, h, env); out != Panicked ==> Accounted(c, g)
  {
    hide Tell, Truthful, Assembled, StartTransaction, CheckLimitHandling, CompleteTransfer, Closing, Open;
    var (h1, flow) := if h.step == TransactionStart then StartTransaction(c, h, env) else (h, Continue);
    if h.step == TransactionStart {
      StartTold(c, h, env);
    }
    if flow == Continue {
      var h2 := if h1.step == ReceivingWithCheckLimit then CheckLimitHandling(c, h1, env) else h1;
      if h1.step == ReceivingWithCheckLimit {
        CheckLimitTold(c, h1, env);
      }
      if h2.step == TransferCompletion {
        CompletionTold(c, h2, env);
      }
    }
  }

  lemma CallTold(c: Config, h: Handler, packet: Option<Packet>, env: Env)
    requires Ready(h) && Accounted(c, h)
    ensures var (g, out) := Call(c, h, packet, env); out != Panicked ==> Accounted(c, g)
  {
    hide Tell, Truthful, Insert, FsmBusy, InProgress;
    InsertReady(c, h, packet, env);
    if packet.Some? {
      InsertTold(c, h, env, packet.value);
    }
    var (g, flow) := if packet.Some? then Insert(c, h, env, packet.value) else (h, Continue);
    if flow == Continue && g.state == Busy {
      FsmBusyTold(c, g, env);
    }
  }

  // ------------------------------------------------------------ every run

  lemma {:induction false} RunTold(c: Config, h: Handler, inputs: seq<Input>)
    requires Ready(h) && Accounted(c, h)
    ensures var (g, outs) := Run(c, h, inputs); Panicked !in outs ==> Accounted(c, g)
    decreases |inputs|
  {
    hide Call, Accounted;
    if inputs != [] {
      CallKeepsReady(c, h, inputs[0].packet, inputs[0].env);
      CallTold(c, h, inputs[0].packet, inputs[0].env);
      var (g, out) := Call(c, h, inputs[0].packet, inputs[0].env);
      if out != Panicked {
        RunTold(c, g, inputs[1..]);
        var outs := Run(c, g, inputs[1..]).1;
        assert ([out] + outs)[1..] == outs;
      }
    }
  }

  /**
   In every run, with any fault table and environment, everything the handler reports is true. A
   finished indication names the transaction indicated last and the condition of the last notice of
   cancellation since it was taken on; it calls the delivery complete exactly for an uncancelled
   transfer without a checksum, and the file is what the segments written for it assemble to unless
   it was thrown away. A Finished PDU repeats the indication right before it. A fault report carries
   the bytes written so far and follows a notice exactly if the table asks for one.
   */
  lemma EveryReportIsTrue(c: Config, disk: Disk, inputs: seq<Input>)
    requires Panicked !in Run(c, Initial(disk), inputs).1
    ensures var trace := Run(c, Initial(disk), inputs).0.trace;
      forall k | 0 <= k < |trace| :: EventTrue(c, Tell(trace[..k]), trace[k])
  {
    RunTold(c, Initial(disk), inputs);
  }
}
