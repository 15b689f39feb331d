/**
 The CFDP destination handler (receive side of CCSDS 727.0-B-5) as a function from a handler
 state, a packet and the environment's answers to the next state. The `trace` records what the
 handler does to the outside, plus six history marks: a metadata PDU was taken on, a segment was
 written, an EOF PDU without an error was taken, a notice of cancellation was issued, a transaction
 in progress was abandoned, a checksum was found to match the file as it then was.
 */
module CfdpSpec {
  import opened Wrappers
  import opened Reassembly
  import opened Filestore

  datatype TransactionStep =
    | IdleStep
    | TransactionStart
    | ReceivingFileData
    | ReceivingWithCheckLimit
    | SendingAckPdu
    | TransferCompletion
    | SendingFinishedPdu

  datatype State = Idle | Busy | Suspended

  datatype ConditionCode =
    | NoError
    | FilestoreRejection
    | FileChecksumFailure
    | FileSizeError
    | CheckLimitReached
    | UnsupportedChecksumType

  datatype FaultHandlerCode = NoticeOfCancellation | NoticeOfSuspension | IgnoreError | AbandonTransaction

  datatype DeliveryCode = Complete | Incomplete
  datatype FileStatus = Unreported | Retained | DiscardDeliberately
  datatype CompletionDisposition = Completed | Cancelled
  datatype TransactionId = TransactionId(sourceId: nat, seqNum: nat)
  datatype RemoteConfig = RemoteConfig(checkLimit: nat, dispositionOnCancellation: bool)

  /** Fixed for the life of a handler. */
  datatype Config = Config(
    faultTable: ConditionCode -> FaultHandlerCode,
    remotes: map<nat, RemoteConfig>,
    crc: Crc,
    inDirectory: (string, string) -> Option<string>,
    indicateSegments: bool,
    indicateEof: bool)

  datatype Metadata = Metadata(
    sourceId: nat, destId: nat, seqNum: nat, acknowledged: bool, closureRequested: bool,
    checksumType: ChecksumType, fileSize: nat, srcName: string, destName: string)

  datatype Eof = Eof(noError: bool, fileSize: nat, checksum: U32)

  /** A PDU as routed to the handler; `None` where the bytes do not parse. */
  datatype Packet =
    | NotForDestination
    | DirectiveMissing
    | SourceSideDirective
    | AckOrPrompt
    | MetadataPdu(metadata: Option<Metadata>)
    | FileDataPdu(segment: Option<Segment>)
    | EofPdu(eof: Option<Eof>)

  /** The environment's answers during one call. */
  datatype Env = Env(startFails: bool, writeFails: bool, verifyFails: bool, removeFails: bool, sendFails: bool,
                     expired: bool)

  datatype Params = Params(
    transactionId: Option<TransactionId>, closureRequested: bool, checksumType: ChecksumType, fileSize: nat,
    progress: nat, metadataOnly: bool, condition: ConditionCode, delivery: DeliveryCode, fileStatus: FileStatus,
    disposition: CompletionDisposition, checksum: U32, checkCount: nat, timer: bool,
    acknowledged: bool, sourceId: nat, seqNum: nat, srcName: string, destName: string, destPath: string,
    remote: Option<RemoteConfig>)

  datatype Event =
    | TakenOn(wantsFinishedPdu: bool, discardable: bool, metadataOnly: bool, kind: ChecksumType)
    | MetadataIndication(id: TransactionId, fileSize: nat, srcName: string, destName: string)
    | SegmentIndication(id: TransactionId, offset: nat, length: nat)
    | Stored(segment: Segment)
    | EofIndication(id: TransactionId)
    | EofTaken(eof: Eof)
    | CancellationNotice(condition: ConditionCode)
    | Abandoned
    | FaultReported(id: TransactionId, condition: ConditionCode, progress: nat, code: FaultHandlerCode)
    | Verified(kind: ChecksumType, checksum: U32, contents: seq<U8>)
    | FinishedIndication(id: TransactionId, condition: ConditionCode, delivery: DeliveryCode, status: FileStatus,
                         file: Option<seq<U8>>)
    | FinishedPduSent(error: Option<ConditionCode>, delivery: DeliveryCode, status: FileStatus)

  datatype DestError =
    | DirectiveExpected
    | CantProcessPacketType
    | WrongStateForFileDataAndEof
    | RecvdMetadataButIsBusy
    | EmptySrcFileField
    | EmptyDestFileField
    | Pdu
    | FilestoreFailed(error: FilestoreError)
    | PathConcat
    | NoRemoteCfgFound(destId: nat)

  datatype Handler = Handler(step: TransactionStep, state: State, tp: Params, disk: Disk, trace: seq<Event>)

  /** How a step within a call ends: go on, return an error, or reach code that is not written yet. */
  datatype Flow = Continue | Return(error: DestError) | Todo

  datatype Outcome = Sent(packets: nat) | Failed(error: DestError) | Panicked

  const InitialParams: Params :=
    Params(None, false, NullChecksum, 0, 0, false, NoError, Incomplete, Unreported, Completed, 0, 0, false,
           false, 0, 0, "", "", "", None)

  function Initial(disk: Disk): Handler {
    Handler(IdleStep, Idle, InitialParams, disk, [])
  }

  // --------------------------------------------------------------- helpers

  function Log(h: Handler, e: Event): Handler {
    h.(trace := h.trace + [e])
  }

  function ResetParams(tp: Params): Params {
    tp.(condition := NoError, delivery := Incomplete, fileStatus := Unreported)
  }

  function Reset(h: Handler): Handler {
    h.(step := IdleStep, state := Idle, tp := ResetParams(h.tp))
  }

  /** The same transaction about the same file with the same progress. */
  predicate SameCore(a: Params, b: Params) {
    && a.transactionId == b.transactionId && a.remote == b.remote && a.closureRequested == b.closureRequested
    && a.checksumType == b.checksumType && a.fileSize == b.fileSize && a.progress == b.progress
    && a.metadataOnly == b.metadataOnly && a.acknowledged == b.acknowledged
    && a.sourceId == b.sourceId && a.seqNum == b.seqNum
    && a.srcName == b.srcName && a.destName == b.destName && a.destPath == b.destPath
  }

  /** Same transaction, timer, counters and disk; a longer trace; not busy again once idle. */
  predicate SameTransfer(h: Handler, g: Handler) {
    && h.trace <= g.trace
    && g.disk == h.disk && SameCore(h.tp, g.tp)
    && g.tp.timer == h.tp.timer && g.tp.checkCount == h.tp.checkCount && g.tp.checksum == h.tp.checksum
    && (g.state == h.state || (g.state == Idle && g.step in {IdleStep, TransferCompletion}))
    && (g.step == h.step || g.step == TransferCompletion || (g.step == IdleStep && g.state == Idle))
  }

  function Cancel(h: Handler, cond: ConditionCode): (g: Handler)
    ensures SameTransfer(h, g) && g.state == h.state
  {
    Log(h.(step := TransferCompletion, tp := h.tp.(condition := cond, disposition := Cancelled)),
      CancellationNotice(cond))
  }

  function Abandon(h: Handler): (g: Handler)
    ensures SameTransfer(h, g) && g.state == Idle
  {
    if h.state == Busy then Log(Reset(h), Abandoned) else Reset(h)
  }

  function DeclareFault(c: Config, h: Handler, cond: ConditionCode): (g: Handler)
    requires h.tp.transactionId.Some?
    ensures SameTransfer(h, g)
    ensures c.faultTable(cond) != AbandonTransaction ==> g.state == h.state
  {
    var code := c.faultTable(cond);
    var g := match code
      case NoticeOfCancellation => Cancel(h, cond)
      case AbandonTransaction => Abandon(h)
      case _ => h;
    Log(g, FaultReported(h.tp.transactionId.value, cond, h.tp.progress, code))
  }

  /** Each fault is handled as the table says for its own condition, and reported with it. */
  lemma FaultEffect(c: Config, h: Handler, cond: ConditionCode)
    requires h.tp.transactionId.Some?
    ensures var g := DeclareFault(c, h, cond);
      && g.trace != []
      && g.trace[|g.trace| - 1] ==
           FaultReported(h.tp.transactionId.value, cond, h.tp.progress, c.faultTable(cond))
      && match c.faultTable(cond)
         case NoticeOfCancellation =>
           && g.step == TransferCompletion && g.state == h.state
           && g.tp == h.tp.(condition := cond, disposition := Cancelled)
         case AbandonTransaction =>
           g.step == IdleStep && g.state == Idle && g.tp.condition == NoError && g.tp.disposition == h.tp.disposition
         case _ => g.step == h.step && g.state == h.state && g.tp == h.tp
  {
  }

  function FileContents(h: Handler): Option<seq<U8>> {
    if h.tp.destPath in h.disk.files then Some(h.disk.files[h.tp.destPath]) else None
  }

  predicate WantsFinishedPdu(tp: Params) {
    tp.acknowledged || tp.closureRequested
  }

  /** A file with this kind of checksum is checked against it. */
  predicate HasChecksum(kind: ChecksumType, metadataOnly: bool) {
    (kind == Modular || kind == Crc32) && !metadataOnly
  }

  predicate Verifiable(tp: Params) {
    HasChecksum(tp.checksumType, tp.metadataOnly)
  }

  /** What is known of a transaction when it is taken on. */
  function TakenOnEvent(tp: Params): Event
    requires tp.remote.Some?
  {
    TakenOn(WantsFinishedPdu(tp), tp.remote.value.dispositionOnCancellation, tp.metadataOnly, tp.checksumType)
  }

  // ------------------------------------------------------------- packet in

  function HandleMetadata(c: Config, h: Handler, m: Option<Metadata>): (r: (Handler, Flow))
    requires Ready(h)
    ensures r.1 == Continue ==> MidCall(r.0) && r.0.step == TransactionStart
    ensures r.1.Return? ==> Ready(r.0)
  {
    if h.state != Idle then (h, Return(RecvdMetadataButIsBusy))
    else if m.None? then (h, Return(Pdu))
    else
      var m := m.value;
      var tp := ResetParams(h.tp).(
        closureRequested := m.closureRequested, checksumType := m.checksumType, fileSize := m.fileSize);
      if m.sourceId !in c.remotes then (h.(tp := tp), Return(NoRemoteCfgFound(m.destId)))
      else
        var only := tp.metadataOnly || (m.srcName == "" && m.destName == "");
        var tp := tp.(remote := Some(c.remotes[m.sourceId]), metadataOnly := only);
        if !only && m.srcName == "" then (h.(tp := tp), Return(EmptySrcFileField))
        else if !only && m.destName == "" then (h.(tp := tp), Return(EmptyDestFileField))
        else
          var tp := if only then tp else
            tp.(srcName := m.srcName, destName := m.destName,
                acknowledged := m.acknowledged, sourceId := m.sourceId, seqNum := m.seqNum);
          (Log(h.(tp := tp, state := Busy, step := TransactionStart), TakenOnEvent(tp)), Continue)
  }

  function HandleFileData(c: Config, h: Handler, env: Env, s: Option<Segment>): (r: (Handler, Flow))
    requires Ready(h)
    ensures r.1 == Continue ==> MidCall(r.0)
    ensures r.1.Return? ==> Ready(r.0)
  {
    if h.state == Idle || (h.step != ReceivingFileData && h.step != ReceivingWithCheckLimit)
    then (h, Return(WrongStateForFileDataAndEof))
    else if s.None? then (h, Return(Pdu))
    else
      var s := s.value;
      var h := if c.indicateSegments
               then Log(h, SegmentIndication(h.tp.transactionId.value, s.offset, |s.data|)) else h;
      var (disk, e) := Write(h.disk, h.tp.destPath, s.offset, s.data, env.writeFails);
      if e.Some? then (DeclareFault(c, h, FilestoreRejection), Return(FilestoreFailed(e.value)))
      else (Log(h.(disk := disk, tp := h.tp.(progress := h.tp.progress + |s.data|)), Stored(s)), Continue)
  }

  predicate Abandons(c: Config, cond: ConditionCode) {
    c.faultTable(cond) == AbandonTransaction
  }

  /** The transfer has no checksum to look at. */
  predicate NothingToVerify(tp: Params) {
    tp.checksumType == NullChecksum || tp.metadataOnly
  }

  predicate FileUnreadable(h: Handler, env: Env) {
    h.tp.destPath !in h.disk.files || env.verifyFails
  }

  /** Verification succeeds: nothing to verify, an unsupported type, or a match. */
  predicate PassesVerification(c: Config, h: Handler, env: Env, checksum: U32) {
    || NothingToVerify(h.tp)
    || h.tp.checksumType == OtherChecksum
    || (!FileUnreadable(h, env) && ChecksumOf(c.crc, h.tp.checksumType, h.disk.files[h.tp.destPath]) == checksum)
  }

  /** Verification raises a fault that the table abandons on. */
  predicate VerifyAbandons(c: Config, h: Handler, env: Env) {
    && !NothingToVerify(h.tp)
    && if h.tp.checksumType == OtherChecksum then Abandons(c, UnsupportedChecksumType)
       else FileUnreadable(h, env) && Abandons(c, FilestoreRejection)
  }

  function ChecksumVerify(c: Config, h: Handler, env: Env): (r: (Handler, bool))
    requires h.tp.transactionId.Some?
    ensures SameTransfer(h, r.0)
    ensures r.0.state == if VerifyAbandons(c, h, env) then Idle else h.state
    ensures r.1 <==> PassesVerification(c, h, env, h.tp.checksum)
  {
    var tp := h.tp;
    if NothingToVerify(tp) then (h.(tp := tp.(delivery := Complete, condition := NoError)), true)
    else
      match Verify(h.disk, c.crc, tp.destPath, tp.checksumType, tp.checksum, env.verifyFails)
      case Verdict(matches) =>
        if matches then (Log(h, Verified(tp.checksumType, tp.checksum, h.disk.files[tp.destPath])), true)
          else (h, false)
      case VerifyFailed(e) =>
        if e == ChecksumTypeNotImplemented then (DeclareFault(c, h, UnsupportedChecksumType), true)
        else (DeclareFault(c, h, FilestoreRejection), false)
  }

  function CompleteTransition(h: Handler): Handler {
    h.(step := if h.tp.acknowledged then SendingAckPdu else TransferCompletion)
  }

  function StartCheckLimitHandling(h: Handler): Handler
    requires h.tp.remote.Some?
  {
    h.(step := ReceivingWithCheckLimit, tp := h.tp.(timer := true, checkCount := 0))
  }

  /** The size in the EOF is too small for what was received, and that is not ignored. */
  predicate SizeStops(c: Config, h: Handler, eof: Eof) {
    h.tp.progress > eof.fileSize && c.faultTable(FileSizeError) != IgnoreError
  }

  /** The EOF raises a fault that the table abandons on. */
  predicate EofAbandons(c: Config, h: Handler, env: Env, eof: Eof) {
    if SizeStops(c, h, eof) then Abandons(c, FileSizeError)
    else
      && !h.tp.acknowledged
      && (VerifyAbandons(c, h, env)
        || (!PassesVerification(c, h, env, eof.checksum) && Abandons(c, FileChecksumFailure)))
  }

  /** An EOF without an error condition; the flag says whether the transfer can be completed. */
  function HandleNoErrorEof(c: Config, h: Handler, env: Env, eof: Eof): (r: (Handler, bool))
    requires h.tp.transactionId.Some? && h.tp.remote.Some? && h.step == ReceivingFileData
    ensures SameCore(h.tp, r.0.tp) && r.0.disk == h.disk && h.trace <= r.0.trace
    ensures r.0.step in {ReceivingFileData, TransferCompletion, ReceivingWithCheckLimit, IdleStep}
    ensures r.0.step == ReceivingWithCheckLimit ==> r.0.tp.timer && !r.1 && !SizeStops(c, h, eof) && !h.tp.acknowledged
    ensures r.0.step == ReceivingWithCheckLimit ==>
      !PassesVerification(c, h, env, eof.checksum) && c.faultTable(FileChecksumFailure) == IgnoreError
    ensures h.state != Idle ==> r.0.state == if EofAbandons(c, h, env, eof) then Idle else h.state
    ensures r.0.step == IdleStep ==> r.0.state == Idle
    ensures r.1 <==> !SizeStops(c, h, eof) && (h.tp.acknowledged || PassesVerification(c, h, env, eof.checksum))
  {
    var tooLong := h.tp.progress > eof.fileSize;
    var h := if tooLong then DeclareFault(c, h, FileSizeError) else h;
    if tooLong && c.faultTable(FileSizeError) != IgnoreError then (h, false)
    else
      var h := h.(tp := h.tp.(checksum := eof.checksum));
      if h.tp.acknowledged then (h, true)
      else
        var (h, matches) := ChecksumVerify(c, h, env);
        if matches then (h, true)
        else
          var h := DeclareFault(c, h, FileChecksumFailure);
          if c.faultTable(FileChecksumFailure) != IgnoreError then (h, false)
          else (StartCheckLimitHandling(h), false)
  }

  lemma FileDataKeepsCore(c: Config, h: Handler, env: Env, s: Option<Segment>)
    requires Ready(h)
    ensures var (g, flow) := HandleFileData(c, h, env, s);
      && flow != Todo && SameCore(h.tp.(progress := g.tp.progress), g.tp)
      && (flow == Continue ==> g.step == h.step && g.state == h.state)
  {
    hide DeclareFault;
  }

  function HandleEof(c: Config, h: Handler, env: Env, eof: Option<Eof>): (r: (Handler, Flow))
    requires Ready(h)
    ensures SameCore(h.tp, r.0.tp) && h.trace <= r.0.trace
    ensures r.1 == Continue && r.0.state == Busy ==> MidCall(r.0)
    ensures r.1.Return? ==> r.0 == h
  {
    if h.state == Idle || h.step != ReceivingFileData then (h, Return(WrongStateForFileDataAndEof))
    else if eof.None? then (h, Return(Pdu))
    else
      var h := if c.indicateEof then Log(h, EofIndication(h.tp.transactionId.value)) else h;
      if !eof.value.noError then (h, Todo)
      else
        var h := Log(h, EofTaken(eof.value));
        var (h, finish) := HandleNoErrorEof(c, h, env, eof.value);
        (if finish then CompleteTransition(h) else h, Continue)
  }

  function Insert(c: Config, h: Handler, env: Env, p: Packet): (Handler, Flow)
    requires Ready(h)
  {
    match p
    case NotForDestination => (h, Return(CantProcessPacketType))
    case DirectiveMissing => (h, Return(DirectiveExpected))
    case SourceSideDirective => (h, Return(CantProcessPacketType))
    case AckOrPrompt => (h, Todo)
    case MetadataPdu(m) => HandleMetadata(c, h, m)
    case FileDataPdu(s) => HandleFileData(c, h, env, s)
    case EofPdu(e) => HandleEof(c, h, env, e)
  }

  // ------------------------------------------------------- the busy states

  /** Truncate the destination file if it exists, create it otherwise. */
  function EmptyFile(disk: Disk, path: string, env: Env): (r: (Disk, Option<FilestoreError>))
    ensures r.1.Some? ==> r.0 == disk
  {
    if Exists(disk, path) then Truncate(disk, path, env.startFails) else Create(disk, path, env.startFails)
  }

  /** Identify the transaction and tell the user about it. */
  function IndicateMetadata(h: Handler): Handler {
    var id := TransactionId(h.tp.sourceId, h.tp.seqNum);
    Log(h.(tp := h.tp.(destPath := h.tp.destName, transactionId := Some(id))),
      MetadataIndication(id, h.tp.fileSize, h.tp.srcName, h.tp.destName))
  }

  function StartTransaction(c: Config, h: Handler, env: Env): (r: (Handler, Flow))
    ensures h.trace <= r.0.trace
    ensures r.1 == Continue ==> r.0.step == ReceivingFileData
    ensures r.1 != Continue ==> r.0.step == h.step
    ensures r.0.state == h.state && r.0.tp.transactionId == Some(TransactionId(h.tp.sourceId, h.tp.seqNum))
    ensures SameCore(h.tp.(transactionId := r.0.tp.transactionId, destPath := r.0.tp.destPath), r.0.tp)
  {
    var h := IndicateMetadata(h);
    var path := if h.tp.destName in h.disk.dirs then c.inDirectory(h.tp.destName, h.tp.srcName)
      else Some(h.tp.destName);
    if path.None? then (h, Return(PathConcat))
    else
      var h := h.(tp := h.tp.(destPath := path.value));
      var (disk, e) := EmptyFile(h.disk, path.value, env);
      if e.Some? then (h, Return(FilestoreFailed(e.value)))
      else (h.(disk := disk, step := ReceivingFileData, tp := h.tp.(fileStatus := Retained)), Continue)
  }

  function CheckLimitHandling(c: Config, h: Handler, env: Env): (g: Handler)
    requires h.tp.transactionId.Some? && h.tp.remote.Some? && h.state == Busy && h.step == ReceivingWithCheckLimit
    ensures g.disk == h.disk && SameCore(h.tp, g.tp) && g.tp.timer == h.tp.timer && h.trace <= g.trace
    ensures g.step in {ReceivingWithCheckLimit, TransferCompletion, SendingAckPdu, IdleStep}
    ensures g.state != Suspended && (g.step == IdleStep ==> g.state == Idle)
    ensures g.state == Idle ==> g.step in {IdleStep, TransferCompletion, SendingAckPdu}
  {
    if !h.tp.timer || !env.expired then h
    else
      var (h, matches) := ChecksumVerify(c, h, env);
      if matches then CompleteTransition(h)
      else if h.tp.checkCount + 1 >= h.tp.remote.value.checkLimit then DeclareFault(c, h, CheckLimitReached)
      else h.(tp := h.tp.(checkCount := h.tp.checkCount + 1))
  }

  /** Completing this transfer throws its file away. */
  predicate Discards(h: Handler)
    requires h.tp.remote.Some?
  {
    h.tp.disposition == Cancelled && h.tp.remote.value.dispositionOnCancellation && h.tp.delivery == Incomplete
  }

  /** Completing this transfer fails on throwing its file away. */
  predicate RemovalFails(h: Handler, env: Env)
    requires h.tp.remote.Some?
  {
    Discards(h) && NeedFile(h.disk, h.tp.destPath, env.removeFails).Some?
  }

  /** The indication of the end of the transaction, with the file as it then is. */
  function FinishedEvent(h: Handler): Event
    requires h.tp.transactionId.Some?
  {
    FinishedIndication(h.tp.transactionId.value, h.tp.condition, h.tp.delivery, h.tp.fileStatus, FileContents(h))
  }

  /** The Finished PDU; an unsupported checksum does not count as an error in it. */
  function FinishedPduEvent(tp: Params): Event {
    var good := tp.condition == NoError || tp.condition == UnsupportedChecksumType;
    FinishedPduSent(if good then None else Some(tp.condition), tp.delivery, tp.fileStatus)
  }

  function NoticeOfCompletion(h: Handler, env: Env): (r: (Handler, Flow))
    requires h.tp.transactionId.Some? && h.tp.remote.Some?
    ensures h.trace <= r.0.trace
    ensures r.0.step == h.step && r.0.state == h.state && r.1 != Todo
    ensures r.0.tp == h.tp.(fileStatus := r.0.tp.fileStatus)
  {
    var discard := Discards(h);
    var (disk, e) := if discard then Remove(h.disk, h.tp.destPath, env.removeFails) else (h.disk, None);
    if e.Some? then (h, Return(FilestoreFailed(e.value)))
    else
      var h := if discard then h.(disk := disk, tp := h.tp.(fileStatus := DiscardDeliberately)) else h;
      (Log(h, FinishedEvent(h)), Continue)
  }

  function CompleteTransfer(h: Handler, env: Env): (r: (Handler, Outcome))
    requires h.tp.transactionId.Some? && h.tp.remote.Some?
    ensures h.trace <= r.0.trace
    ensures SameCore(h.tp, r.0.tp)
    ensures r.1.Failed? ==>
      r.0.step == h.step && r.0.state == h.state && r.0.tp == h.tp.(fileStatus := r.0.tp.fileStatus)
    ensures r.1.Sent? ==>
      || (r.0.step == SendingFinishedPdu && r.1.packets == 1)
      || (r.0.step == IdleStep && r.0.state == Idle && r.1.packets == 0)
    ensures r.1 != Panicked
  {
    var (h, flow) := NoticeOfCompletion(h, env);
    if flow.Return? then (h, Failed(flow.error))
    else if WantsFinishedPdu(h.tp) then
      if env.sendFails then (h, Failed(Pdu))
      else
        (Log(h, FinishedPduEvent(h.tp)).(step := SendingFinishedPdu), Sent(1))
    else (Reset(h), Sent(0))
  }

  function FsmBusy(c: Config, h: Handler, env: Env): (r: (Handler, Outcome))
    requires MidCall(h)
    ensures h.trace <= r.0.trace
  {
    var (h, flow) := if h.step == TransactionStart then StartTransaction(c, h, env) else (h, Continue);
    if flow.Return? then (h, Failed(flow.error))
    else
      var h := if h.step == ReceivingWithCheckLimit then CheckLimitHandling(c, h, env) else h;
      var (h, sent) := if h.step == TransferCompletion then CompleteTransfer(h, env) else (h, Sent(0));
      if sent.Failed? then (h, sent)
      else if h.step == SendingAckPdu then (h, Panicked)
      else (if h.step == SendingFinishedPdu then Reset(h) else h, sent)
  }

  /** One call of `state_machine`. */
  function Call(c: Config, h: Handler, packet: Option<Packet>, env: Env): (Handler, Outcome)
    requires Ready(h)
  {
    var (g, flow) := if packet.Some? then Insert(c, h, env, packet.value) else (h, Continue);
    match flow
    case Return(e) => (g, Failed(e))
    case Todo => (g, Panicked)
    case Continue =>
      if g.state != Busy then (g, Panicked)
      else
        InsertReady(c, h, packet, env);
        FsmBusy(c, g, env)
  }

  // ------------------------------------------------------------ invariants

  /** What holds between calls whatever the fault table, and makes every `unwrap` in the handler safe. */
  ghost predicate Ready(h: Handler) {
    && h.state != Suspended
    && (h.step == IdleStep ==> h.state == Idle)
    && (h.state == Idle ==> h.step in {IdleStep, TransferCompletion})
    && (h.state == Busy ==> h.tp.remote.Some?)
    && (h.state == Busy && h.step != TransactionStart ==> h.tp.transactionId.Some?)
    && (h.step == ReceivingWithCheckLimit ==> h.tp.timer)
    && h.step != SendingAckPdu && h.step != SendingFinishedPdu
  }

  /** What holds after a packet has been inserted and the handler is still busy. */
  ghost predicate MidCall(h: Handler) {
    && h.state == Busy && h.step != IdleStep && h.step != SendingFinishedPdu
    && h.tp.remote.Some?
    && (h.step != TransactionStart ==> h.tp.transactionId.Some?)
    && (h.step == ReceivingWithCheckLimit ==> h.tp.timer)
  }

  lemma InsertReady(c: Config, h: Handler, packet: Option<Packet>, env: Env)
    requires Ready(h)
    ensures var (g, flow) := if packet.Some? then Insert(c, h, env, packet.value) else (h, Continue);
      && (flow == Continue && g.state == Busy ==> MidCall(g))
      && (flow.Return? ==> Ready(g))
  {
  }

  /** Every call that returns leaves a state in which the next call is safe again. */
  lemma CallKeepsReady(c: Config, h: Handler, packet: Option<Packet>, env: Env)
    requires Ready(h)
    ensures var (g, r) := Call(c, h, packet, env); r != Panicked ==> Ready(g)
  {
    InsertReady(c, h, packet, env);
    var (g, flow) := if packet.Some? then Insert(c, h, env, packet.value) else (h, Continue);
    if flow == Continue && g.state == Busy {
      FsmBusyReady(c, g, env);
    }
  }

  lemma FsmBusyReady(c: Config, h: Handler, env: Env)
    requires MidCall(h)
    ensures var (g, r) := FsmBusy(c, h, env); r != Panicked ==> Ready(g)
  {
    hide StartTransaction, CheckLimitHandling, CompleteTransfer;
  }
}
