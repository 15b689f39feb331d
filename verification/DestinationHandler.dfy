/**
 The destination handler as the object it is: fields updated in place by one method per
 procedure, each proved to do what the specification function of the same procedure says.
 */
module DestinationHandler {
  import opened Wrappers
  import opened Reassembly
  import opened Filestore
  import opened CfdpSpec
  import Spec = CfdpSpec

  class DestinationHandler {
    const cfg: Config
    const vfs: NativeFilestore
    const readLen: nat -> nat
    var step: TransactionStep
    var state: State
    var tp: Params
    ghost var trace: seq<Event>

    ghost function View(): Handler
      reads this, vfs
    {
      Handler(step, state, tp, vfs.View(), trace)
    }

    ghost predicate Valid()
      reads this, vfs
    {
      Ready(View()) && FullReads(readLen)
    }

    constructor (cfg: Config, vfs: NativeFilestore, readLen: nat -> nat)
      requires FullReads(readLen)
      ensures Valid() && this.vfs == vfs && this.cfg == cfg && View() == Initial(vfs.View())
    {
      this.cfg := cfg;
      this.vfs := vfs;
      this.readLen := readLen;
      this.step := IdleStep;
      this.state := Idle;
      this.tp := InitialParams;
      this.trace := [];
    }

    /** Drive the handler, optionally inserting a packet first. */
    method StateMachine(packet: Option<Packet>, env: Env) returns (out: Outcome)
      requires Valid()
      modifies this, vfs
      ensures (View(), out) == Call(cfg, old(View()), packet, env)
      ensures out != Panicked ==> Valid()
    {
      ghost var h := View();
      CallKeepsReady(cfg, h, packet, env);
      InsertReady(cfg, h, packet, env);
      if packet.Some? {
        var flow := InsertPacket(packet.value, env);
        if flow.Return? {
          return Failed(flow.error);
        }
        if flow.Todo? {
          return Panicked;
        }
      }
      match state {
        case Busy => out := FsmBusy(env);
        case _ => out := Panicked;
      }
    }

    method InsertPacket(p: Packet, env: Env) returns (flow: Flow)
      requires Valid()
      modifies this, vfs
      ensures (View(), flow) == Insert(cfg, old(View()), env, p)
    {
      match p {
        case NotForDestination => flow := Return(CantProcessPacketType);
        case DirectiveMissing => flow := Return(DirectiveExpected);
        case SourceSideDirective => flow := Return(CantProcessPacketType);
        case AckOrPrompt => flow := Todo;
        case MetadataPdu(m) => flow := HandleMetadataPdu(m);
        case FileDataPdu(s) => flow := HandleFileData(s, env);
        case EofPdu(e) => flow := HandleEofPdu(e, env);
      }
    }

    method HandleMetadataPdu(metadata: Option<Metadata>) returns (flow: Flow)
      requires Valid()
      modifies this
      ensures (View(), flow) == HandleMetadata(cfg, old(View()), metadata)
    {
      if state != Idle {
        return Return(RecvdMetadataButIsBusy);
      }
      if metadata.None? {
        return Return(Pdu);
      }
      var m := metadata.value;
      tp := ResetParams(tp).(
        closureRequested := m.closureRequested, checksumType := m.checksumType, fileSize := m.fileSize);
      if m.sourceId !in cfg.remotes {
        return Return(NoRemoteCfgFound(m.destId));
      }
      tp := tp.(remote := Some(cfg.remotes[m.sourceId]));
      if m.srcName == "" && m.destName == "" {
        tp := tp.(metadataOnly := true);
      }
      if !tp.metadataOnly && m.srcName == "" {
        return Return(EmptySrcFileField);
      }
      if !tp.metadataOnly && m.destName == "" {
        return Return(EmptyDestFileField);
      }
      if !tp.metadataOnly {
        tp := tp.(srcName := m.srcName, destName := m.destName,
                  acknowledged := m.acknowledged, sourceId := m.sourceId, seqNum := m.seqNum);
      }
      state := Busy;
      step := TransactionStart;
      trace := trace + [TakenOnEvent(tp)];
      return Continue;
    }

    method HandleFileData(segment: Option<Segment>, env: Env) returns (flow: Flow)
      requires Valid()
      modifies this, vfs
      ensures (View(), flow) == Spec.HandleFileData(cfg, old(View()), env, segment)
    {
      if state == Idle || (step != ReceivingFileData && step != ReceivingWithCheckLimit) {
        return Return(WrongStateForFileDataAndEof);
      }
      if segment.None? {
        return Return(Pdu);
      }
      var s := segment.value;
      if cfg.indicateSegments {
        trace := trace + [SegmentIndication(tp.transactionId.value, s.offset, |s.data|)];
      }
      var e := vfs.WriteData(tp.destPath, s.offset, s.data, env.writeFails);
      if e.Some? {
        var _ := DeclareFault(FilestoreRejection);
        return Return(FilestoreFailed(e.value));
      }
      tp := tp.(progress := tp.progress + |s.data|);
      trace := trace + [Stored(s)];
      return Continue;
    }

    method HandleEofPdu(eof: Option<Eof>, env: Env) returns (flow: Flow)
      requires Valid()
      modifies this
      ensures (View(), flow) == HandleEof(cfg, old(View()), env, eof)
    {
      if state == Idle || step != ReceivingFileData {
        return Return(WrongStateForFileDataAndEof);
      }
      if eof.None? {
        return Return(Pdu);
      }
      if cfg.indicateEof {
        trace := trace + [EofIndication(tp.transactionId.value)];
      }
      if !eof.value.noError {
        return Todo;
      }
      trace := trace + [EofTaken(eof.value)];
      var finish := HandleNoErrorEofPdu(eof.value, env);
      if finish {
        FileTransferCompleteTransition();
      }
      return Continue;
    }

    /** Returns whether the transfer can be completed regularly. */
    method HandleNoErrorEofPdu(eof: Eof, env: Env) returns (finish: bool)
      requires tp.transactionId.Some? && tp.remote.Some? && step == ReceivingFileData && FullReads(readLen)
      modifies this
      ensures (View(), finish) == HandleNoErrorEof(cfg, old(View()), env, eof)
    {
      if tp.progress > eof.fileSize {
        var code := DeclareFault(FileSizeError);
        if code != IgnoreError {
          return false;
        }
      }
      tp := tp.(checksum := eof.checksum);
      if !tp.acknowledged {
        var matches := ChecksumVerify(env);
        if !matches {
          var code := DeclareFault(FileChecksumFailure);
          if code != IgnoreError {
            return false;
          }
          StartCheckLimitHandling();
          return false;
        }
      }
      return true;
    }

    method FileTransferCompleteTransition()
      modifies this
      ensures View() == CompleteTransition(old(View()))
    {
      if tp.acknowledged {
        step := SendingAckPdu;
      } else {
        step := TransferCompletion;
      }
    }

    method ChecksumVerify(env: Env) returns (complete: bool)
      requires tp.transactionId.Some? && FullReads(readLen)
      modifies this
      ensures (View(), complete) == Spec.ChecksumVerify(cfg, old(View()), env)
    {
      complete := false;
      if tp.checksumType == NullChecksum || tp.metadataOnly {
        complete := true;
        tp := tp.(delivery := Complete, condition := NoError);
      } else {
        var v := vfs.ChecksumVerify(cfg.crc, tp.destPath, tp.checksumType, tp.checksum, 1024, readLen, env.verifyFails);
        match v {
          case Verdict(matches) =>
            complete := matches;
            if matches {
              trace := trace + [Verified(tp.checksumType, tp.checksum, vfs.files[tp.destPath])];
            }
          case VerifyFailed(e) =>
            if e == ChecksumTypeNotImplemented {
              var _ := DeclareFault(UnsupportedChecksumType);
              complete := true;
            } else {
              var _ := DeclareFault(FilestoreRejection);
            }
        }
      }
    }

    method StartCheckLimitHandling()
      requires tp.remote.Some?
      modifies this
      ensures View() == Spec.StartCheckLimitHandling(old(View()))
    {
      step := ReceivingWithCheckLimit;
      tp := tp.(timer := true);
      tp := tp.(checkCount := 0);
    }

    method CheckLimitHandling(env: Env)
      requires tp.transactionId.Some? && tp.remote.Some? && state == Busy && step == ReceivingWithCheckLimit
      requires FullReads(readLen)
      modifies this
      ensures View() == Spec.CheckLimitHandling(cfg, old(View()), env)
    {
      if !tp.timer {
        return;
      }
      if env.expired {
        var matches := ChecksumVerify(env);
        if matches {
          FileTransferCompleteTransition();
          return;
        }
        if tp.checkCount + 1 >= tp.remote.value.checkLimit {
          var _ := DeclareFault(CheckLimitReached);
        } else {
          tp := tp.(checkCount := tp.checkCount + 1);
        }
      }
    }

    method FsmBusy(env: Env) returns (out: Outcome)
      requires MidCall(View()) && FullReads(readLen)
      modifies this, vfs
      ensures (View(), out) == Spec.FsmBusy(cfg, old(View()), env)
    {
      var sentPackets := 0;
      if step == TransactionStart {
        var flow := TransactionStartStep(env);
        if flow.Return? {
          return Failed(flow.error);
        }
      }
      if step == ReceivingWithCheckLimit {
        CheckLimitHandling(env);
      }
      if step == TransferCompletion {
        var sent := TransferCompletionStep(env);
        if sent.Failed? {
          return sent;
        }
        sentPackets := sentPackets + sent.packets;
      }
      if step == SendingAckPdu {
        return Panicked;
      }
      if step == SendingFinishedPdu {
        ResetHandler();
      }
      return Sent(sentPackets);
    }

    method TransactionStartStep(env: Env) returns (flow: Flow)
      modifies this, vfs
      ensures (View(), flow) == StartTransaction(cfg, old(View()), env)
      ensures flow != Todo
    {
      hide EmptyFile, Spec.IndicateMetadata;
      IndicateMetadata();
      var path := DestinationPath();
      if path.None? {
        return Return(PathConcat);
      }
      tp := tp.(destPath := path.value);
      var e := EmptyDestination(env);
      if e.Some? {
        return Return(FilestoreFailed(e.value));
      }
      tp := tp.(fileStatus := Retained);
      step := ReceivingFileData;
      return Continue;
    }

    method IndicateMetadata()
      modifies this
      ensures View() == Spec.IndicateMetadata(old(View()))
    {
      tp := tp.(destPath := tp.destName);
      var id := TransactionId(tp.sourceId, tp.seqNum);
      tp := tp.(transactionId := Some(id));
      trace := trace + [MetadataIndication(id, tp.fileSize, tp.srcName, tp.destName)];
    }

    /** In a directory, the last part of the source name is appended. */
    method DestinationPath() returns (path: Option<string>)
      ensures path == if tp.destName in vfs.dirs then cfg.inDirectory(tp.destName, tp.srcName) else Some(tp.destName)
    {
      path := Some(tp.destName);
      if tp.destName in vfs.dirs {
        path := cfg.inDirectory(tp.destName, tp.srcName);
      }
    }

    method EmptyDestination(env: Env) returns (e: Option<FilestoreError>)
      modifies vfs
      ensures (vfs.View(), e) == EmptyFile(old(vfs.View()), tp.destPath, env)
    {
      if tp.destPath in vfs.files || tp.destPath in vfs.dirs {
        e := vfs.TruncateFile(tp.destPath, env.startFails);
      } else {
        e := vfs.CreateFile(tp.destPath, env.startFails);
      }
    }

    method TransferCompletionStep(env: Env) returns (out: Outcome)
      requires tp.transactionId.Some? && tp.remote.Some?
      modifies this, vfs
      ensures (View(), out) == CompleteTransfer(old(View()), env)
    {
      var flow := NoticeOfCompletion(env);
      if flow.Return? {
        return Failed(flow.error);
      }
      if WantsFinishedPdu(tp) {
        if env.sendFails {
          return Failed(Pdu);
        }
        trace := trace + [FinishedPduEvent(tp)];
        step := SendingFinishedPdu;
        return Sent(1);
      }
      ResetHandler();
      return Sent(0);
    }

    method NoticeOfCompletion(env: Env) returns (flow: Flow)
      requires tp.transactionId.Some? && tp.remote.Some?
      modifies this, vfs
      ensures (View(), flow) == Spec.NoticeOfCompletion(old(View()), env)
    {
      if tp.disposition == Cancelled && tp.remote.value.dispositionOnCancellation && tp.delivery == Incomplete {
        var e := vfs.RemoveFile(tp.destPath, env.removeFails);
        if e.Some? {
          return Return(FilestoreFailed(e.value));
        }
        tp := tp.(fileStatus := DiscardDeliberately);
      }
      trace := trace + [FinishedEvent(View())];
      return Continue;
    }

    method DeclareFault(cond: ConditionCode) returns (code: FaultHandlerCode)
      requires tp.transactionId.Some?
      modifies this
      ensures View() == Spec.DeclareFault(cfg, old(View()), cond) && code == cfg.faultTable(cond)
    {
      var id := tp.transactionId.value;
      var progress := tp.progress;
      code := cfg.faultTable(cond);
      match code {
        case NoticeOfCancellation =>
          step := TransferCompletion;
          tp := tp.(condition := cond);
          tp := tp.(disposition := Cancelled);
          trace := trace + [CancellationNotice(cond)];
        case NoticeOfSuspension =>
        case IgnoreError =>
        case AbandonTransaction => AbandonTransfer();
      }
      trace := trace + [FaultReported(id, cond, progress, code)];
    }

    method AbandonTransfer()
      modifies this
      ensures View() == Abandon(old(View()))
    {
      if state == Busy {
        trace := trace + [Abandoned];
      }
      ResetHandler();
    }

    method ResetHandler()
      modifies this
      ensures View() == Reset(old(View()))
    {
      step := IdleStep;
      state := Idle;
      tp := ResetParams(tp);
    }
  }
}
