/**
 What the destination handler answers to each PDU: which ones it refuses, with which error, and
 what it takes from a metadata PDU that it accepts.
 */
module CfdpPackets {
  import opened Wrappers
  import opened Reassembly
  import opened Filestore
  import opened CfdpSpec
  import opened CfdpRuns
  import opened CfdpTransfer

  /** The handler can use file data: a transfer is under way and its EOF not accepted yet. */
  predicate TakesFileData(h: Handler) {
    h.state == Busy && (h.step == ReceivingFileData || h.step == ReceivingWithCheckLimit)
  }

  predicate TakesEof(h: Handler) {
    h.state == Busy && h.step == ReceivingFileData
  }

  /**
   A PDU is refused with each error exactly for this reason, and refusing it changes nothing. A
   broken PDU is only noticed where a whole one would be taken.
   */
  lemma RefusedIff(c: Config, h: Handler, p: Packet, env: Env)
    requires Ready(h)
    ensures var (g, out) := Call(c, h, Some(p), env);
      && (out == Failed(CantProcessPacketType) <==> p.NotForDestination? || p.SourceSideDirective?)
      && (out == Failed(DirectiveExpected) <==> p.DirectiveMissing?)
      && (out == Failed(RecvdMetadataButIsBusy) <==> p.MetadataPdu? && h.state == Busy)
      && (out == Failed(WrongStateForFileDataAndEof) <==>
            (p.FileDataPdu? && !TakesFileData(h)) || (p.EofPdu? && !TakesEof(h)))
      && (Broken(h, p) ==> out == Failed(Pdu))
      && (Broken(h, p) || (out.Failed? && IsRefusal(out.error)) ==> g == h)
  {
    hide HandleNoErrorEof, DeclareFault, FsmBusy, Discards;
    InsertReady(c, h, Some(p), env);
    var (g, flow) := Insert(c, h, env, p);
    if flow == Continue && g.state == Busy {
      LaterErrors(c, g, env);
    }
  }

  /** Errors that come after a PDU was accepted: the filestore's, or the destination or the Finished PDU. */
  predicate IsLaterError(e: DestError) {
    e.FilestoreFailed? || e == PathConcat || e == Pdu
  }

  lemma LaterErrors(c: Config, h: Handler, env: Env)
    requires MidCall(h)
    ensures var out := FsmBusy(c, h, env).1; out.Failed? ==> IsLaterError(out.error)
  {
    hide CheckLimitHandling, EmptyFile, Discards, Log;
  }

  predicate IsRefusal(e: DestError) {
    e in {CantProcessPacketType, DirectiveExpected, RecvdMetadataButIsBusy, WrongStateForFileDataAndEof}
  }

  predicate Broken(h: Handler, p: Packet) {
    || (p == MetadataPdu(None) && h.state == Idle)
    || (p == FileDataPdu(None) && TakesFileData(h))
    || (p == EofPdu(None) && TakesEof(h))
  }

  /** Why an idle handler does not take on a transaction. */
  function Objection(c: Config, m: Metadata): Option<DestError> {
    if m.sourceId !in c.remotes then Some(NoRemoteCfgFound(m.destId))
    else if (m.srcName == "") == (m.destName == "") then None
    else if m.srcName == "" then Some(EmptySrcFileField)
    else Some(EmptyDestFileField)
  }

  /**
   An idle handler that has seen no metadata-only PDU takes on every transaction from a known
   remote with both file names, and indicates it as its PDU says. It can then receive the file
   exactly if the destination can be named and emptied.
   */
  lemma MetadataAnswered(c: Config, h: Handler, m: Metadata, env: Env)
    requires Ready(h) && h.state == Idle && !h.tp.metadataOnly
    ensures var (g, out) := Call(c, h, Some(MetadataPdu(Some(m))), env);
      && (Objection(c, m).Some? ==> out == Failed(Objection(c, m).value) && g == h.(tp := g.tp))
      && (Objection(c, m).None? && m.srcName != "" ==>
            && g.state == Busy
            && g.trace == h.trace + [
                 TakenOn(m.acknowledged || m.closureRequested, c.remotes[m.sourceId].dispositionOnCancellation,
                         false, m.checksumType),
                 MetadataIndication(TransactionId(m.sourceId, m.seqNum), m.fileSize, m.srcName, m.destName)]
            && (out == Failed(PathConcat) <==> Destination(c, h.disk.dirs, m).None?)
            && (out == Sent(0) <==> g.step == ReceivingFileData)
            && (out == Sent(0) <==>
                  && Destination(c, h.disk.dirs, m).Some?
                  && EmptyFile(h.disk, Destination(c, h.disk.dirs, m).value, env).1.None?))
  {
    if Objection(c, m).None? && m.srcName != "" {
      var (h1, flow) := HandleMetadata(c, h, Some(m));
      var h2 := IndicateMetadata(h1);
      assert h2.trace == h.trace + [h1.trace[|h.trace|], h2.trace[|h1.trace|]];
      assert StartTransaction(c, h1, env).0.trace == h2.trace;
      hide CompleteTransfer, CheckLimitHandling;
    }
  }

  /** A segment that cannot be written is a filestore rejection, and the file stays as it is. */
  lemma FailedWriteIsReported(c: Config, h: Handler, s: Segment, env: Env)
    requires Ready(h) && TakesFileData(h)
    requires Write(h.disk, h.tp.destPath, s.offset, s.data, env.writeFails).1.Some?
    ensures var (g, out) := Call(c, h, Some(FileDataPdu(Some(s))), env);
      && out == Failed(FilestoreFailed(Write(h.disk, h.tp.destPath, s.offset, s.data, env.writeFails).1.value))
      && g.disk == h.disk && g.trace != []
      && g.trace[|g.trace| - 1] ==
           FaultReported(h.tp.transactionId.value, FilestoreRejection, h.tp.progress, c.faultTable(FilestoreRejection))
  {
    hide FsmBusy;
  }
}
