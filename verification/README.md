# Verified model of sat-rs

A Dafny model of the parts of sat-rs that carry its hard guarantees, and proofs of what they
guarantee. `dafny verify dfyconfig.toml` checks the whole project.

| files | component |
|---|---|
| `PoolSpec`, `PoolRuns` | the packet pool as a map from slots to byte strings: slot choice, addresses, runs of operations |
| `PoolFlat`, `StaticPool`, `HeaplessPool`, `PoolEquivalence` | the flat-buffer pools, each a refinement of that map, and both side by side |
| `Reassembly`, `Filestore` | file contents under writes in any order, checksums, the native filestore |
| `CfdpSpec`, `CfdpRuns`, `CfdpReports`, `CfdpPackets`, `CfdpTransfer`, `CfdpLimits`, `CfdpReach`, `DestinationHandler` | the CFDP destination handler (CCSDS 727.0-B-5): one call as a function, all runs, what it reports, its answers to PDUs, whole transfers, limits and rough edges, what construction leads to, and the handler object |
| `PusSpec`, `PusRuns`, `PusRouting`, `PusService` | the targeted PUS request service: steps, all interleavings with target threads, what becomes of telecommands, and the service object |
| `PowerSpec`, `PowerRuns`, `PowerReplies`, `PowerProgress`, `PowerModes`, `PowerHandlers` | magnetometer and power unit: steps, all interleavings, what they send, what they wait for, the power unit's own modes, and the handler objects |
| `Scheduler` | the single and multi task scheduling loops |
| `EventRouting` | the event manager |
| `Counters` | sequence counters and the telemetry sink |
| `Wrappers`, `Sorting` | the optional value and the sort that several components use |

Stateful code is modelled by classes whose methods are proved against specification functions
on values; statements over runs and interleavings are lemmas about those functions. What the
environment decides (I/O failures, expired timers, full queues, the clock, read lengths) is a
parameter of each call. Traces are histories kept for the proofs; besides outputs they hold
marks that the source does not emit, such as a metadata PDU taken on or a request routed.

Where the code departs from what its documentation suggests, the model follows the code, and
lemmas say exactly when it does and what then happens:

- Pool addresses keep sixteen bits of each index when encoded but eight when decoded
  (`AddressesResolveIff`, `AliasedAddress`).
- `StaticHeaplessMemoryPool::grow` does not order subpools, which spilling relies on
  (`ReservedBlockFitsIff`).
- Progress and completion disposition outlive a CFDP transaction (`SecondTransferFaultsIff`,
  `StaleCancellationDiscards`), and a verified checksum does not set the delivery code (`Reports`
  in `CfdpTransfer`).
- Abandoning a CFDP transaction can panic, leave state and step apart or finish it all the same
  (`CallPanicsIff`, `AlwaysTogetherIff`, `AlwaysBalancedIff`), ignoring the check limit fault keeps
  the handler checking for good (`CheckLimitEndsIff`), and a failing PDU sender repeats indications
  or blocks the handler (`FinishIsFinalIff`, `CompletionSticksIff`, `StuckForever`).
- A byte that arrives twice before the EOF is a file size error (`TransferInAnyOrder`).
- The modular checksum of a file depends on how its reads are cut (`PositionalIffFullReads`).
- A metadata-only transaction marks the handler for good (`MetadataOnlySticks`).
- Timed-out PUS requests and failed reports end a request without any report (`LeavesMapIff`), and
  of two requests with one id only one is ever reported as ended (`RequestsBalanceIff`).
- A telecommand whose conversion fails gets both a start failure and a completion failure
  report (`PollAndHandleNextTc`).
- The magnetometer shows a new mode, and marks its data valid, before it has power
  (`DataIsValidIff`, `UnpoweredDataIsValidIff`). It panics while no switch information is
  published, at start-up as well as after the power unit was switched off (`CheckPanicsIff`), and
  waits for good for a switch request that was lost (`CompletesIffOnIsComing`).

## Model

| member | source | states |
|---|---|---|
| `PoolSpec.DecodeEncode` | satrs/src/pool.rs:109-122 | Encoding then decoding an address gives it back exactly when both indices fit in eight bits, because encoding keeps sixteen bits of each and decoding eight. |
| `PoolSpec.EncodeInjective` | satrs/src/pool.rs:109-113 | Encoding alone never merges two addresses. |
| `PoolSpec.FirstFit` | satrs/src/pool.rs:910-920 | The result is the lowest subpool whose blocks hold the request; everything below it is too small. |
| `PoolSpec.FirstFree` | satrs/src/pool.rs:933-947 | The result is the lowest unused packet index of the subpool; everything below it is in use. |
| `PoolSpec.SpillFromLowest` | satrs/src/pool.rs:893-902 | Walking up from a subpool finds the first free slot in search order from there on, or reports the last subpool full when all are taken. |
| `PoolSpec.ReserveIsFirstFittingFreeSlot` | satrs/src/pool.rs:890-920 | With spilling on ascending block sizes a reservation succeeds exactly when some large enough slot is free, takes the first such slot, and otherwise reports StoreFull of the last subpool or DataTooLarge depending on whether any block size fits. |
| `PoolSpec.ReserveWithoutSpillStaysInBestFit` | satrs/src/pool.rs:890-908 | Without spilling only the best fitting subpool is used; StoreFull means all of its slots are taken. |
| `PoolSpec.ReservedBlockFitsIff` | satrs/src/pool.rs:518-568 | The reserved block is large enough for every request and occupancy exactly when the pool does not spill or its block sizes ascend, which `grow` does not check. |
| `PoolRuns.ReserveIsFresh` | satrs/src/pool.rs:890-908 | A reservation returns an unused slot with a large enough block. |
| `PoolRuns.ChosenIsFree` | satrs/src/pool.rs:547-568 | Whatever the layout, what a reservation chooses is a free slot; only its size may be wrong. |
| `PoolRuns.ApplyKeepsValid` | satrs/src/pool.rs:955-1055 | Every operation keeps the abstract pool well formed. |
| `PoolRuns.ApplyFrame` | satrs/src/pool.rs:955-1055 | One operation changes no stored bytes but those of the slot it is aimed at. |
| `PoolRuns.RunFrame` | satrs/src/pool.rs:955-1055 | No run of operations changes a stored byte string unless one of them is aimed at its slot. |
| `PoolRuns.StoredDataIsReadBack` | satrs/src/pool.rs:956-1012 | What add stored is what read returns at the address add gave out, after any run in between that leaves that address alone, for layouts that eight bits can address. |
| `PoolRuns.ModifyAndDeleteTakeEffect` | satrs/src/pool.rs:982-1030 | Reading after modify sees the updated bytes; after delete it reports that no data exists, and exactly that slot is free again. |
| `PoolRuns.WrittenElementIsReadBack` | satrs/src/pool.rs:966-980 | What the writer given to free_element makes of a cleared block is read back in the same way. |
| `PoolRuns.StoredDataIsFoundUntilDeleted` | satrs/src/pool.rs:1032-1054 | From add on, through any run that leaves its address alone, data is found with its length; once deleted it is not found and its length is zero. |
| `PoolRuns.QueriesForetell` | satrs/src/pool.rs:862-888 | In every state has_element_at and len_of_data tell what read with any buffer, delete and modify will answer, down to the error for an address that is no slot. |
| `PoolRuns.AddAnswers` | satrs/src/pool.rs:956-964 | Adding fails exactly if no block is large enough, or all blocks that come into question are taken, with the error for which, and then changes nothing; otherwise the data is in a free slot whose address is returned. |
| `PoolRuns.StepConserves` | satrs/src/pool.rs:955-1055 | One operation changes the number of used slots by its own reservation or release. |
| `PoolRuns.SlotsAreConserved` | satrs/src/pool.rs:332-340 | Over any run, used slots are those before plus successful reservations minus successful deletions and dropped unreleased guards. |
| `PoolRuns.AddressesResolveIff` | satrs/src/pool.rs:101-122 | Every address a reservation can hand out decodes to the reserved slot exactly when no subpool a request can land in has an index or block count beyond eight bits. |
| `PoolRuns.AliasedAddress` | satrs/src/pool.rs:115-122 | The failing case: with the first 256 blocks of a larger subpool taken, the next add succeeds, but its address reads and deletes slot 0. |
| `PoolFlat.RawPosIsProduct` | satrs/src/pool.rs:949-952 | The position computed by one multiplication is where the block starts when blocks are laid out one after the other. |
| `PoolFlat.BlocksDisjoint` | satrs/src/pool.rs:949-952 | Blocks with different indices do not overlap. |
| `PoolFlat.RewriteElsewhere` | satrs/src/pool.rs:922-931 | Overwriting a block leaves what every other block holds, and its zero tail, alone. |
| `PoolFlat.PutRefines` | satrs/src/pool.rs:922-931 | Writing a block in the flat buffer is an update of the abstract map at that slot and nowhere else, and keeps unused bytes zero. |
| `PoolFlat.DeleteRefines` | satrs/src/pool.rs:1014-1030 | Clearing a block and its size entry removes exactly that slot from the abstract map and keeps unused bytes zero. |
| `PoolFlat.StoreRefines` | satrs/src/pool.rs:956-964 | Writing to the slot a reservation picks is the abstract store. |
| `PoolFlat.ModifyRefines` | satrs/src/pool.rs:982-994 | Rewriting a used block with as many bytes is the abstract modify. |
| `PoolFlat.HandedOutIsZero` | satrs/src/pool.rs:966-980 | When unused bytes are zero, a writer always starts from a block of zeros. |
| `PoolFlat.ScanIsFirstFree` | satrs/src/pool.rs:933-947 | The first free entry of a sizes list is the lowest free slot of the abstract pool. |
| `PoolFlat.FirstFreeEntry` | satrs/src/pool.rs:935-939 | The scan returns the first free entry, or none when there is none. |
| `StaticPool.Sanitize` | satrs/src/pool.rs:807-815 | The result ascends in block size and holds each subpool as often as the input if it has blocks and they are below the maximum size, and no other. |
| `StaticPool.KeptCounts` | satrs/src/pool.rs:808-810 | What retain keeps: each such subpool, as often as it is there. |
| `StaticPool.AllocateSubpools` | satrs/src/pool.rs:851-858 | Every subpool gets a cleared buffer of the right length and a free sizes list. |
| `StaticPool.StaticMemoryPool.constructor` | satrs/src/pool.rs:844-860 | A new pool is empty, with a permutation of the usable subpools as its layout. |
| `StaticPool.StaticMemoryPool.ValidateAddr` | satrs/src/pool.rs:873-888 | Which error an address outside the layout gets; none exactly for slots. |
| `StaticPool.StaticMemoryPool.AddrCheck` | satrs/src/pool.rs:862-871 | The stored length at an address, or why there is none. |
| `StaticPool.StaticMemoryPool.FindSubpool` | satrs/src/pool.rs:910-920 | The lowest fitting subpool from the given start on. |
| `StaticPool.StaticMemoryPool.FindEmpty` | satrs/src/pool.rs:933-947 | The lowest free slot of a subpool, StoreFull, or an error for a subpool that does not exist. |
| `StaticPool.StaticMemoryPool.FindSlot` | satrs/src/pool.rs:890-902 | The search loop finds the slot that the abstract choice names, with the same errors. |
| `StaticPool.StaticMemoryPool.Reserve` | satrs/src/pool.rs:890-908 | Marks exactly the chosen slot as holding the given length; changes nothing on an error. |
| `StaticPool.StaticMemoryPool.WriteBlock` | satrs/src/pool.rs:922-931 | Overwrites the start of exactly one block. |
| `StaticPool.StaticMemoryPool.Add` | satrs/src/pool.rs:956-964 | Refines the abstract store, keeping all invariants, and returns its address or error. |
| `StaticPool.StaticMemoryPool.FreeElement` | satrs/src/pool.rs:966-980 | Refines the abstract store of what the writer makes of a zeroed block. |
| `StaticPool.StaticMemoryPool.Modify` | satrs/src/pool.rs:982-994 | Refines the abstract modify. |
| `StaticPool.StaticMemoryPool.Read` | satrs/src/pool.rs:996-1012 | Copies exactly the stored bytes to the start of the buffer, or reports why not and leaves the buffer alone. |
| `StaticPool.StaticMemoryPool.Delete` | satrs/src/pool.rs:1014-1030 | Refines the abstract removal. |
| `StaticPool.StaticMemoryPool.HasElementAt` | satrs/src/pool.rs:1032-1042 | True exactly if the slot is in use, false if it is free, or the address error. |
| `StaticPool.StaticMemoryPool.LenOfData` | satrs/src/pool.rs:1044-1054 | The stored length, zero for a free slot, or the address error. |
| `StaticPool.PoolGuard.constructor` | satrs/src/pool.rs:307-314 | A new guard deletes on drop. |
| `StaticPool.PoolGuard.Release` | satrs/src/pool.rs:327-329 | A released guard no longer deletes. |
| `StaticPool.PoolGuard.Drop` | satrs/src/pool.rs:332-340 | Dropping removes the element unless released, and keeps the error if that fails. |
| `HeaplessPool.StaticHeaplessMemoryPool.constructor` | satrs/src/pool.rs:494-500 | A new pool has no subpools and no data. |
| `HeaplessPool.StaticHeaplessMemoryPool.Grow` | satrs/src/pool.rs:518-545 | Adds one free subpool at the end, or reports the pool full and changes nothing; both lists always have the same length. |
| `HeaplessPool.AppendFreeSubpool` | satrs/src/pool.rs:537-544 | Appending a free subpool adds slots but no data, and keeps unused bytes zero if its memory is. |
| `HeaplessPool.StaticHeaplessMemoryPool.ValidateAddr` | satrs/src/pool.rs:581-596 | Which error an address outside the layout gets. |
| `HeaplessPool.StaticHeaplessMemoryPool.AddrCheck` | satrs/src/pool.rs:570-579 | The stored length at an address, or why there is none. |
| `HeaplessPool.StaticHeaplessMemoryPool.FindSubpool` | satrs/src/pool.rs:598-608 | The lowest fitting subpool. |
| `HeaplessPool.StaticHeaplessMemoryPool.FindEmpty` | satrs/src/pool.rs:621-635 | The lowest free slot of a subpool, StoreFull, or an error for a subpool that does not exist. |
| `HeaplessPool.StaticHeaplessMemoryPool.FindSlot` | satrs/src/pool.rs:547-562 | NoCapacity for an empty pool, otherwise the slot the abstract choice names. |
| `HeaplessPool.NoCapacityIff` | satrs/src/pool.rs:547-562 | Storing fails for lack of capacity exactly until the pool is grown, and then answers as the heap pool does. |
| `HeaplessPool.StaticHeaplessMemoryPool.Reserve` | satrs/src/pool.rs:547-568 | Marks exactly the chosen slot; changes nothing on an error. |
| `HeaplessPool.StaticHeaplessMemoryPool.WriteBlock` | satrs/src/pool.rs:610-619 | Overwrites the start of exactly one block. |
| `HeaplessPool.StaticHeaplessMemoryPool.Add` | satrs/src/pool.rs:644-652 | Refines the abstract store, with NoCapacity for an empty pool. |
| `HeaplessPool.StaticHeaplessMemoryPool.FreeElement` | satrs/src/pool.rs:654-668 | Refines the abstract store of what the writer makes of the bytes the reserved block holds. |
| `HeaplessPool.StaticHeaplessMemoryPool.Modify` | satrs/src/pool.rs:670-682 | Refines the abstract modify. |
| `HeaplessPool.StaticHeaplessMemoryPool.Read` | satrs/src/pool.rs:684-700 | Copies exactly the stored bytes, or reports why not. |
| `HeaplessPool.StaticHeaplessMemoryPool.Delete` | satrs/src/pool.rs:702-713 | Refines the abstract removal. |
| `HeaplessPool.StaticHeaplessMemoryPool.HasElementAt` | satrs/src/pool.rs:715-725 | True exactly if the slot is in use, false if it is free, or the address error. |
| `HeaplessPool.StaticHeaplessMemoryPool.LenOfData` | satrs/src/pool.rs:727-737 | The stored length, zero for a free slot, or the address error. |
| `PoolEquivalence.StepHeap` | satrs/src/pool.rs:955-1055 | Each operation on the heap pool is one abstract step. |
| `PoolEquivalence.StepHeapless` | satrs/src/pool.rs:643-738 | Each operation on a grown, clear heapless pool is the same abstract step. |
| `PoolEquivalence.GrowLike` | satrs/src/pool.rs:518-545 | Growing a heapless pool with the subpools of an empty heap pool gives a pool with equal contents that is ready for all operations. |
| `PoolEquivalence.RunBoth` | satrs/src/pool.rs:643-1055 | From equal contents, any run of operations gives equal answers on both pools and leaves equal contents. |
| `Reassembly.WriteAt` | satrs/src/cfdp/filestore.rs:244-255 | A write at an offset sets exactly its own bytes; a gap before it reads as zeros; an empty write changes nothing. |
| `Reassembly.AssembledIsSource` | satrs/src/cfdp/filestore.rs:244-255 | Pieces of a file assemble to that file wherever they reach and to zeros elsewhere. |
| `Reassembly.LengthsCover` | satrs/src/cfdp/filestore.rs:244-255 | Segments cover at most as many bytes as they are long, and exactly as many if and only if they are disjoint. |
| `Reassembly.AnyOrderReassembles` | satrs/src/cfdp/filestore.rs:244-255 | Segments that cover a file assemble to it in any order and with any overlaps; their lengths add up to its size exactly if they do not overlap. |
| `Reassembly.WriteAddsContribution` | satrs/src/cfdp/filestore.rs:307-327 | Writing a segment over zeros adds its own contribution to the weighted byte sum. |
| `Reassembly.ChecksumIsSumOfContributions` | satrs/src/cfdp/filestore.rs:307-327 | The modular checksum of a file assembled from disjoint segments is the sum of their contributions modulo 2^32, in any order. |
| `Filestore.CrcFoldConcat` | satrs/src/cfdp/filestore.rs:284-297 | Digesting a file in two parts is digesting it whole. |
| `Filestore.FilestoreErrorsIff` | satrs/src/cfdp/filestore.rs:162-255 | Each error of creating, truncating, removing and writing a file has exactly one reason. |
| `Filestore.FilestoreLaws` | satrs/src/cfdp/filestore.rs:162-255 | Creating then removing gives the disk back, removing then creating is truncating, a write puts its bytes at their offset, and no operation touches another file. |
| `Filestore.WordSumIsModular` | satrs/src/cfdp/filestore.rs:313-324 | With full reads the word sum is the sum of byte i times 256^(3 - i mod 4). |
| `Filestore.WordsToBoundary` | satrs/src/cfdp/filestore.rs:313-324 | As long as reads at word boundaries are full, the words so far add up to the positional sum so far. |
| `Filestore.PositionalIffFullReads` | satrs/src/cfdp/filestore.rs:313-324 | The streaming sum is the positional checksum of every file exactly if every read at a word boundary fills its four bytes; a short one misplaces what follows. |
| `Filestore.NativeFilestore.CreateFile` | satrs/src/cfdp/filestore.rs:162-168 | Creates an empty file, or reports that the path exists or that the system failed. |
| `Filestore.NativeFilestore.RemoveFile` | satrs/src/cfdp/filestore.rs:170-179 | Removes exactly that file, or reports why not. |
| `Filestore.NativeFilestore.TruncateFile` | satrs/src/cfdp/filestore.rs:181-193 | Empties exactly that file, or reports why not. |
| `Filestore.NativeFilestore.WriteData` | satrs/src/cfdp/filestore.rs:244-255 | Writes at the offset, or reports why not and changes nothing. |
| `Filestore.NativeFilestore.CalcModularChecksum` | satrs/src/cfdp/filestore.rs:307-327 | The streaming loop computes the wrapping word sum, which is the positional checksum when reads are full. |
| `Filestore.NativeFilestore.CalcCrc` | satrs/src/cfdp/filestore.rs:284-294 | The digest of the whole file, however the reads cut it. |
| `Filestore.NativeFilestore.UpdateDigest` | satrs/src/cfdp/filestore.rs:293 | Feeding a chunk folds its bytes into the digest. |
| `Filestore.NativeFilestore.ChecksumVerify` | satrs/src/cfdp/filestore.rs:270-303 | Whether the checksum matches, or why it cannot be told, per checksum type. |
| `CfdpSpec.FaultEffect` | satrs/src/cfdp/dest.rs:705-737 | Each fault is handled as the table says for its own condition: cancelled with that condition code, abandoned, or left as it is; and reported with it. |
| `CfdpSpec.ChecksumVerify` | satrs/src/cfdp/dest.rs:488-521 | Verification touches neither file nor timer, succeeds exactly for a match, an unsupported type or nothing to verify, and idles the handler exactly if its fault abandons. |
| `CfdpSpec.HandleNoErrorEof` | satrs/src/cfdp/dest.rs:446-477 | Where an EOF can lead, exactly when it can be completed, and exactly when it abandons. |
| `CfdpSpec.StartTransaction` | satrs/src/cfdp/dest.rs:597-663 | Data reception begins exactly when starting succeeds; a transaction id is set either way. |
| `CfdpSpec.CheckLimitHandling` | satrs/src/cfdp/dest.rs:536-560 | Where a check can lead, with any fault table. |
| `CfdpSpec.CompleteTransfer` | satrs/src/cfdp/dest.rs:665-677 | Completion either fails in place, sends one PDU, or resets to idle. |
| `CfdpSpec.InsertReady` | satrs/src/cfdp/dest.rs:281-330 | After a packet is taken every unwrap that follows in the call is safe. |
| `CfdpSpec.CallKeepsReady` | satrs/src/cfdp/dest.rs:253-266 | With any fault table, every call that returns leaves a remote configuration while busy, a transaction id from reception on and a timer in check limit handling, so every unwrap is safe. |
| `CfdpRuns.RunConcat` | satrs/src/cfdp/dest.rs:253-266 | A run of calls can be cut anywhere before it panics. |
| `CfdpRuns.CallKeeps` | satrs/src/cfdp/dest.rs:566-584 | Every call, with any table and sender, keeps the evidence for completion, returns the number of PDUs it sent, and indicates at most one finish, after which it idles unless a PDU is owed. |
| `CfdpRuns.RunKeeps` | satrs/src/cfdp/dest.rs:253-266 | The evidence is kept over every run, and the values returned add up to the PDUs sent. |
| `CfdpRuns.ObservedInTrace` | satrs/src/cfdp/dest.rs:679-703 | What the invariant records about a transaction can be pointed at in the trace: its metadata, its EOF, its verification, its cancellation. |
| `CfdpRuns.EveryFinishIsJustified` | satrs/src/cfdp/dest.rs:488-521 | In every run, with any fault table, each finished indication of a CRC or modular transfer follows a cancellation notice for it, or its file has, computed anew, the checksum of the metadata's kind that an EOF PDU of this transaction carried; the file can only be gone if some notice was ever issued. |
| `CfdpReports.FaultTold` | satrs/src/cfdp/dest.rs:705-730 | A fault that has a cause keeps story and handler in agreement: condition, status, progress and file. |
| `CfdpReports.EofTold` | satrs/src/cfdp/dest.rs:446-477 | So does an EOF; a transfer it lets complete can be reported truthfully. |
| `CfdpReports.SegmentTold` | satrs/src/cfdp/dest.rs:404-416 | So does a written segment: the file is what all segments so far assemble to. |
| `CfdpReports.CheckLimitTold` | satrs/src/cfdp/dest.rs:536-560 | So does a check at expiry, even one that abandons and then cancels. |
| `CfdpReports.CompletionTold` | satrs/src/cfdp/dest.rs:665-703 | So does completion, however often a failing sender makes it repeat. |
| `CfdpReports.RunTold` | satrs/src/cfdp/dest.rs:253-266 | So does every run. |
| `CfdpReports.EveryReportIsTrue` | satrs/src/cfdp/dest.rs:679-772 | In every run, with any fault table and environment: a finished indication has the id indicated last, the condition of the last notice of cancellation since its metadata (no error if none), complete delivery exactly for an uncancelled transfer without checksum, the due file status, and the file its segments assemble to unless thrown away; a Finished PDU repeats the indication right before it, with no error for an unsupported checksum; a fault report has a cause, the bytes written so far and the table's code; segments and EOFs are indicated where configured. |
| `CfdpPackets.RefusedIff` | satrs/src/cfdp/dest.rs:281-330 | Each error for a PDU that is refused has exactly one reason, and refusing changes nothing. |
| `CfdpPackets.MetadataAnswered` | satrs/src/cfdp/dest.rs:332-387 | An idle handler refuses metadata exactly for an unknown remote or one missing name; otherwise it takes on and indicates the transaction as the PDU says, and receives exactly if the destination can be named and emptied. |
| `CfdpPackets.FailedWriteIsReported` | satrs/src/cfdp/dest.rs:404-416 | A segment that cannot be written is reported as a filestore rejection, with the error and the progress. |
| `CfdpTransfer.MetadataStarts` | satrs/src/cfdp/dest.rs:332-387 | An ordinary metadata PDU starts reception into an empty destination file. |
| `CfdpTransfer.SegmentIsWritten` | satrs/src/cfdp/dest.rs:389-419 | A segment is written and counted. |
| `CfdpTransfer.SegmentsAreWritten` | satrs/src/cfdp/dest.rs:389-419 | So is every sequence of segments, whatever polls and rejected PDUs come in between. |
| `CfdpTransfer.OthersAreIgnored` | satrs/src/cfdp/dest.rs:281-330 | Polls, broken PDUs, PDUs for others and further metadata leave a receiving handler as it is. |
| `CfdpTransfer.EofAccepted` | satrs/src/cfdp/dest.rs:446-477 | A truthful EOF after all segments is accepted without a fault, with progress equal to its size. |
| `CfdpTransfer.EofCompletes` | satrs/src/cfdp/dest.rs:421-486 | The call that takes that EOF stores the file, reports it, sends the Finished PDU if requested and ends idle. |
| `CfdpTransfer.EofFaults` | satrs/src/cfdp/dest.rs:446-452 | Progress beyond the file, left over or from bytes that arrived twice, makes a truthful EOF a file size error. |
| `CfdpTransfer.TransferInAnyOrder` | satrs/src/cfdp/dest.rs:332-477 | A whole transfer, with segments that cover the file in any order among polls and rejected PDUs, is free of faults exactly when no progress was left over and no byte arrives twice; then the file is stored byte for byte unless a disposition left over from a cancellation discards it. |
| `CfdpTransfer.SecondTransferFaultsIff` | satrs/src/cfdp/dest.rs:131-137 | From construction on, a first transfer is free of faults exactly if no byte arrives twice, and a second one after it exactly if, besides, the first file was empty. |
| `CfdpTransfer.EofTooEarly` | satrs/src/cfdp/dest.rs:464-475 | An EOF before the last segments is one ignored checksum fault and starts check limit handling. |
| `CfdpTransfer.LateSegmentsAreWritten` | satrs/src/cfdp/dest.rs:394-418 | Segments after the EOF are still written. |
| `CfdpTransfer.PollCompletes` | satrs/src/cfdp/dest.rs:536-545 | Once all segments are there the next expiry completes the transfer. |
| `CfdpTransfer.TransferWithEarlyEof` | satrs/src/cfdp/dest.rs:446-560 | A transfer whose EOF overtakes segments completes with exactly one fault reported, even if bytes arrive twice after the EOF. |
| `CfdpLimits.CheckCountAdvances` | satrs/src/cfdp/dest.rs:546-558 | While the check limit step lasts, each expired poll adds one to the count, nothing else does, and it stays below the limit. |
| `CfdpLimits.CheckLimitEnds` | satrs/src/cfdp/dest.rs:523-560 | With the fault mapped to cancellation or abandonment the step is left within max(1, limit) polls with an expired timer, whatever arrives in between. |
| `CfdpLimits.CallPanicsIff` | satrs/src/cfdp/dest.rs:253-266 | For every fault table, exactly when a call panics: nothing to do while idle, an ACK or prompt PDU, or an accepted EOF that carries an error, raises a fault the table abandons on, or finishes an acknowledged transfer. |
| `CfdpReach.RunKeepsCheckInv` | satrs/src/cfdp/dest.rs:464-475 | In every run, check limit handling is only entered for a CRC or modular checksum, in unacknowledged mode, with checksum failures ignored. |
| `CfdpReach.EveryPanicHasACause` | satrs/src/cfdp/dest.rs:253-266 | In every run from construction on, the next call panics exactly for one of those causes. |
| `CfdpReach.EntersCheckLimit` | satrs/src/cfdp/dest.rs:446-475 | A run from construction into check limit handling, for every table that ignores checksum failures and every known remote entity. |
| `CfdpReach.CheckLimitEndsIff` | satrs/src/cfdp/dest.rs:523-560 | The check limit bounds every run exactly for the tables that cancel or abandon at the limit, and for those with which no run gets into check limit handling. |
| `CfdpReach.AlwaysTogetherIff` | satrs/src/cfdp/dest.rs:536-560 | State and step agree on being idle in every run exactly unless the table ignores checksum failures, abandons on filestore rejections and cancels at the check limit, and some remote entity is known; then a run from construction separates them. |
| `CfdpReach.StaleCancellationDiscards` | satrs/src/cfdp/dest.rs:679-693 | With the default reactions, one empty file whose checksum never matches is enough for every later verified file, from a remote that discards on cancellation, to be thrown away without a fault. |
| `CfdpRuns.FinishIsFinalIff` | satrs/src/cfdp/dest.rs:665-677 | In every run, with any fault table, packet and sender, a call indicates at most one finish, and is back in the idle step after it exactly if a wanted Finished PDU could be sent. |
| `CfdpRuns.PollIndicatesAgainIff` | satrs/src/cfdp/dest.rs:665-703 | Otherwise each further poll indicates the end again, exactly unless throwing the file away fails. |
| `CfdpReach.EveryTransactionFinishesOnce` | satrs/src/cfdp/dest.rs:665-703 | In every run, with any sender and any table that does not abandon and then cancel in one check, finished indications are one for each transaction neither abandoned nor in progress plus one for each Finished PDU still owed; PDUs directly follow indications, and the values returned add up to those sent. |
| `CfdpReach.AlwaysBalancedIff` | satrs/src/cfdp/dest.rs:536-560 | Those books balance in every run exactly for these tables; for any other, a run from construction counts one transaction as abandoned and as finished. |
| `CfdpLimits.CompletionSticksIff` | satrs/src/cfdp/dest.rs:679-693 | Exactly when completing a transfer leaves the handler stuck: a cancelled file to discard is gone already, or is removed and the Finished PDU cannot be sent. |
| `CfdpLimits.StuckForever` | satrs/src/cfdp/dest.rs:679-693 | From there no sequence of calls with any packets changes anything. |
| `CfdpLimits.MetadataOnlyIff` | satrs/src/cfdp/dest.rs:347-352 | The metadata-only mark is set exactly by a metadata PDU without file names from a known remote entity. |
| `CfdpLimits.CallKeepsIdentity` | satrs/src/cfdp/dest.rs:359-371 | With the mark set, no call changes the file names or the header fields that spell the transaction id. |
| `CfdpLimits.MetadataOnlySticks` | satrs/src/cfdp/dest.rs:131-137 | The mark is never taken back: in every run from there on, every later transaction is carried out under the names and id of the last one before it. |
| `DestinationHandler.DestinationHandler.constructor` | satrs/src/cfdp/dest.rs:226-245 | A new handler is idle with default parameters. |
| `DestinationHandler.DestinationHandler.StateMachine` | satrs/src/cfdp/dest.rs:253-266 | Does what the specification of one call says, and keeps the handler ready. |
| `DestinationHandler.DestinationHandler.InsertPacket` | satrs/src/cfdp/dest.rs:281-330 | Dispatches each packet to its procedure. |
| `DestinationHandler.DestinationHandler.HandleMetadataPdu` | satrs/src/cfdp/dest.rs:332-387 | Takes on a transaction, or reports why not, with the partial updates of the error paths. |
| `DestinationHandler.DestinationHandler.HandleFileData` | satrs/src/cfdp/dest.rs:389-419 | Writes a segment, or declares a filestore rejection. |
| `DestinationHandler.DestinationHandler.HandleEofPdu` | satrs/src/cfdp/dest.rs:421-443 | Handles an EOF and moves to completion where it finishes the transfer. |
| `DestinationHandler.DestinationHandler.HandleNoErrorEofPdu` | satrs/src/cfdp/dest.rs:446-477 | Size check, checksum check and start of check limit handling. |
| `DestinationHandler.DestinationHandler.ChecksumVerify` | satrs/src/cfdp/dest.rs:488-521 | Verifies the stored file, with the faults of each failing case. |
| `DestinationHandler.DestinationHandler.CheckLimitHandling` | satrs/src/cfdp/dest.rs:536-560 | One check when the timer has expired. |
| `DestinationHandler.DestinationHandler.FsmBusy` | satrs/src/cfdp/dest.rs:566-584 | One pass over the busy steps; returns the number of PDUs sent. |
| `DestinationHandler.DestinationHandler.TransactionStartStep` | satrs/src/cfdp/dest.rs:597-663 | Resolves the destination and empties or creates the file. |
| `DestinationHandler.DestinationHandler.EmptyDestination` | satrs/src/cfdp/dest.rs:655-659 | Truncates an existing file, creates a missing one. |
| `DestinationHandler.DestinationHandler.TransferCompletionStep` | satrs/src/cfdp/dest.rs:665-677 | Notice of completion, then the Finished PDU or a reset. |
| `DestinationHandler.DestinationHandler.NoticeOfCompletion` | satrs/src/cfdp/dest.rs:679-703 | Discards a cancelled incomplete file where configured, and indicates the end. |
| `DestinationHandler.DestinationHandler.DeclareFault` | satrs/src/cfdp/dest.rs:705-737 | Carries out and reports what the fault table selects, as FaultEffect and EveryReportIsTrue have it. |
| `PusSpec.BigEndianRoundTrip` | satrs-example/src/pus/action.rs:180-181 | Reading back a value written as big-endian bytes gives it back. |
| `PusSpec.ConversionRoundTrip` | satrs-example/src/pus/action.rs:157-196 | A telecommand built for a target, action and payload converts back to exactly those. |
| `PusRouting.TelecommandReachesTarget` | satrs-example/src/pus/mod.rs:371-389 | A telecommand for a known target puts exactly one request, with its action and payload, into that target's queue, reports the start, and remembers target, action and time; nothing else changes. |
| `PusRouting.StepQueues` | satrs-example/src/pus/mod.rs:371-375 | The only step that queues a request is one that takes the telecommand for it. |
| `PusRouting.EveryRequestWasCommanded` | satrs-example/src/pus/mod.rs:371-375 | In every interleaving, every queued request was asked for by a telecommand that names this target, action and payload. |
| `PusRouting.EveryEntryWasCommanded` | satrs-example/src/pus/mod.rs:376-389 | In every interleaving, an entry of the map has target and action of a telecommand with its id, and the time it was taken. |
| `PusRouting.RequestsAreThoseRouted` | satrs-example/src/pus/mod.rs:371-375 | In every interleaving, the requests queued are those marked as routed, in that order. |
| `PusRouting.RejectedIff` | satrs-example/src/pus/mod.rs:408-453 | A readable telecommand is rejected exactly for one of four reasons, with the reports, codes and failure data for it; then nothing is queued or remembered. |
| `PusRuns.TakeTcKeeps` | satrs-example/src/pus/mod.rs:340-403 | Taking a telecommand with an id not in flight keeps map, program counter and trace in agreement. |
| `PusRuns.HandleReplyKeeps` | satrs-example/src/pus/mod.rs:473-496 | So does handling a reply. |
| `PusRuns.TimeoutsKeep` | satrs-example/src/pus/mod.rs:498-511 | So does dropping timed-out requests. |
| `PusRuns.StepKeeps` | satrs-example/src/pus/mod.rs:340-511 | So does every step of the service and of any target thread. |
| `PusRuns.RunKeeps` | satrs-example/src/pus/mod.rs:340-511 | It holds in every state of every interleaving with distinct ids in flight. |
| `PusRuns.ReportsComeInOrder` | satrs-example/src/pus/mod.rs:371-389 | In every interleaving a request's reports come as start, step successes, at most one end, and nothing after it leaves the map; a reply is unrequested only while the request is not in flight. |
| `PusRuns.ActiveEntriesAreStarted` | satrs-example/src/pus/mod.rs:376-389 | Every active entry holds a started token, exactly one start report and no final report. |
| `PusRuns.RequestsBalanceIff` | satrs-example/src/pus/mod.rs:371-389 | In every interleaving and for each id, each start report is matched by exactly one end or by the entry in the map, throughout, exactly if no telecommand with that id is routed while the id is in flight. |
| `PusRuns.BalanceNeedsDistinctIds` | satrs-example/src/pus/mod.rs:371-389 | Handling a telecommand keeps that balance exactly if its id is not in flight; otherwise one more request is started with no entry of its own. |
| `PusRuns.DuplicateLosesAReport` | satrs-example/src/pus/mod.rs:473-496 | Of the answers to two requests with one id only the first is reported; the second is taken for unrequested. |
| `PusRuns.LeavesMapIff` | satrs-example/src/pus/mod.rs:473-511 | A request leaves the map in a step exactly if the step makes its final report, is a timeout check more than thirty seconds after it was taken, or fails to send a report; the last two are silent. |
| `PusRuns.ArrivalsCommute` | satrs-example/src/pus/mod.rs:371-389 | What targets and packet sources do between routing and map insertion does not disturb either step. |
| `PusRuns.RepliesAreAccountedFor` | satrs-example/src/pus/action.rs:58-132 | Each reply leads to exactly one event: the report that answers its variant, step and code, or the mark of an unrequested reply or failed report. |
| `PusService.PusTargetedRequestService.constructor` | satrs-example/src/pus/mod.rs:316-338 | A new service has no active requests. |
| `PusService.PusTargetedRequestService.PollAndHandleNextTc` | satrs-example/src/pus/mod.rs:340-406 | Polling, converting, routing to the converted target, reporting the start and remembering the request; the result tells which reports were made; keeps map and trace in agreement. |
| `PusService.PusTargetedRequestService.HandleConversionError` | satrs-example/src/pus/mod.rs:408-453 | The completion failure for a failed conversion, with the subservice, or the lengths found and expected. |
| `PusService.ResultIsTold` | satrs-example/src/pus/mod.rs:340-406 | What the caller is told agrees with what was reported. |
| `PusService.PusTargetedRequestService.ConvertTc` | satrs-example/src/pus/action.rs:157-207 | The parsed request, or the conversion error with its start failure report. |
| `PusService.PusTargetedRequestService.PollAndHandleNextReply` | satrs-example/src/pus/mod.rs:455-496 | Reports one reply and removes the request where it ends or the report fails. |
| `PusService.PusTargetedRequestService.ReportReply` | satrs-example/src/pus/action.rs:58-132 | The report for each reply variant, with its failure parameters, and whether it ends the request. |
| `PusService.PusTargetedRequestService.PropagateParams` | satrs/src/pus/verification.rs:1195-1251 | The failure data is that of the parameters, through the small buffer where they need no heap; parameters in a store are not propagated. |
| `PusService.PusTargetedRequestService.CheckForRequestTimeouts` | satrs-example/src/pus/mod.rs:498-511 | Removes exactly the timed-out requests, without a report. |
| `PusService.PusTargetedRequestService.CollectExpired` | satrs-example/src/pus/mod.rs:499-505 | Collects exactly the requests taken more than thirty seconds ago. |
| `PusService.PusTargetedRequestService.RemoveAll` | satrs-example/src/pus/mod.rs:506-510 | Removes exactly the collected requests. |
| `PowerRuns.StepKeepsPower` | satrs-example/src/acs/mgm.rs:333-362 | No step makes anything claim the MGM switch on unless the hardware once was. |
| `PowerRuns.StepKeepsOnce` | satrs-example/src/acs/mgm.rs:384-437 | No step breaks the order of command, switch request and completion for any mode command. |
| `PowerRuns.RunKeeps` | satrs-example/src/acs/mgm.rs:333-437 | Both hold in every state of every interleaving of the two handlers and the hardware. |
| `PowerRuns.ReachedOnlyWithPower` | satrs-example/src/acs/mgm.rs:347-360 | On or Normal is reported reached only after the hardware's MGM switch has been on. |
| `PowerRuns.AtMostOncePerCommand` | satrs-example/src/acs/mgm.rs:337-360 | Each mode command leads to at most one switch-on command and one completion. |
| `PowerRuns.CheckPanicsIff` | satrs-example/src/acs/mgm.rs:347-352 | In every interleaving the MGM handler's check panics exactly when no snapshot was published since the start or since the PCDU was last switched off. |
| `PowerProgress.CompletesIffOnIsComing` | satrs-example/src/acs/mgm.rs:333-362 | Exactly when a waiting command can be completed by the handlers and the hardware on their own: a valid published set or a snapshot under way shows On, or the PCDU is operational and its hardware or queue has it. |
| `PowerProgress.AskingCompletesIff` | satrs-example/src/acs/mgm.rs:337-346 | What asking is worth: with room in the queue and an operational PCDU the command can always be completed, a lost request leaves it to what was coming anyway. |
| `PowerRuns.LostRequestNeverCompletes` | satrs-example/src/acs/mgm.rs:337-346 | A run that waits for good: if all requests are lost and nobody else asks, On and Normal are never reached. |
| `PowerRuns.PcduOffPanicsMgm` | satrs-example/src/eps/pcdu.rs:411-427 | Switching the PCDU off while the MGM waits for its switch makes the next check panic. |
| `PowerRuns.DataIsValidBeforePower` | satrs-example/src/acs/mgm.rs:196-208 | One such operation: a command for Normal is shown, and sensor data marked valid, with the switch still off. |
| `PowerReplies.DataIsValidIff` | satrs-example/src/acs/mgm.rs:196-208 | Exactly when sensor data is marked valid after a periodic operation, for every state and queue: the mode shown is Normal, or it was valid before and no command switched the device off. |
| `PowerReplies.ShownWithoutPowerIff` | satrs-example/src/acs/mgm.rs:196-208 | Exactly when an operation shows Normal while it waits for power. |
| `PowerReplies.UnpoweredDataIsValidIff` | satrs-example/src/acs/mgm.rs:196-208 | In every interleaving in which the hardware was never on, sensor data is marked valid after an operation exactly if the last mode command was for Normal, or it was valid before and the device not switched off since. |
| `PowerReplies.DataStaysValidWithoutPower` | satrs-example/src/acs/mgm.rs:384-407 | Both halves at work: Normal, then On, with both switch requests lost, leaves data marked valid without power. |
| `PowerReplies.RunKeepsReplies` | satrs-example/src/acs/mgm.rs:417-455 | In every interleaving the replies sent are those of the modes read and reached, in that order. |
| `PowerReplies.RepliedOnlyWithPower` | satrs-example/src/acs/mgm.rs:347-360 | In every interleaving each reply answers a read of its requestor or completes its command, and one that completes On or Normal comes after the hardware's MGM switch was on. |
| `PowerReplies.RepliesAreAccountedFor` | satrs-example/src/acs/mgm.rs:417-455 | In every interleaving the replies to a requestor are exactly its answered reads plus its completions, and each command is completed at most once. |
| `PowerReplies.SwitchRequestsAreConserved` | satrs-example/src/eps/pcdu.rs:350-375 | In every interleaving each time the hardware switches the MGM on is for one request; no request is made up, lost or doubled. |
| `PowerRuns.OperationIsARun` | satrs-example/src/acs/mgm.rs:196-208 | A periodic operation is a run of the steps that the interleavings are made of. |
| `PowerRuns.PublishAllIsLast` | satrs-example/src/eps/pcdu.rs:377-396 | What stays published is the newest snapshot, valid and with each switch as it is there. |
| `PowerRuns.SwitchAllIsLast` | satrs-example/src/eps/pcdu.rs:350-375 | After the requests are handled each switch is as its last request says. |
| `PowerRuns.CycleShowsOn` | satrs-example/src/eps/pcdu.rs:224-242 | A PCDU cycle with an On request last in the queue publishes the switch as on. |
| `PowerRuns.PowerOnCompletes` | satrs-example/src/acs/mgm.rs:333-437 | A command for On or Normal is completed by the second MGM operation, with one PCDU cycle in between, and the PUS mode service gets its reply; by the first one exactly if the switch is shown on already. |
| `PowerHandlers.SerialInterfaceDummy.constructor` | satrs-minisim/src/lib.rs:193-201 | All switches start off. |
| `PowerHandlers.MgmHandler.constructor` | satrs-example/src/acs/mgm.rs:152-161 | A new handler is off with no transition. |
| `PowerHandlers.MgmHandler.PeriodicOperation` | satrs-example/src/acs/mgm.rs:196-208 | Requests, transition and sensor poll in order; panics exactly where the specification does. |
| `PowerHandlers.MgmHandler.HandleModeRequests` | satrs-example/src/acs/mgm.rs:274-298 | Handles all queued requests in order. |
| `PowerHandlers.MgmHandler.StartTransitionTo` | satrs-example/src/acs/mgm.rs:384-407 | Shows the new mode at once; off completes, on and normal begin a transition. |
| `PowerHandlers.MgmHandler.HandleModeReached` | satrs-example/src/acs/mgm.rs:417-437 | Ends the transition and replies to the PUS mode service only. |
| `PowerHandlers.MgmHandler.HandleModeTransition` | satrs-example/src/acs/mgm.rs:333-362 | One pass: ask for the switch, check it, complete. |
| `PowerHandlers.PcduHandler.constructor` | satrs-example/src/eps/pcdu.rs:201-221 | A new handler is off. |
| `PowerHandlers.PcduHandler.RegularOperation` | satrs-example/src/eps/pcdu.rs:226-237 | Answers its own mode requests, passes on switch requests, then polls if operational. |
| `PowerHandlers.PcduHandler.HandleModeRequests` | satrs-example/src/eps/pcdu.rs:324-348 | One reply per read and per command of the PUS mode service, in queue order: a read gets the mode of the last command before it. The mode left is that of the last command, and the switch set stays valid unless one was for Off. |
| `PowerModes.RepliesAnswerQueue` | satrs-example/src/eps/pcdu.rs:398-445 | The replies to any queue of requests are these, for any mode to begin with. |
| `PowerModes.DrainLeaves` | satrs-example/src/eps/pcdu.rs:407-427 | Mode and switch set after any queue are these, and nothing else changes. |
| `PowerHandlers.PcduHandler.HandleSwitchRequests` | satrs-example/src/eps/pcdu.rs:350-375 | Hands all queued requests to the hardware in order. |
| `PowerHandlers.PcduHandler.PollAndHandleReplies` | satrs-example/src/eps/pcdu.rs:377-396 | Publishes all snapshots in order. |
| `PowerHandlers.PcduHandler.StartTransitionTo` | satrs-example/src/eps/pcdu.rs:411-456 | Takes effect at once; off invalidates the published set. |
| `Scheduler.Retain` | satrs/src/executable.rs:130-134 | Keeps exactly the unflagged entries, in order. |
| `Scheduler.LockstepCompaction` | satrs/src/executable.rs:130-134 | Compacting two vectors with the same flags keeps entries that belong together together. |
| `Scheduler.RunAll` | satrs/src/executable.rs:112-129 | Every task runs once in order, counts advance by one and exactly the tasks that are through get flagged; a failing task breaks the round off. |
| `Scheduler.Round` | satrs/src/executable.rs:104-134 | After a round exactly the tasks with rounds left remain, with their own counts; after a signal none do. |
| `Scheduler.ExecSchedMulti` | satrs/src/executable.rs:98-141 | Every observed run of the loop consists of full rounds over the tasks still scheduled and ends as the source says. |
| `Scheduler.AdvanceWrapped` | satrs/src/executable.rs:121-127 | A 32-bit cycle count reaches its target exactly at the end of the last round; zero takes 2^32 rounds. |
| `Scheduler.TasksRunExactly` | satrs/src/executable.rs:98-141 | In every run without a failure, for any mix of tasks and any ending, each task ran exactly in the consecutive rounds it was due, once per round. |
| `Scheduler.FiniteTasksRunExactly` | satrs/src/executable.rs:98-141 | Without an infinite task, a signal or a failure the loop ends after the largest count, one-shot tasks having run once and tasks with n cycles n times. |
| `Scheduler.InfiniteTaskKeepsRunning` | satrs/src/executable.rs:98-141 | With an infinite task it does not end by itself. |
| `Scheduler.SignalGivesOneLastRun` | satrs/src/executable.rs:104-137 | A termination signal ends the loop in its round, after one last run of exactly the tasks still scheduled. |
| `Scheduler.PanicsWithoutFrequencyIff` | satrs/src/executable.rs:130-137 | Without a frequency there is one round, and then a panic exactly if no signal came and some task is to run again. |
| `Scheduler.ExecSchedSingle` | satrs/src/executable.rs:48-79 | The single task runs as often as its type says; a signal stops it before another run. |
| `EventRouting.RawIsInjective` | satrs/src/events.rs:144-149 | A raw value names one event only. |
| `EventRouting.RoutingConserves` | satrs/src/event_man.rs:291-314 | Deliveries and error callbacks add up to the number of listed ids. |
| `EventRouting.CopiesPerId` | satrs/src/event_man.rs:291-314 | For each id, copies, failed sends and missing senders add up to its occurrences. |
| `EventRouting.MissingSenders` | satrs/src/event_man.rs:306-308 | A missing sender is reported at every occurrence of an id without one, and at no other. |
| `EventRouting.OutcomePerPlace` | satrs/src/event_man.rs:293-310 | The i-th listed id is served exactly if it has a sender that then accepts; a failed send is reported exactly if it has one that does not, a missing sender otherwise. |
| `EventRouting.CopiesAreAccepted` | satrs/src/event_man.rs:293-310 | An id gets one copy for each of its places at which its sender accepts, and one report of a failed send for each at which it refuses. |
| `EventRouting.CopiesFollowSubscriptions` | satrs/src/event_man.rs:286-327 | For any history of subscriptions and deduplications and any event, a component with an accepting sender gets exactly the copies it is entitled to under the event's own, its group's and the general key; one whose sender refuses gets none and as many failed sends are reported; one without a sender gets none and is reported as often. |
| `EventRouting.FollowedListing` | satrs/src/event_man.rs:409-424 | How one subscription or deduplication changes how often an id is listed under a key. |
| `EventRouting.ListedFollowsHistory` | satrs/src/event_man.rs:409-424 | After any history of subscriptions and deduplications each id is listed under each key as often as the history entitles it to. |
| `EventRouting.EventManager.constructor` | satrs/src/event_man.rs:374-381 | No listeners and no senders. |
| `EventRouting.EventManager.AddListener` | satrs/src/event_man.rs:409-417 | Appends the id to its key's list and touches no other. |
| `EventRouting.EventManager.AddSender` | satrs/src/event_man.rs:254-261 | Registers a sender unless its target has one. |
| `EventRouting.EventManager.RemoveDuplicates` | satrs/src/event_man.rs:419-424 | Leaves the same ids under the key, each once; other keys are untouched. |
| `EventRouting.EventManager.SendToKey` | satrs/src/event_man.rs:291-314 | Routes to one key's list, counts what was taken and reports what was refused, as OutcomePerPlace has it. |
| `EventRouting.EventManager.TryEventHandling` | satrs/src/event_man.rs:286-327 | Routes to the event's own, its group's and the general list in that order; recipients and errors add up to their lengths. |
| `Sorting.SortBy` | satrs/src/event_man.rs:421 | An ordered permutation of its input. |
| `EventRouting.Dedup` | satrs/src/event_man.rs:422 | From a sorted list, the same elements strictly ascending. |
| `Counters.IterateIsModular` | satrs/src/seq_count.rs:75-84 | Counting with a wrap at max is counting modulo max + 1. |
| `Counters.StepKeepsShared` | satrs/src/seq_count.rs:159-172 | Every step of every thread keeps the lock exclusive and the count in agreement with the values handed out. |
| `Counters.CallIsFourSteps` | satrs/src/seq_count.rs:159-172 | A call that no other thread interrupts is its lock, load, store and unlock steps. |
| `Counters.ThreadsCountInOrder` | satrs/src/seq_count.rs:159-172 | In every interleaving of the steps of any threads at most one is in the critical section, and the i-th value handed out is the start value plus i modulo max + 1. |
| `Counters.WindowIsDistinct` | satrs/src/seq_count.rs:159-172 | Any max + 1 consecutive values handed out in any interleaving are pairwise different, and the next one repeats the first. |
| `Counters.SeqCountProviderSimple.constructor` | satrs/src/seq_count.rs:46-57 | Starts at zero with the given maximum. |
| `Counters.SeqCountProviderSimple.GetAndIncrement` | satrs/src/seq_count.rs:75-84 | Returns the count and advances it, wrapping at the maximum. |
| `Counters.SeqCountProviderSimple.Increment` | satrs/src/seq_count.rs:71-73 | Advances the count. |
| `Counters.SeqCountProviderSync.constructor` | satrs/src/seq_count.rs:136-145 | Starts at zero with the given maximum. |
| `Counters.SeqCountProviderSync.GetAndIncrement` | satrs/src/seq_count.rs:159-172 | One critical section; with a poisoned lock it yields zero and counts nothing. |
| `Counters.TmFunnelCommon.constructor` | satrs-example/src/tmtc/tm_sink.rs:40-46 | No counters yet. |
| `Counters.TmFunnelCommon.ApplyPacketProcessing` | satrs-example/src/tmtc/tm_sink.rs:50-70 | Numbers a packet with the next counts of its APID and service and of no other. |
| `Counters.TmFunnelCommon.Funnel` | satrs-example/src/tmtc/tm_sink.rs:104-127 | In any stream the k-th packet of an APID gets sequence count k modulo 2^14, the k-th of a service message count k modulo 2^16. |
| `Counters.CountIsOwnLength` | satrs-example/src/tmtc/tm_sink.rs:25-30 | The count of an APID depends on its own packets only. |
| `Counters.SubstreamIsNumbered` | satrs-example/src/tmtc/tm_sink.rs:25-30 | A receiver of one APID sees 0, 1, 2, ... modulo 2^14 with no gap. |
| `Counters.ServiceIsNumbered` | satrs-example/src/tmtc/tm_sink.rs:52-62 | A receiver of one service sees message counts 0, 1, 2, ... modulo 2^16 with no gap. |

## Left out

- StaticPool.StaticMemoryPool.constructor: at most 65535 usable subpools, because beyond that the source's 16-bit subpool index overflows.
- HeaplessPool.StaticHeaplessMemoryPool.constructor: at most 65535 subpools, for the same reason.
- HeaplessPool.StaticHeaplessMemoryPool.Add: not for a request whose chosen block is too small, where the source panics or runs over into the next block; `ReservedBlockFitsIff` says which layouts allow that.
- HeaplessPool.StaticHeaplessMemoryPool.FreeElement: the same.
- HeaplessPool.StaticHeaplessMemoryPool.Grow: needs a free sizes list, as its documentation asks for, and does not capture that the buffers stay the memory of the caller; buffers are values held by the pool, as they are in the heap pool.
- DestinationHandler.DestinationHandler.constructor: assumes a filestore whose reads at word boundaries are full, as buffered file reads are; `PositionalIffFullReads` shows that it takes that.
- DestinationHandler.DestinationHandler.StateMachine: code that is not written yet in the source (idle without a packet, ACK and prompt PDUs, EOF with an error, acknowledged completion) ends the run.
- CfdpReach.EveryTransactionFinishesOnce: for tables that do not abandon and then cancel within one check; `AlwaysBalancedIff` shows that no other table keeps the books.
- CfdpTransfer.TransferInAnyOrder: for handlers that have not accepted a metadata-only PDU; `MetadataOnlySticks` shows what happens to those that have.
- CfdpTransfer.TransferWithEarlyEof: for tables that ignore a checksum failure; others cancel or abandon at the EOF.
- Scheduler.ExecSchedMulti: execution types do not change between rounds, cycle counts wrap at 2^32 as in release builds (debug builds panic there), and the loop is watched for a finite number of rounds.
- Counters.SeqCountProviderSync.GetAndIncrement: a poisoned lock stays poisoned by assumption of the caller; how it gets poisoned is not modelled.
- PoolRuns.StoredDataIsReadBack: for layouts of at most 256 subpools and 256 blocks each; `AddressesResolveIff` shows why.
- PoolRuns.WrittenElementIsReadBack: the same.
- PoolRuns.StoredDataIsFoundUntilDeleted: the same.
- CfdpPackets.MetadataAnswered: for handlers that have not accepted a metadata-only PDU, as above.
- The contents of event messages: who gets one is modelled, not what is in it.
- PDU, telecommand and telemetry packet parsing beyond the user data of action commands: packets are values.
- Integer widths of file sizes, offsets, progress and clocks, and the acceptance report that precedes telecommand handling.
- CFDP messages to the user, keep-alive and NAK procedures, suspension, the sending side.
- CRC-32 arithmetic: any fold over bytes.
- Aliasing between pool buffers and their users: block contents are handed to closures as values.
- Real paths, permissions and directories: a disk is a map of files and a set of directories; joining a directory and a file name is a parameter.
- Housekeeping and mode services and their converters, the event, test and scheduling services: fewer cases of the same protocol.
- The simulated serial interface, JSON encoding, sensor scaling, housekeeping reports of both handlers.
- UDP and TCP servers, logging, parameters, mode trees, embedded examples and procedural macros.
