/**
 The `PoolProvider` operations on the abstract pool, and what holds of every run of them.
 */
module PoolRuns {
  import opened Wrappers
  import opened PoolSpec

  /** The abstract pool: a fixed layout and the byte string held by each slot in use. */
  datatype Pool = Pool(cfg: seq<SubpoolConfig>, spill: bool, live: map<StaticPoolAddr, seq<Byte>>)

  /** A user closure over a block. It gets a slice, so it can change bytes but not their number. */
  type Update = seq<Byte> -> seq<Byte>

  ghost predicate KeepsLength(f: Update) {
    forall s :: |f(s)| == |s|
  }

  datatype Op =
    | Add(data: seq<Byte>)
    | FreeElement(len: nat, writer: Update)
    | Modify(addr: PoolAddr, updater: Update)
    | Read(addr: PoolAddr, bufLen: nat)
    | Delete(addr: PoolAddr)
    | HasElementAt(addr: PoolAddr)
    | LenOfData(addr: PoolAddr)
    | DropGuard(addr: PoolAddr, released: bool)

  datatype Response =
    | Stored(addr: Result<PoolAddr>)
    | Done(unit: Result<()>)
    | Bytes(data: Result<seq<Byte>>)
    | Flag(flag: Result<bool>)
    | Length(length: Result<nat>)

  ghost predicate ValidOp(op: Op) {
    && (op.FreeElement? ==> KeepsLength(op.writer))
    && (op.Modify? ==> KeepsLength(op.updater))
  }

  ghost predicate ValidPool(p: Pool) {
    && ValidLayout(p.cfg)
    && (p.spill ==> Ascending(p.cfg))
    && forall s | s in p.live :: Fits(p.cfg, s, |p.live[s]|)
  }

  function Zeros(n: nat): (r: seq<Byte>)
    ensures |r| == n && forall i | 0 <= i < n :: r[i] == 0
  {
    seq(n, _ => 0)
  }

  // --------------------------------------------------------------- operations

  function ValidateAddr(cfg: seq<SubpoolConfig>, s: StaticPoolAddr): (r: Option<PoolError>)
    ensures r.None? <==> IsSlot(cfg, s)
  {
    if s.poolIdx >= |cfg| then Some(InvalidStoreId(InvalidSubpool(s.poolIdx), Some(Encode(s))))
    else if s.packetIdx >= cfg[s.poolIdx].numBlocks
      then Some(InvalidStoreId(InvalidPacketIdx(s.packetIdx), Some(Encode(s))))
    else None
  }

  function Lookup(p: Pool, s: StaticPoolAddr): (r: Result<seq<Byte>>)
    ensures r.Ok? ==> s in p.live && r.value == p.live[s]
    ensures r.Err? && IsSlot(p.cfg, s) ==> s !in p.live
  {
    var e := ValidateAddr(p.cfg, s);
    if e.Some? then Err(e.value)
    else if s in p.live then Ok(p.live[s])
    else Err(DataDoesNotExist(Encode(s)))
  }

  function Reserve(p: Pool, len: nat): Result<StaticPoolAddr>
    requires ValidLayout(p.cfg)
  {
    if len > MAX_BLOCK_SIZE then Err(DataTooLarge(len)) else Choose(p.cfg, p.spill, p.live.Keys, len)
  }

  /** Reserve a slot for `bytes` and put them there. */
  function Store(p: Pool, bytes: seq<Byte>): (Pool, Result<PoolAddr>)
    requires ValidLayout(p.cfg)
  {
    match Reserve(p, |bytes|)
    case Err(e) => (p, Err(e))
    case Ok(s) => (p.(live := p.live[s := bytes]), Ok(Encode(s)))
  }

  function Remove(p: Pool, addr: PoolAddr): (Pool, Result<()>) {
    match Lookup(p, Decode(addr))
    case Err(e) => (p, Err(e))
    case Ok(_) => (p.(live := p.live - {Decode(addr)}), Ok(()))
  }

  function Change(p: Pool, addr: PoolAddr, updater: Update): (Pool, Result<()>) {
    match Lookup(p, Decode(addr))
    case Err(e) => (p, Err(e))
    case Ok(bytes) => (p.(live := p.live[Decode(addr) := updater(bytes)]), Ok(()))
  }

  function Fetch(p: Pool, addr: PoolAddr, bufLen: nat): Result<seq<Byte>> {
    match Lookup(p, Decode(addr))
    case Err(e) => Err(e)
    case Ok(bytes) => if bufLen < |bytes| then Err(ToSliceTooSmall(bufLen, |bytes|)) else Ok(bytes)
  }

  function Apply(p: Pool, op: Op): (r: (Pool, Response))
    requires ValidLayout(p.cfg)
    ensures r.0.cfg == p.cfg && r.0.spill == p.spill
  {
    match op
    case Add(data) =>
      var (q, r) := Store(p, data);
      (q, Stored(r))
    case FreeElement(len, writer) =>
      var (q, r) := Store(p, writer(Zeros(len)));
      (q, Stored(r))
    case Modify(addr, updater) =>
      var (q, r) := Change(p, addr, updater);
      (q, Done(r))
    case Read(addr, bufLen) =>
      (p, Bytes(Fetch(p, addr, bufLen)))
    case Delete(addr) =>
      var (q, r) := Remove(p, addr);
      (q, Done(r))
    case HasElementAt(addr) =>
      var e := ValidateAddr(p.cfg, Decode(addr));
      (p, Flag(if e.Some? then Err(e.value) else Ok(Decode(addr) in p.live)))
    case LenOfData(addr) =>
      var e := ValidateAddr(p.cfg, Decode(addr));
      (p, Length(if e.Some? then Err(e.value)
                 else Ok(if Decode(addr) in p.live then |p.live[Decode(addr)]| else 0)))
    case DropGuard(addr, released) =>
      if released then (p, Done(Ok(())))
      else
        var (q, r) := Remove(p, addr);
        (q, Done(r))
  }

  function Run(p: Pool, ops: seq<Op>): (r: (Pool, seq<Response>))
    requires ValidLayout(p.cfg)
    ensures r.0.cfg == p.cfg && r.0.spill == p.spill && |r.1| == |ops|
    decreases |ops|
  {
    if ops == [] then (p, [])
    else
      var (q, resp) := Apply(p, ops[0]);
      var (end, rest) := Run(q, ops[1..]);
      (end, [resp] + rest)
  }

  // ------------------------------------------------------------ single steps

  /** A reservation never returns a slot that is in use, and its block is large enough. */
  lemma ReserveIsFresh(p: Pool, len: nat)
    requires ValidPool(p)
    ensures var r := Reserve(p, len); r.Ok? ==> r.value !in p.live && Fits(p.cfg, r.value, len)
  {
    if len <= MAX_BLOCK_SIZE {
      if p.spill {
        ReserveIsFirstFittingFreeSlot(p.cfg, p.live.Keys, len);
      } else {
        ReserveWithoutSpillStaysInBestFit(p.cfg, p.live.Keys, len);
      }
    }
  }

  /** The block that a request would get is large enough for it. */
  ghost predicate Roomy(p: Pool, len: nat)
    requires ValidLayout(p.cfg)
  {
    Reserve(p, len).Ok? ==> Fits(p.cfg, Reserve(p, len).value, len)
  }

  /** Even where block sizes do not ascend, what is chosen is a free slot; only its size may be wrong. */
  lemma ChosenIsFree(p: Pool, len: nat)
    requires ValidLayout(p.cfg)
    ensures var r := Choose(p.cfg, p.spill, p.live.Keys, len); r.Ok? ==> IsSlot(p.cfg, r.value) && r.value !in p.live
  {
    var fit := FirstFit(p.cfg, len, 0);
    if p.spill && fit.Some? {
      SpillFromLowest(p.cfg, p.live.Keys, fit.value);
    }
  }

  /**
   `add` fails exactly for one of two reasons, and then changes nothing: no block is large enough,
   or all that come into question are taken, which are those of the best fitting subpool and, with
   spilling, of all above it. Otherwise the data is in a slot that was free, and its address given.
   */
  lemma AddAnswers(p: Pool, data: seq<Byte>)
    requires ValidPool(p)
    ensures var (q, resp) := Apply(p, Add(data));
      && resp.Stored?
      && (resp.addr.Ok? ==> exists s ::
            && s !in p.live && Fits(p.cfg, s, |data|)
            && resp.addr.value == Encode(s) && q == p.(live := p.live[s := data]))
      && (resp.addr.Err? ==> q == p)
      && (resp.addr == Err(DataTooLarge(|data|)) <==> forall i | 0 <= i < |p.cfg| :: p.cfg[i].blockSize < |data|)
      && (resp.addr.Err? && resp.addr.error != DataTooLarge(|data|) ==>
            && resp.addr.error.StoreFull? && resp.addr.error.subpool < |p.cfg|
            && var last := resp.addr.error.subpool;
               && |data| <= p.cfg[last].blockSize
               && (if p.spill then last == |p.cfg| - 1 && forall t | Fits(p.cfg, t, |data|) :: t in p.live
                   else forall t | IsSlot(p.cfg, t) && t.poolIdx == last :: t in p.live))
  {
    ReserveIsFresh(p, |data|);
    if |data| <= MAX_BLOCK_SIZE {
      if p.spill {
        ReserveIsFirstFittingFreeSlot(p.cfg, p.live.Keys, |data|);
      } else {
        ReserveWithoutSpillStaysInBestFit(p.cfg, p.live.Keys, |data|);
      }
    }
  }

  lemma ApplyKeepsValid(p: Pool, op: Op)
    requires ValidPool(p) && ValidOp(op)
    ensures ValidPool(Apply(p, op).0)
  {
    match op
    case Add(data) => ReserveIsFresh(p, |data|);
    case FreeElement(len, writer) => ReserveIsFresh(p, |writer(Zeros(len))|);
    case _ =>
  }

  /** Whether an operation is aimed at slot `s` with the power to change it. */
  predicate Targets(op: Op, s: StaticPoolAddr) {
    match op
    case Modify(addr, _) => Decode(addr) == s
    case Delete(addr) => Decode(addr) == s
    case DropGuard(addr, released) => !released && Decode(addr) == s
    case _ => false
  }

  lemma ApplyFrame(p: Pool, op: Op, s: StaticPoolAddr)
    requires ValidPool(p) && ValidOp(op) && s in p.live && !Targets(op, s)
    ensures var q := Apply(p, op).0; s in q.live && q.live[s] == p.live[s]
  {
    match op
    case Add(data) => ReserveIsFresh(p, |data|);
    case FreeElement(len, writer) => ReserveIsFresh(p, |writer(Zeros(len))|);
    case _ =>
  }

  // -------------------------------------------------------------- every run

  /** No run disturbs a stored byte string unless one of its operations is aimed at that slot. */
  lemma {:induction false} RunFrame(p: Pool, ops: seq<Op>, s: StaticPoolAddr)
    requires ValidPool(p) && s in p.live
    requires forall i | 0 <= i < |ops| :: ValidOp(ops[i]) && !Targets(ops[i], s)
    ensures var q := Run(p, ops).0; ValidPool(q) && s in q.live && q.live[s] == p.live[s]
    decreases |ops|
  {
    if ops != [] {
      ApplyKeepsValid(p, ops[0]);
      ApplyFrame(p, ops[0], s);
      RunFrame(Apply(p, ops[0]).0, ops[1..], s);
    }
  }

  /** All indices of the layout fit in the eight bits that decoding keeps. */
  ghost predicate Addressable(cfg: seq<SubpoolConfig>) {
    |cfg| <= 0x100 && forall i | 0 <= i < |cfg| :: cfg[i].numBlocks <= 0x100
  }

  /**
   What `add` stored is what `read` returns at the address `add` gave out, after any run in
   between that does not modify, delete or drop a guard at that same address.
   */
  lemma StoredDataIsReadBack(p: Pool, data: seq<Byte>, q: Pool, addr: PoolAddr, ops: seq<Op>, bufLen: nat)
    requires ValidPool(p) && Addressable(p.cfg) && bufLen >= |data|
    requires Apply(p, Add(data)) == (q, Stored(Ok(addr)))
    requires forall i | 0 <= i < |ops| :: ValidOp(ops[i]) && !Targets(ops[i], Decode(addr))
    ensures Apply(Run(q, ops).0, Read(addr, bufLen)).1 == Bytes(Ok(data))
  {
    StoredDataIsHeld(p, data, q, addr, ops);
  }

  /** It is in the slot of that address all the while. */
  lemma StoredDataIsHeld(p: Pool, data: seq<Byte>, q: Pool, addr: PoolAddr, ops: seq<Op>)
    requires ValidPool(p) && Addressable(p.cfg)
    requires Apply(p, Add(data)) == (q, Stored(Ok(addr)))
    requires forall i | 0 <= i < |ops| :: ValidOp(ops[i]) && !Targets(ops[i], Decode(addr))
    ensures var end := Run(q, ops).0; ValidPool(end) && Lookup(end, Decode(addr)) == Ok(data)
  {
    ReserveIsFresh(p, |data|);
    var s := Reserve(p, |data|).value;
    DecodeEncode(s);
    assert Decode(addr) == s && s in q.live && q.live[s] == data;
    ApplyKeepsValid(p, Add(data));
    RunFrame(q, ops, s);
    var end := Run(q, ops).0;
    assert Fits(end.cfg, s, |end.live[s]|);
  }

  /** What the writer given to `free_element` makes of a cleared block is read back in the same way. */
  lemma WrittenElementIsReadBack(p: Pool, len: nat, writer: Update, q: Pool, addr: PoolAddr, ops: seq<Op>, bufLen: nat)
    requires ValidPool(p) && Addressable(p.cfg) && KeepsLength(writer) && bufLen >= len
    requires Apply(p, FreeElement(len, writer)) == (q, Stored(Ok(addr)))
    requires forall i | 0 <= i < |ops| :: ValidOp(ops[i]) && !Targets(ops[i], Decode(addr))
    ensures Apply(Run(q, ops).0, Read(addr, bufLen)).1 == Bytes(Ok(writer(Zeros(len))))
  {
    assert Apply(p, Add(writer(Zeros(len)))) == (q, Stored(Ok(addr)));
    StoredDataIsReadBack(p, writer(Zeros(len)), q, addr, ops, bufLen);
  }

  /**
   Data is found, with its length, from the time it is added, whatever happens to other addresses,
   until it is deleted; from then on it is not.
   */
  lemma StoredDataIsFoundUntilDeleted(p: Pool, data: seq<Byte>, q: Pool, addr: PoolAddr, ops: seq<Op>)
    requires ValidPool(p) && Addressable(p.cfg)
    requires Apply(p, Add(data)) == (q, Stored(Ok(addr)))
    requires forall i | 0 <= i < |ops| :: ValidOp(ops[i]) && !Targets(ops[i], Decode(addr))
    ensures var end := Run(q, ops).0;
      && Apply(end, HasElementAt(addr)).1 == Flag(Ok(true))
      && Apply(end, LenOfData(addr)).1 == Length(Ok(|data|))
      && Apply(end, Delete(addr)).1 == Done(Ok(()))
      && Apply(Apply(end, Delete(addr)).0, HasElementAt(addr)).1 == Flag(Ok(false))
      && Apply(Apply(end, Delete(addr)).0, LenOfData(addr)).1 == Length(Ok(0))
  {
    hide Store, Run;
    StoredDataIsHeld(p, data, q, addr, ops);
  }

  /** The error for an address that is not a slot of the pool. */
  function NoSuchSlot(cfg: seq<SubpoolConfig>, s: StaticPoolAddr): PoolError {
    InvalidStoreId(if s.poolIdx < |cfg| then InvalidPacketIdx(s.packetIdx) else InvalidSubpool(s.poolIdx),
                   Some(Encode(s)))
  }

  /**
   In every state, `has_element_at` and `len_of_data` tell beforehand what `read` with any buffer,
   `delete` and `modify` will answer.
   */
  lemma QueriesForetell(p: Pool, addr: PoolAddr, n: nat, f: Update)
    requires ValidPool(p)
    ensures var has, len := Apply(p, HasElementAt(addr)).1.flag, Apply(p, LenOfData(addr)).1.length;
      var read, deleted, modified :=
        Apply(p, Read(addr, n)).1.data, Apply(p, Delete(addr)).1.unit, Apply(p, Modify(addr, f)).1.unit;
      && (has.Err? <==> len.Err?) && (has.Err? <==> !IsSlot(p.cfg, Decode(addr)))
      && (has.Err? ==> has.error == NoSuchSlot(p.cfg, Decode(addr)))
      && (has.Err? ==> len.error == has.error && read == Err(has.error) && deleted == modified == Err(has.error))
      && (has == Ok(false) ==> len == Ok(0) && read == Err(DataDoesNotExist(Encode(Decode(addr)))))
      && (has == Ok(false) ==> deleted == modified == Err(DataDoesNotExist(Encode(Decode(addr)))))
      && (has == Ok(true) ==> deleted == modified == Ok(()))
      && (has == Ok(true) && n < len.value ==> read == Err(ToSliceTooSmall(n, len.value)))
      && (has == Ok(true) && n >= len.value ==> read.Ok? && |read.value| == len.value)
  {
    if Decode(addr) in p.live {
      assert Fits(p.cfg, Decode(addr), |p.live[Decode(addr)]|);
    }
  }

  /** `modify` followed by `read` sees the updated bytes; `delete` followed by `read` sees none. */
  lemma ModifyAndDeleteTakeEffect(p: Pool, addr: PoolAddr, f: Update, bufLen: nat)
    requires ValidPool(p) && KeepsLength(f) && Decode(addr) in p.live
    requires bufLen >= |p.live[Decode(addr)]|
    ensures Apply(Apply(p, Modify(addr, f)).0, Read(addr, bufLen)).1 == Bytes(Ok(f(p.live[Decode(addr)])))
    ensures Apply(Apply(p, Delete(addr)).0, Read(addr, bufLen)).1 == Bytes(Err(DataDoesNotExist(Encode(Decode(addr)))))
    ensures Apply(p, Delete(addr)).0.live.Keys == p.live.Keys - {Decode(addr)}
  {
    assert Fits(p.cfg, Decode(addr), |p.live[Decode(addr)]|);
  }

  function Allocated(op: Op, r: Response): nat {
    if r.Stored? && r.addr.Ok? then 1 else 0
  }

  function Released(op: Op, r: Response): nat {
    if (op.Delete? || (op.DropGuard? && !op.released)) && r.Done? && r.unit.Ok? then 1 else 0
  }

  function Total(f: (Op, Response) -> nat, ops: seq<Op>, rs: seq<Response>): nat
    requires |ops| == |rs|
  {
    if ops == [] then 0 else f(ops[0], rs[0]) + Total(f, ops[1..], rs[1..])
  }

  /**
   Slots are conserved: what is in use at the end of a run is what was in use before, plus the
   successful reservations, minus the successful deletions and dropped unreleased guards.
   */
  lemma {:induction false} SlotsAreConserved(p: Pool, ops: seq<Op>)
    requires ValidPool(p) && forall i | 0 <= i < |ops| :: ValidOp(ops[i])
    ensures var (q, rs) := Run(p, ops);
      |q.live| + Total(Released, ops, rs) == |p.live| + Total(Allocated, ops, rs)
    decreases |ops|
  {
    if ops != [] {
      var (q, r) := Apply(p, ops[0]);
      ApplyKeepsValid(p, ops[0]);
      SlotsAreConserved(q, ops[1..]);
      StepConserves(p, ops[0]);
      var rs := Run(p, ops).1;
      assert rs[1..] == Run(q, ops[1..]).1;
    }
  }

  lemma StepConserves(p: Pool, op: Op)
    requires ValidPool(p) && ValidOp(op)
    ensures var (q, r) := Apply(p, op); |q.live| + Released(op, r) == |p.live| + Allocated(op, r)
  {
    match op
    case Add(data) => StoreConserves(p, data);
    case FreeElement(len, writer) => StoreConserves(p, writer(Zeros(len)));
    case Modify(addr, updater) =>
      assert Apply(p, op).0.live.Keys == p.live.Keys;
    case Delete(addr) => RemoveConserves(p, addr);
    case DropGuard(addr, released) => RemoveConserves(p, addr);
    case _ =>
  }

  lemma StoreConserves(p: Pool, bytes: seq<Byte>)
    requires ValidPool(p)
    ensures var (q, r) := Store(p, bytes); |q.live| == |p.live| + (if r.Ok? then 1 else 0)
  {
    ReserveIsFresh(p, |bytes|);
    var r := Reserve(p, |bytes|);
    if r.Ok? {
      assert Store(p, bytes).0.live.Keys == p.live.Keys + {r.value};
    }
  }

  lemma RemoveConserves(p: Pool, addr: PoolAddr)
    ensures var (q, r) := Remove(p, addr);
      |q.live| + (if r.Ok? then 1 else 0) == |p.live|
  {
    var (q, r) := Remove(p, addr);
    if r.Ok? {
      assert q.live.Keys == p.live.Keys - {Decode(addr)};
    }
  }

  // ------------------------------------------------- which addresses resolve

  /** Every address a reservation can hand out decodes to the slot that was reserved. */
  ghost predicate AddressesResolve(cfg: seq<SubpoolConfig>, spill: bool)
    requires ValidLayout(cfg)
  {
    forall used, len ::
      Choose(cfg, spill, used, len).Ok? ==>
        Decode(Encode(Choose(cfg, spill, used, len).value)) == Choose(cfg, spill, used, len).value
  }

  /** Some request can land in subpool `p`. */
  ghost predicate Usable(cfg: seq<SubpoolConfig>, spill: bool, p: nat)
    requires p < |cfg|
  {
    spill || forall i | 0 <= i < p :: cfg[i].blockSize < cfg[p].blockSize
  }

  /**
   Decoding keeps eight bits of each index although encoding keeps sixteen. So addresses
   resolve for every occupancy and request size exactly when no usable subpool has an index or
   a block count beyond what eight bits can tell apart.
   */
  lemma AddressesResolveIff(cfg: seq<SubpoolConfig>, spill: bool)
    requires ValidLayout(cfg)
    ensures AddressesResolve(cfg, spill) <==>
      forall p | 0 <= p < |cfg| && Usable(cfg, spill, p) :: p < 0x100 && cfg[p].numBlocks <= 0x100
  {
    if forall p | 0 <= p < |cfg| && Usable(cfg, spill, p) :: p < 0x100 && cfg[p].numBlocks <= 0x100 {
      forall used, len | Choose(cfg, spill, used, len).Ok?
        ensures Decode(Encode(Choose(cfg, spill, used, len).value)) == Choose(cfg, spill, used, len).value
      {
        ChosenIsUsable(cfg, spill, used, len);
        DecodeEncode(Choose(cfg, spill, used, len).value);
      }
    } else {
      var p :| 0 <= p < |cfg| && Usable(cfg, spill, p) && !(p < 0x100 && cfg[p].numBlocks <= 0x100);
      var s := StaticPoolAddr(p, cfg[p].numBlocks - 1);
      DecodeEncode(s);
      var used, len := ReachSlot(cfg, spill, s);
      assert Choose(cfg, spill, used, len).value == s;
    }
  }

  lemma ChosenIsUsable(cfg: seq<SubpoolConfig>, spill: bool, used: set<StaticPoolAddr>, len: nat)
    requires ValidLayout(cfg)
    ensures var r := Choose(cfg, spill, used, len);
      r.Ok? ==> IsSlot(cfg, r.value) && Usable(cfg, spill, r.value.poolIdx)
  {
    var p := FirstFit(cfg, len, 0);
    if p.Some? && spill {
      SpillFromLowest(cfg, used, p.value);
    }
  }

  /** Any slot of a usable subpool is what some request gets when all the others are taken. */
  lemma ReachSlot(cfg: seq<SubpoolConfig>, spill: bool, s: StaticPoolAddr) returns (used: set<StaticPoolAddr>, len: nat)
    requires ValidLayout(cfg) && IsSlot(cfg, s) && Usable(cfg, spill, s.poolIdx)
    ensures Choose(cfg, spill, used, len) == Ok(s)
  {
    used := (set p: U16, k: U16 | 0 <= p < |cfg| && 0 <= k < cfg[p].numBlocks :: StaticPoolAddr(p, k)) - {s};
    assert forall t | IsSlot(cfg, t) && t != s :: t in used by {
      forall t | IsSlot(cfg, t) && t != s ensures t in used {
        assert t == StaticPoolAddr(t.poolIdx, t.packetIdx);
      }
    }
    len := if spill then 0 else cfg[s.poolIdx].blockSize;
    var p := FirstFit(cfg, len, 0);
    if spill {
      SpillFromLowest(cfg, used, p.value);
    } else {
      assert p.value == s.poolIdx;
    }
  }

  /**
   The failing family, concretely: a subpool of more than 256 blocks of which the first 256 are
   taken. The next `add` succeeds, but the address it returns reads, and deletes, slot 0.
   */
  lemma AliasedAddress(p: Pool, data: seq<Byte>)
    requires ValidPool(p) && !p.spill && |p.cfg| == 1 && p.cfg[0].numBlocks > 0x100
    requires |data| <= p.cfg[0].blockSize
    requires forall k: U16 :: StaticPoolAddr(0, k) in p.live <==> k < 0x100
    ensures
      var (q, r) := Apply(p, Add(data));
      && r == Stored(Ok(0x100))
      && StaticPoolAddr(0, 0x100) in q.live && q.live[StaticPoolAddr(0, 0x100)] == data
      && Apply(q, Read(0x100, p.cfg[0].blockSize)).1 == Bytes(Ok(p.live[StaticPoolAddr(0, 0)]))
      && Apply(q, Delete(0x100)).0.live.Keys == q.live.Keys - {StaticPoolAddr(0, 0)}
  {
    var s := StaticPoolAddr(0, 0x100);
    NextFreeIs256(p, |data|);
    assert Encode(s) == 0x100;
    assert Decode(0x100) == StaticPoolAddr(0, 0);
    var first := StaticPoolAddr(0, 0);
    assert first in p.live && Fits(p.cfg, first, |p.live[first]|);
  }

  lemma NextFreeIs256(p: Pool, len: nat)
    requires ValidPool(p) && !p.spill && |p.cfg| == 1 && p.cfg[0].numBlocks > 0x100
    requires len <= p.cfg[0].blockSize
    requires forall k: U16 :: StaticPoolAddr(0, k) in p.live <==> k < 0x100
    ensures Reserve(p, len) == Ok(StaticPoolAddr(0, 0x100))
  {
    var f := FirstFree(p.cfg, p.live.Keys, 0, 0);
    assert StaticPoolAddr(0, 0x100) !in p.live.Keys;
    assert f.Some? && f.value >= 0x100;
    if f.value > 0x100 {
      assert false;
    }
    assert FirstFit(p.cfg, len, 0) == Some(0);
  }
}
