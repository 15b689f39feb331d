/**
 `StaticHeaplessMemoryPool`: the pool that starts empty and is grown with buffers its user
 provides. It does not sort its subpools and does not clear the buffers it is given.
 */
module HeaplessPool {
  import opened Wrappers
  import opened PoolSpec
  import opened PoolRuns
  import opened PoolFlat

  datatype GrowResult = Grown | PoolIsFull

  /** `Store`, except that a pool without subpools reports that it has no capacity. */
  function StoreOrNoCapacity(p: Pool, bytes: seq<Byte>): (Pool, Result<PoolAddr>)
    requires ValidLayout(p.cfg)
  {
    if |bytes| <= MAX_BLOCK_SIZE && p.cfg == [] then (p, Err(NoCapacity)) else Store(p, bytes)
  }

  /** A pool has no capacity exactly until it is grown; from then on it stores as the heap pool does. */
  lemma NoCapacityIff(p: Pool, bytes: seq<Byte>)
    requires ValidLayout(p.cfg)
    ensures var (q, r) := StoreOrNoCapacity(p, bytes);
      && (r == Err(NoCapacity) <==> p.cfg == [] && |bytes| <= MAX_BLOCK_SIZE)
      && (r == Err(NoCapacity) ==> q == p)
      && (p.cfg != [] ==> (q, Stored(r)) == Apply(p, Add(bytes)))
  {
    if |bytes| <= MAX_BLOCK_SIZE && p.spill && FirstFit(p.cfg, |bytes|, 0).Some? {
      SpillFromLowest(p.cfg, p.live.Keys, FirstFit(p.cfg, |bytes|, 0).value);
    }
  }

  class StaticHeaplessMemoryPool {
    const maxNumSubpools: nat
    const spill: bool
    var pool: seq<(SubpoolConfig, seq<Byte>)>
    var sizesLists: seq<seq<nat>>

    ghost function View(): (f: Flat)
      requires |pool| == |sizesLists|
      reads this
      ensures f.spill == spill && |f.subpools| == |pool|
      ensures forall i | 0 <= i < |pool| :: f.subpools[i] == Subpool(pool[i].0, pool[i].1, sizesLists[i])
    {
      Flat(spill, seq(|pool|, i requires 0 <= i < |pool| reads this requires |pool| == |sizesLists| =>
        Subpool(pool[i].0, pool[i].1, sizesLists[i])))
    }

    /** Nothing here says that block sizes ascend or that buffers are clear: `grow` checks neither. */
    ghost predicate Valid()
      reads this
    {
      && |pool| == |sizesLists| <= maxNumSubpools <= 0xFFFF
      && Shaped(View())
    }

    /** Every request gets a block that is large enough. */
    ghost predicate CanReserve()
      requires Valid()
      reads this
    {
      spill ==> Ascending(Layout(View()))
    }

    ghost function Model(): Pool
      requires Valid()
      reads this
    {
      Abs(View())
    }

    constructor (maxNumSubpools: nat, spill: bool)
      requires maxNumSubpools <= 0xFFFF
      ensures Valid() && Zeroed(View())
      ensures this.maxNumSubpools == maxNumSubpools && Model() == Pool([], spill, map[])
    {
      this.maxNumSubpools := maxNumSubpools;
      this.spill := spill;
      this.pool := [];
      this.sizesLists := [];
      new;
      AbsUnique(View(), map[]);
    }

    /**
     Add a subpool. The two `assert!` conditions of the source and the documented duty to hand
     over a free sizes list are the preconditions. Both lists grow or neither does.
     */
    method Grow(memory: seq<Byte>, sizesList: seq<nat>, numBlocks: U16, setAllFree: bool) returns (r: GrowResult)
      requires Valid() && numBlocks > 0 && |memory| / numBlocks < STORE_FREE
      requires |memory| % numBlocks == 0 && numBlocks == |sizesList|
      requires setAllFree || forall k | 0 <= k < |sizesList| :: sizesList[k] == STORE_FREE
      modifies this
      ensures Valid()
      ensures r == PoolIsFull <==> |old(pool)| == maxNumSubpools
      ensures r == PoolIsFull ==> Model() == old(Model()) && View() == old(View())
      ensures r == Grown ==>
        Model() == old(Model()).(cfg := old(Model()).cfg + [SubpoolConfig(numBlocks, |memory| / numBlocks)])
      ensures old(Zeroed(View())) && (forall k | 0 <= k < |memory| :: memory[k] == 0) ==> Zeroed(View())
    {
      if |pool| == maxNumSubpools {
        return PoolIsFull;
      }
      ghost var f := View();
      var blockSize: nat := |memory| / numBlocks;
      BlocksFillMemory(|memory|, numBlocks);
      pool := pool + [(SubpoolConfig(numBlocks, blockSize), memory)];
      var list: seq<nat> := if setAllFree then seq(numBlocks, _ => STORE_FREE) else sizesList;
      sizesLists := sizesLists + [list];
      ghost var b := Subpool(SubpoolConfig(numBlocks, blockSize), memory, list);
      assert View().subpools == f.subpools + [b];
      AppendFreeSubpool(f, b);
      return Grown;
    }

    method ValidateAddr(addr: StaticPoolAddr) returns (r: Option<PoolError>)
      requires Valid()
      ensures r == PoolRuns.ValidateAddr(Model().cfg, addr)
    {
      if addr.poolIdx >= |pool| {
        return Some(InvalidStoreId(InvalidSubpool(addr.poolIdx), Some(Encode(addr))));
      }
      if addr.packetIdx >= pool[addr.poolIdx].0.numBlocks {
        return Some(InvalidStoreId(InvalidPacketIdx(addr.packetIdx), Some(Encode(addr))));
      }
      return None;
    }

    method AddrCheck(addr: StaticPoolAddr) returns (r: Result<nat>)
      requires Valid()
      ensures r == match Lookup(Model(), addr)
                   case Ok(bytes) => Ok(|bytes|)
                   case Err(e) => Err(e)
    {
      var e := ValidateAddr(addr);
      if e.Some? {
        return Err(e.value);
      }
      ghost var held := Held(View(), addr);
      var size := sizesLists[addr.poolIdx][addr.packetIdx];
      if size == STORE_FREE {
        return Err(DataDoesNotExist(Encode(addr)));
      }
      return Ok(size);
    }

    method FindSubpool(reqSize: nat, startAtSubpool: U16) returns (r: Result<U16>)
      requires Valid()
      ensures r == if startAtSubpool > |pool| then Err(DataTooLarge(reqSize)) else
                   match FirstFit(Model().cfg, reqSize, startAtSubpool)
                   case Some(i) => Ok(i)
                   case None => Err(DataTooLarge(reqSize))
    {
      for i := 0 to |pool|
        invariant forall j | startAtSubpool <= j < i :: pool[j].0.blockSize < reqSize
      {
        if i < startAtSubpool {
          continue;
        }
        if pool[i].0.blockSize >= reqSize {
          return Ok(i);
        }
      }
      return Err(DataTooLarge(reqSize));
    }

    method FindEmpty(subpool: U16) returns (r: Result<U16>)
      requires Valid()
      ensures subpool >= |sizesLists| ==> r == Err(InvalidStoreId(InvalidSubpool(subpool), None))
      ensures subpool < |sizesLists| ==> r == PoolSpec.FindEmpty(Model().cfg, Model().live.Keys, subpool)
    {
      if subpool >= |sizesLists| {
        return Err(InvalidStoreId(InvalidSubpool(subpool), None));
      }
      var k := FirstFreeEntry(sizesLists[subpool]);
      ScanIsFirstFree(View(), subpool, k);
      return if k.Some? then Ok(k.value) else Err(StoreFull(subpool));
    }

    /** The search half of `reserve`. */
    method FindSlot(dataLen: nat) returns (r: Result<StaticPoolAddr>)
      requires Valid()
      ensures r == if Model().cfg == [] then Err(NoCapacity) else Choose(Model().cfg, spill, Model().live.Keys, dataLen)
    {
      hide FirstFree, FirstFit, SpillFrom, PoolSpec.FindEmpty, Abs, Zeroed, ShapedSubpool;
      if |pool| == 0 {
        return Err(NoCapacity);
      }
      var start := FindSubpool(dataLen, 0);
      if start.Err? {
        return Err(start.error);
      }
      var subpoolIdx: U16 := start.value;
      ghost var m := Model();
      ghost var used := m.live.Keys;
      if spill {
        var empty := FindEmpty(subpoolIdx);
        while empty.Err? && empty.error.StoreFull?
          invariant Valid() && Model() == m
          invariant subpoolIdx < |pool|
          invariant SpillFrom(m.cfg, used, start.value) == SpillFrom(m.cfg, used, subpoolIdx)
          invariant empty == PoolSpec.FindEmpty(m.cfg, used, subpoolIdx)
          decreases |pool| - subpoolIdx
        {
          SpillStep(m.cfg, used, subpoolIdx);
          if subpoolIdx + 1 == |sizesLists| {
            return Err(StoreFull(subpoolIdx));
          }
          subpoolIdx := subpoolIdx + 1;
          empty := FindEmpty(subpoolIdx);
        }
        SpillStep(m.cfg, used, subpoolIdx);
      }
      var slot := FindEmpty(subpoolIdx);
      if slot.Err? {
        return Err(slot.error);
      }
      return Ok(StaticPoolAddr(subpoolIdx, slot.value));
    }

    method Reserve(dataLen: nat) returns (r: Result<StaticPoolAddr>)
      requires Valid() && dataLen <= MAX_BLOCK_SIZE
      modifies this`sizesLists
      ensures r == if old(Model()).cfg == [] then Err(NoCapacity) else PoolRuns.Reserve(old(Model()), dataLen)
      ensures r.Err? ==> sizesLists == old(sizesLists)
      ensures r.Ok? ==>
        && IsSlot(old(Model()).cfg, r.value) && r.value !in old(Model()).live
        && |sizesLists| == |pool|
        && View() == Resized(old(View()), r.value, dataLen)
    {
      r := FindSlot(dataLen);
      if r.Ok? {
        var s := r.value;
        ghost var f := View();
        ChosenIsFree(Abs(f), dataLen);
        var sizes: seq<nat> := sizesLists[s.poolIdx][s.packetIdx := dataLen];
        sizesLists := sizesLists[s.poolIdx := sizes];
        assert View().subpools == Resized(f, s, dataLen).subpools;
      }
    }

    method WriteBlock(s: StaticPoolAddr, data: seq<Byte>)
      requires |pool| == |sizesLists| && Shaped(View()) && Fits(Layout(View()), s, |data|)
      modifies this`pool
      ensures |pool| == |sizesLists|
      ensures View() == Updated(old(View()), s, data, old(View()).subpools[s.poolIdx].sizes[s.packetIdx])
    {
      ghost var f := View();
      ghost var b := f.subpools[s.poolIdx];
      var (c, buf) := pool[s.poolIdx];
      var pos := s.packetIdx * c.blockSize;
      RawPosIsProduct(s.packetIdx, c.blockSize);
      assert pos == BlockStart(b, s.packetIdx);
      pool := pool[s.poolIdx := (c, Splice(buf, pos, data))];
      assert b.sizes[s.packetIdx := b.sizes[s.packetIdx]] == b.sizes;
      assert View().subpools == Updated(f, s, data, b.sizes[s.packetIdx]).subpools;
    }

    method Add(data: seq<Byte>) returns (r: Result<PoolAddr>)
      requires Valid() && Roomy(Model(), |data|)
      modifies this
      ensures Valid() && (old(CanReserve()) ==> CanReserve())
      ensures (Model(), r) == StoreOrNoCapacity(old(Model()), data)
      ensures old(Zeroed(View())) ==> Zeroed(View())
    {
      if |data| > MAX_BLOCK_SIZE {
        return Err(DataTooLarge(|data|));
      }
      ghost var f := View();
      var addr := Reserve(|data|);
      if addr.Err? {
        return Err(addr.error);
      }
      var s := addr.value;
      StoreRefines(f, s, data);
      ResizeThenWrite(f, s, data, |data|);
      WriteBlock(s, data);
      return Ok(Encode(s));
    }

    /** The writer sees whatever bytes the reserved block holds. */
    method FreeElement(len: nat, writer: Update) returns (r: Result<PoolAddr>)
      requires Valid() && Roomy(Model(), len) && KeepsLength(writer)
      modifies this
      ensures Valid() && (old(CanReserve()) ==> CanReserve())
      ensures (Model(), r) == StoreOrNoCapacity(old(Model()), writer(old(HandedOut(View(), len))))
      ensures old(Zeroed(View())) ==> Zeroed(View())
    {
      hide Choose, Ascending, Cell, ZeroTail, Slots;
      ghost var f := View();
      ghost var written := writer(HandedOut(f, len));
      assert |written| == len;
      if len > MAX_BLOCK_SIZE {
        return Err(DataTooLarge(len));
      }
      var addr := Reserve(len);
      if addr.Err? {
        return Err(addr.error);
      }
      var s := addr.value;
      var (c, buf) := pool[s.poolIdx];
      RawPosIsProduct(s.packetIdx, c.blockSize);
      BlockInBuffer(c.numBlocks, c.blockSize, s.packetIdx);
      assert buf == f.subpools[s.poolIdx].buf;
      var pos := s.packetIdx * c.blockSize;
      var block := buf[pos..pos + len];
      assert block == HandedOut(f, len);
      var data := writer(block);
      assert data == written;
      StoreRefines(f, s, data);
      ResizeThenWrite(f, s, data, |data|);
      WriteBlock(s, data);
      return Ok(Encode(s));
    }

    method BlockAt(s: StaticPoolAddr, size: nat) returns (block: seq<Byte>)
      requires Valid() && s in Model().live && size == |Model().live[s]|
      ensures block == Model().live[s]
    {
      ghost var f := View();
      assert Held(f, s) == Some(Abs(f).live[s]);
      var (c, buf) := pool[s.poolIdx];
      RawPosIsProduct(s.packetIdx, c.blockSize);
      BlockInBuffer(c.numBlocks, c.blockSize, s.packetIdx);
      var pos := s.packetIdx * c.blockSize;
      block := buf[pos..pos + size];
    }

    method Modify(addr: PoolAddr, updater: Update) returns (r: Result<()>)
      requires Valid() && KeepsLength(updater)
      modifies this
      ensures Valid() && (old(CanReserve()) ==> CanReserve())
      ensures (Model(), r) == Change(old(Model()), addr, updater)
      ensures old(Zeroed(View())) ==> Zeroed(View())
    {
      var s := Decode(addr);
      var size := AddrCheck(s);
      if size.Err? {
        return Err(size.error);
      }
      ghost var f := View();
      var block := BlockAt(s, size.value);
      var data := updater(block);
      assert Held(f, s) == Some(block);
      PutRefines(f, s, data);
      WriteBlock(s, data);
      assert Layout(View()) == Layout(f);
      return Ok(());
    }

    method Read(addr: PoolAddr, buf: array<Byte>) returns (r: Result<nat>)
      requires Valid()
      modifies buf
      ensures Valid() && View() == old(View())
      ensures match Fetch(Model(), addr, buf.Length)
              case Err(e) => r == Err(e) && buf[..] == old(buf[..])
              case Ok(bytes) => r == Ok(|bytes|) && buf[..] == bytes + old(buf[..])[|bytes|..]
    {
      var s := Decode(addr);
      var size := AddrCheck(s);
      if size.Err? {
        return Err(size.error);
      }
      if buf.Length < size.value {
        return Err(ToSliceTooSmall(buf.Length, size.value));
      }
      var block := BlockAt(s, size.value);
      forall i | 0 <= i < |block| {
        buf[i] := block[i];
      }
      return Ok(size.value);
    }

    method Delete(addr: PoolAddr) returns (r: Result<()>)
      requires Valid()
      modifies this
      ensures Valid() && (old(CanReserve()) ==> CanReserve())
      ensures (Model(), r) == Remove(old(Model()), addr)
      ensures old(Zeroed(View())) ==> Zeroed(View())
    {
      var s := Decode(addr);
      var size := AddrCheck(s);
      if size.Err? {
        return Err(size.error);
      }
      ghost var f := View();
      var blank := Zeros(pool[s.poolIdx].0.blockSize);
      DeleteRefines(f, s);
      ResizeThenWrite(f, s, blank, STORE_FREE);
      var sizes: seq<nat> := sizesLists[s.poolIdx][s.packetIdx := STORE_FREE];
      sizesLists := sizesLists[s.poolIdx := sizes];
      assert View().subpools == Resized(f, s, STORE_FREE).subpools;
      WriteBlock(s, blank);
      assert Layout(View()) == Layout(f);
      return Ok(());
    }

    method HasElementAt(addr: PoolAddr) returns (r: Result<bool>)
      requires Valid()
      ensures Flag(r) == Apply(Model(), PoolRuns.HasElementAt(addr)).1
      ensures r == Ok(true) <==> Decode(addr) in Model().live
    {
      var s := Decode(addr);
      var e := ValidateAddr(s);
      if e.Some? {
        return Err(e.value);
      }
      ghost var held := Held(View(), s);
      return Ok(sizesLists[s.poolIdx][s.packetIdx] != STORE_FREE);
    }

    method LenOfData(addr: PoolAddr) returns (r: Result<nat>)
      requires Valid()
      ensures Length(r) == Apply(Model(), PoolRuns.LenOfData(addr)).1
      ensures Decode(addr) in Model().live ==> r == Ok(|Model().live[Decode(addr)]|)
    {
      var s := Decode(addr);
      var e := ValidateAddr(s);
      if e.Some? {
        return Err(e.value);
      }
      ghost var held := Held(View(), s);
      var size := sizesLists[s.poolIdx][s.packetIdx];
      return Ok(if size == STORE_FREE then 0 else size);
    }
  }

  lemma BlocksFillMemory(len: nat, n: nat)
    requires n > 0 && len % n == 0
    ensures RawPos(n, len / n) == len && len / n <= len
  {
    RawPosIsProduct(n, len / n);
    assert len == n * (len / n) + len % n;
  }

  /** Appending a free subpool adds slots but no data. */
  lemma AppendFreeSubpool(f: Flat, b: Subpool)
    requires Shaped(f) && |f.subpools| < 0xFFFF && ShapedSubpool(b)
    requires b.cfg.numBlocks > 0 && b.cfg.blockSize < STORE_FREE
    requires forall k | 0 <= k < |b.sizes| :: b.sizes[k] == STORE_FREE
    ensures var g := f.(subpools := f.subpools + [b]);
      && Shaped(g) && Layout(g) == Layout(f) + [b.cfg]
      && Abs(g) == Abs(f).(cfg := Layout(f) + [b.cfg])
      && (Zeroed(f) && (forall k | 0 <= k < |b.buf| :: b.buf[k] == 0) ==> Zeroed(g))
  {
    var g := f.(subpools := f.subpools + [b]);
    assert Layout(g) == Layout(f) + [b.cfg];
    forall s | IsSlot(Layout(g), s) ensures Held(g, s) == if s.poolIdx < |f.subpools| then Held(f, s) else None {
    }
    AbsUnique(g, Abs(f).live);
  }
}
