/**
 `StaticMemoryPool`: the pool that allocates all of its subpools up front from a sanitised
 configuration, and the guard that deletes what it protects unless released.
 */
module StaticPool {
  import opened Wrappers
  import opened PoolSpec
  import opened PoolRuns
  import opened PoolFlat
  import opened Sorting

  // ------------------------------------------------------------- sanitising

  predicate Keep(c: SubpoolConfig) {
    c.numBlocks > 0 && c.blockSize < MAX_BLOCK_SIZE
  }

  function Kept(cfg: seq<SubpoolConfig>): seq<SubpoolConfig> {
    if cfg == [] then []
    else Kept(cfg[..|cfg| - 1]) + if Keep(cfg[|cfg| - 1]) then [cfg[|cfg| - 1]] else []
  }

  /** Each subpool is there, as often as in `all`, exactly if it has blocks and they are not too large. */
  ghost predicate HoldsUsable(cfg: seq<SubpoolConfig>, all: seq<SubpoolConfig>) {
    forall c ::
      multiset(cfg)[c] == if c.numBlocks > 0 && c.blockSize < MAX_BLOCK_SIZE then multiset(all)[c] else 0
  }

  /** `retain`: the usable subpools, in order. */
  method RetainUsable(cfg: seq<SubpoolConfig>) returns (r: seq<SubpoolConfig>)
    ensures r == Kept(cfg)
  {
    r := [];
    for n := 0 to |cfg|
      invariant r == Kept(cfg[..n])
    {
      assert cfg[..n + 1][..n] == cfg[..n];
      if Keep(cfg[n]) {
        r := r + [cfg[n]];
      }
    }
    assert cfg[..|cfg|] == cfg;
  }

  /** Drop unusable subpools and order the rest by block size. */
  method Sanitize(cfg: seq<SubpoolConfig>) returns (r: seq<SubpoolConfig>)
    ensures Ascending(r)
    ensures multiset(r) == multiset(Kept(cfg))
    ensures HoldsUsable(r, cfg)
    ensures forall c | c in r :: Keep(c)
  {
    KeptCounts(cfg);
    var kept := RetainUsable(cfg);
    r := SortBy(kept, (c: SubpoolConfig) => c.blockSize);
    forall c | c in r ensures Keep(c) {
      assert c in multiset(r);
      KeptKeep(cfg, c);
    }
  }

  lemma {:induction false} KeptCounts(cfg: seq<SubpoolConfig>)
    ensures HoldsUsable(Kept(cfg), cfg)
  {
    if cfg != [] {
      KeptCounts(cfg[..|cfg| - 1]);
      assert cfg == cfg[..|cfg| - 1] + [cfg[|cfg| - 1]];
    }
  }

  lemma {:induction false} KeptKeep(cfg: seq<SubpoolConfig>, c: SubpoolConfig)
    requires c in Kept(cfg)
    ensures Keep(c)
  {
    if c in Kept(cfg[..|cfg| - 1]) {
      KeptKeep(cfg[..|cfg| - 1], c);
    }
  }

  /** One cleared buffer and one free sizes list per subpool. */
  method AllocateSubpools(cfg: seq<SubpoolConfig>) returns (bufs: seq<seq<Byte>>, lists: seq<seq<nat>>)
    ensures |bufs| == |lists| == |cfg|
    ensures forall j | 0 <= j < |cfg| :: IsBlank(Subpool(cfg[j], bufs[j], lists[j]))
  {
    bufs, lists := [], [];
    for i := 0 to |cfg|
      invariant |bufs| == |lists| == i
      invariant forall j | 0 <= j < i :: IsBlank(Subpool(cfg[j], bufs[j], lists[j]))
    {
      var buf: seq<Byte> := Zeros(cfg[i].numBlocks * cfg[i].blockSize);
      var list: seq<nat> := seq(cfg[i].numBlocks, _ => STORE_FREE);
      RawPosIsProduct(cfg[i].numBlocks, cfg[i].blockSize);
      bufs := bufs + [buf];
      lists := lists + [list];
    }
  }

  // --------------------------------------------------------------- the pool

  class StaticMemoryPool {
    const cfg: seq<SubpoolConfig>
    const spill: bool
    var pool: seq<seq<Byte>>
    var sizesLists: seq<seq<nat>>

    ghost function View(): (f: Flat)
      requires |pool| == |sizesLists| == |cfg|
      reads this
      ensures f.spill == spill && Layout(f) == cfg
    {
      Flat(spill, seq(|cfg|, i requires 0 <= i < |cfg| reads this requires |pool| == |sizesLists| == |cfg| =>
        Subpool(cfg[i], pool[i], sizesLists[i])))
    }

    ghost predicate Valid()
      reads this
    {
      && |pool| == |sizesLists| == |cfg|
      && Ascending(cfg)
      && Shaped(View())
      && Zeroed(View())
    }

    /** The abstract pool this object stands for. */
    ghost function Model(): Pool
      requires Valid()
      reads this
    {
      Abs(View())
    }

    constructor (layout: seq<SubpoolConfig>, spill: bool)
      requires |Kept(layout)| <= 0xFFFF
      ensures Valid()
      ensures Model().live == map[] && Model().spill == spill
      ensures multiset(Model().cfg) == multiset(Kept(layout))
      ensures HoldsUsable(Model().cfg, layout)
    {
      hide HoldsUsable;
      var sane := Sanitize(layout);
      assert |sane| == |multiset(sane)| == |multiset(Kept(layout))| == |Kept(layout)|;
      var bufs, lists := AllocateSubpools(sane);
      this.cfg := sane;
      this.spill := spill;
      this.pool := bufs;
      this.sizesLists := lists;
      new;
      hide IsBlank, Kept;
      assert forall i | 0 <= i < |cfg| :: cfg[i] in sane && Keep(cfg[i]);
      BlankView(View());
    }

    // ---------------------------------------------------- private operations

    method ValidateAddr(addr: StaticPoolAddr) returns (r: Option<PoolError>)
      requires Valid()
      ensures r == PoolRuns.ValidateAddr(cfg, addr)
    {
      if addr.poolIdx >= |cfg| {
        return Some(InvalidStoreId(InvalidSubpool(addr.poolIdx), Some(Encode(addr))));
      }
      if addr.packetIdx >= cfg[addr.poolIdx].numBlocks {
        return Some(InvalidStoreId(InvalidPacketIdx(addr.packetIdx), Some(Encode(addr))));
      }
      return None;
    }

    /** The stored length at an address, or why there is none. */
    method AddrCheck(addr: StaticPoolAddr) returns (r: Result<nat>)
      requires Valid()
      ensures r == match Lookup(Model(), addr)
                   case Ok(bytes) => Ok(|bytes|)
                   case Err(e) => Err(e)
      ensures r.Ok? ==>
        IsSlot(cfg, addr) && r.value == sizesLists[addr.poolIdx][addr.packetIdx] <= cfg[addr.poolIdx].blockSize
    {
      var e := ValidateAddr(addr);
      if e.Some? {
        return Err(e.value);
      }
      ghost var held := Held(View(), addr);
      var size := sizesLists[addr.poolIdx][addr.packetIdx];
      if size == STORE_FREE {
        return Err(DataDoesNotExist(Encode(addr)));
      }
      return Ok(size);
    }

    method FindSubpool(reqSize: nat, startAtSubpool: U16) returns (r: Result<U16>)
      requires Valid()
      ensures r == if startAtSubpool > |cfg| then Err(DataTooLarge(reqSize)) else
                   match FirstFit(cfg, reqSize, startAtSubpool)
                   case Some(i) => Ok(i)
                   case None => Err(DataTooLarge(reqSize))
    {
      for i := 0 to |cfg|
        invariant forall j | startAtSubpool <= j < i :: cfg[j].blockSize < reqSize
      {
        if i < startAtSubpool {
          continue;
        }
        if cfg[i].blockSize >= reqSize {
          return Ok(i);
        }
      }
      return Err(DataTooLarge(reqSize));
    }

    method FindEmpty(subpool: U16) returns (r: Result<U16>)
      requires Valid()
      ensures subpool >= |cfg| ==> r == Err(InvalidStoreId(InvalidSubpool(subpool), None))
      ensures subpool < |cfg| ==> r == PoolSpec.FindEmpty(cfg, Model().live.Keys, subpool)
    {
      if subpool >= |sizesLists| {
        return Err(InvalidStoreId(InvalidSubpool(subpool), None));
      }
      var k := FirstFreeEntry(sizesLists[subpool]);
      ScanIsFirstFree(View(), subpool, k);
      return if k.Some? then Ok(k.value) else Err(StoreFull(subpool));
    }

    /** The search half of `reserve`: best fit first, then upwards if spilling is on. */
    method FindSlot(dataLen: nat) returns (r: Result<StaticPoolAddr>)
      requires Valid()
      ensures r == Choose(cfg, spill, Model().live.Keys, dataLen)
    {
      hide FirstFree, FirstFit, SpillFrom, PoolSpec.FindEmpty, Abs, Zeroed, ShapedSubpool, Layout, Ascending,
        StaticMemoryPool.View;
      var start := FindSubpool(dataLen, 0);
      if start.Err? {
        return Err(start.error);
      }
      var subpoolIdx: U16 := start.value;
      ghost var m := Model();
      ghost var used := m.live.Keys;
      if spill {
        var empty := FindEmpty(subpoolIdx);
        while empty.Err? && empty.error.StoreFull?
          invariant Valid() && Model() == m
          invariant subpoolIdx < |cfg|
          invariant SpillFrom(cfg, used, start.value) == SpillFrom(cfg, used, subpoolIdx)
          invariant empty == PoolSpec.FindEmpty(cfg, used, subpoolIdx)
          decreases |cfg| - subpoolIdx
        {
          SpillStep(cfg, used, subpoolIdx);
          if subpoolIdx + 1 == |sizesLists| {
            return Err(StoreFull(subpoolIdx));
          }
          subpoolIdx := subpoolIdx + 1;
          empty := FindEmpty(subpoolIdx);
        }
        SpillStep(cfg, used, subpoolIdx);
      }
      var slot := FindEmpty(subpoolIdx);
      if slot.Err? {
        return Err(slot.error);
      }
      return Ok(StaticPoolAddr(subpoolIdx, slot.value));
    }

    /** Pick a slot and mark it as holding `dataLen` bytes; the bytes are still to be written. */
    method Reserve(dataLen: nat) returns (r: Result<StaticPoolAddr>)
      requires Valid() && dataLen <= MAX_BLOCK_SIZE
      modifies this`sizesLists
      ensures r == PoolRuns.Reserve(old(Model()), dataLen)
      ensures r.Err? ==> sizesLists == old(sizesLists)
      ensures r.Ok? ==>
        && Fits(cfg, r.value, dataLen)
        && |sizesLists| == |cfg|
        && View() == Resized(old(View()), r.value, dataLen)
    {
      r := FindSlot(dataLen);
      if r.Ok? {
        var s := r.value;
        ghost var f := View();
        AbsValid(f);
        ReserveIsFresh(Abs(f), dataLen);
        var sizes: seq<nat> := sizesLists[s.poolIdx][s.packetIdx := dataLen];
        sizesLists := sizesLists[s.poolIdx := sizes];
        assert View().subpools == Resized(f, s, dataLen).subpools;
      }
    }

    /** Copy bytes to the start of a block; sizes are not touched. */
    method WriteBlock(s: StaticPoolAddr, data: seq<Byte>)
      requires |pool| == |sizesLists| == |cfg| && Shaped(View()) && Fits(cfg, s, |data|)
      modifies this`pool
      ensures |pool| == |cfg|
      ensures View() == Updated(old(View()), s, data, old(View()).subpools[s.poolIdx].sizes[s.packetIdx])
    {
      ghost var f := View();
      ghost var b := f.subpools[s.poolIdx];
      var pos := s.packetIdx * cfg[s.poolIdx].blockSize;
      RawPosIsProduct(s.packetIdx, cfg[s.poolIdx].blockSize);
      assert pos == BlockStart(b, s.packetIdx);
      pool := pool[s.poolIdx := Splice(pool[s.poolIdx], pos, data)];
      assert b.sizes[s.packetIdx := b.sizes[s.packetIdx]] == b.sizes;
      assert View().subpools == Updated(f, s, data, b.sizes[s.packetIdx]).subpools;
    }

    // ----------------------------------------------------- PoolProvider calls

    method Add(data: seq<Byte>) returns (r: Result<PoolAddr>)
      requires Valid()
      modifies this
      ensures Valid()
      ensures (Model(), r) == Store(old(Model()), data)
    {
      if |data| > MAX_BLOCK_SIZE {
        return Err(DataTooLarge(|data|));
      }
      ghost var f := View();
      var addr := Reserve(|data|);
      if addr.Err? {
        return Err(addr.error);
      }
      var s := addr.value;
      StoreRefines(f, s, data);
      ResizeThenWrite(f, s, data, |data|);
      WriteBlock(s, data);
      return Ok(Encode(s));
    }

    method FreeElement(len: nat, writer: Update) returns (r: Result<PoolAddr>)
      requires Valid() && KeepsLength(writer)
      modifies this
      ensures Valid()
      ensures (Model(), r) == Store(old(Model()), writer(Zeros(len)))
    {
      hide Choose, Ascending, Cell, ZeroTail, Slots;
      if len > MAX_BLOCK_SIZE {
        return Err(DataTooLarge(len));
      }
      ghost var f := View();
      AbsValid(f);
      ReserveIsFresh(Abs(f), len);
      HandedOutIsZero(f, len);
      var addr := Reserve(len);
      if addr.Err? {
        return Err(addr.error);
      }
      var s := addr.value;
      RawPosIsProduct(s.packetIdx, cfg[s.poolIdx].blockSize);
      BlockInBuffer(cfg[s.poolIdx].numBlocks, cfg[s.poolIdx].blockSize, s.packetIdx);
      assert pool[s.poolIdx] == f.subpools[s.poolIdx].buf;
      var pos := s.packetIdx * cfg[s.poolIdx].blockSize;
      var block := pool[s.poolIdx][pos..pos + len];
      assert block == HandedOut(f, len);
      var data := writer(block);
      StoreRefines(f, s, data);
      ResizeThenWrite(f, s, data, |data|);
      WriteBlock(s, data);
      return Ok(Encode(s));
    }

    /** The bytes an address check has found, read from the flat buffer. */
    method BlockAt(s: StaticPoolAddr, size: nat) returns (block: seq<Byte>)
      requires Valid() && s in Model().live && size == |Model().live[s]|
      ensures block == Model().live[s]
    {
      ghost var f := View();
      assert Held(f, s) == Some(Abs(f).live[s]);
      RawPosIsProduct(s.packetIdx, cfg[s.poolIdx].blockSize);
      BlockInBuffer(cfg[s.poolIdx].numBlocks, cfg[s.poolIdx].blockSize, s.packetIdx);
      var pos := s.packetIdx * cfg[s.poolIdx].blockSize;
      block := pool[s.poolIdx][pos..pos + size];
    }

    method Modify(addr: PoolAddr, updater: Update) returns (r: Result<()>)
      requires Valid() && KeepsLength(updater)
      modifies this
      ensures Valid()
      ensures (Model(), r) == Change(old(Model()), addr, updater)
    {
      var s := Decode(addr);
      var size := AddrCheck(s);
      if size.Err? {
        return Err(size.error);
      }
      ghost var f := View();
      var block := BlockAt(s, size.value);
      var data := updater(block);
      ModifyRefines(f, s, data);
      assert Held(f, s) == Some(block);
      WriteBlock(s, data);
      return Ok(());
    }

    method Read(addr: PoolAddr, buf: array<Byte>) returns (r: Result<nat>)
      requires Valid()
      modifies buf
      ensures Valid() && Model() == old(Model())
      ensures match Fetch(Model(), addr, buf.Length)
              case Err(e) => r == Err(e) && buf[..] == old(buf[..])
              case Ok(bytes) => r == Ok(|bytes|) && buf[..] == bytes + old(buf[..])[|bytes|..]
    {
      var s := Decode(addr);
      var size := AddrCheck(s);
      if size.Err? {
        return Err(size.error);
      }
      if buf.Length < size.value {
        return Err(ToSliceTooSmall(buf.Length, size.value));
      }
      var block := BlockAt(s, size.value);
      forall i | 0 <= i < |block| {
        buf[i] := block[i];
      }
      return Ok(size.value);
    }

    method Delete(addr: PoolAddr) returns (r: Result<()>)
      requires Valid()
      modifies this
      ensures Valid()
      ensures (Model(), r) == Remove(old(Model()), addr)
    {
      var s := Decode(addr);
      var size := AddrCheck(s);
      if size.Err? {
        return Err(size.error);
      }
      ghost var f := View();
      var blank := Zeros(cfg[s.poolIdx].blockSize);
      DeleteRefines(f, s);
      ResizeThenWrite(f, s, blank, STORE_FREE);
      var sizes: seq<nat> := sizesLists[s.poolIdx][s.packetIdx := STORE_FREE];
      sizesLists := sizesLists[s.poolIdx := sizes];
      assert View().subpools == Resized(f, s, STORE_FREE).subpools;
      WriteBlock(s, blank);
      return Ok(());
    }

    method HasElementAt(addr: PoolAddr) returns (r: Result<bool>)
      requires Valid()
      ensures Flag(r) == Apply(Model(), PoolRuns.HasElementAt(addr)).1
      ensures r == Ok(true) <==> Decode(addr) in Model().live
    {
      var s := Decode(addr);
      var e := ValidateAddr(s);
      if e.Some? {
        return Err(e.value);
      }
      ghost var held := Held(View(), s);
      return Ok(sizesLists[s.poolIdx][s.packetIdx] != STORE_FREE);
    }

    method LenOfData(addr: PoolAddr) returns (r: Result<nat>)
      requires Valid()
      ensures Length(r) == Apply(Model(), PoolRuns.LenOfData(addr)).1
      ensures Decode(addr) in Model().live ==> r == Ok(|Model().live[Decode(addr)]|)
    {
      var s := Decode(addr);
      var e := ValidateAddr(s);
      if e.Some? {
        return Err(e.value);
      }
      ghost var held := Held(View(), s);
      var size := sizesLists[s.poolIdx][s.packetIdx];
      return Ok(if size == STORE_FREE then 0 else size);
    }
  }

  /** RAII guard: deletes the element it was created for when dropped, unless released. */
  class PoolGuard {
    const pool: StaticMemoryPool
    const addr: PoolAddr
    var noDeletion: bool
    var deletionFailedError: Option<PoolError>

    constructor (pool: StaticMemoryPool, addr: PoolAddr)
      ensures this.pool == pool && this.addr == addr
      ensures !noDeletion && deletionFailedError == None
    {
      this.pool := pool;
      this.addr := addr;
      this.noDeletion := false;
      this.deletionFailedError := None;
    }

    method Release()
      modifies this
      ensures noDeletion && deletionFailedError == old(deletionFailedError)
    {
      noDeletion := true;
    }

    method Drop()
      requires pool.Valid()
      modifies this, pool
      ensures pool.Valid() && noDeletion == old(noDeletion)
      ensures
        var (q, r) := if noDeletion then (old(pool.Model()), Ok(())) else Remove(old(pool.Model()), addr);
        && pool.Model() == q
        && deletionFailedError == if r.Err? then Some(r.error) else old(deletionFailedError)
    {
      if !noDeletion {
        var r := pool.Delete(addr);
        if r.Err? {
          deletionFailedError := Some(r.error);
        }
      }
    }
  }

  /** A subpool as the constructor lays it out. */
  ghost predicate IsBlank(b: Subpool) {
    && |b.buf| == RawPos(b.cfg.numBlocks, b.cfg.blockSize)
    && |b.sizes| == b.cfg.numBlocks
    && (forall k | 0 <= k < |b.buf| :: b.buf[k] == 0)
    && (forall k | 0 <= k < |b.sizes| :: b.sizes[k] == STORE_FREE)
  }

  lemma BlankView(f: Flat)
    requires ValidLayout(Layout(f))
    requires forall i | 0 <= i < |f.subpools| :: IsBlank(f.subpools[i])
    ensures Shaped(f) && Zeroed(f) && Abs(f).live == map[]
  {
    forall i | 0 <= i < |f.subpools| ensures ShapedSubpool(f.subpools[i]) {
    }
    AbsUnique(f, map[]);
  }
}
