/**
 The abstract packet pool: a map from slots to the byte strings stored in them, and the
 operations of `PoolProvider` on that map. Nothing here knows about flat buffers or index
 arithmetic; both pool implementations are proved to refine this specification.
 */
module PoolSpec {
  import opened Wrappers

  type Byte = bv8
  type U16 = x: int | 0 <= x < 0x1_0000
  type PoolAddr = x: int | 0 <= x < 0x1_0000_0000_0000_0000

  /** Largest machine word: marks a free slot in a sizes list. */
  const STORE_FREE: nat := 0xFFFF_FFFF_FFFF_FFFF
  const MAX_BLOCK_SIZE: nat := STORE_FREE - 1

  datatype Result<+T> = Ok(value: T) | Err(error: PoolError)

  datatype StaticPoolAddr = StaticPoolAddr(poolIdx: U16, packetIdx: U16)

  datatype StoreIdError = InvalidSubpool(idx: U16) | InvalidPacketIdx(idx: U16)

  datatype PoolError =
    | DataTooLarge(size: nat)
    | StoreFull(subpool: U16)
    | NoCapacity
    | InvalidStoreId(id: StoreIdError, addr: Option<PoolAddr>)
    | DataDoesNotExist(at: PoolAddr)
    | ToSliceTooSmall(found: nat, expected: nat)

  datatype SubpoolConfig = SubpoolConfig(numBlocks: U16, blockSize: nat)

  // ---------------------------------------------------------------- addresses

  /** `(pool_idx << 16) | packet_idx`: keeps all sixteen bits of both indices. */
  function Encode(a: StaticPoolAddr): PoolAddr {
    a.poolIdx * 0x1_0000 + a.packetIdx
  }

  /** `(value >> 16) & 0xff` and `value & 0xff`: keeps only eight bits of either index. */
  function Decode(v: PoolAddr): StaticPoolAddr {
    StaticPoolAddr(v / 0x1_0000 % 0x100, v % 0x100)
  }

  /** An address survives the round trip exactly when both of its indices fit in eight bits. */
  lemma DecodeEncode(a: StaticPoolAddr)
    ensures Decode(Encode(a)) == a <==> a.poolIdx < 0x100 && a.packetIdx < 0x100
    ensures Encode(a) / 0x1_0000 == a.poolIdx
  {
    assert Encode(a) / 0x1_0000 == a.poolIdx;
    assert Encode(a) % 0x100 == a.packetIdx % 0x100 by {
      assert Encode(a) == 0x100 * (a.poolIdx * 0x100) + a.packetIdx;
    }
  }

  /** Encoding never merges two addresses; only decoding does. */
  lemma EncodeInjective(a: StaticPoolAddr, b: StaticPoolAddr)
    ensures Encode(a) == Encode(b) <==> a == b
  {
    DecodeEncode(a);
    DecodeEncode(b);
  }

  // ------------------------------------------------------------------ layouts

  /** A layout the implementations can index: subpool indices are sixteen bit wide. */
  ghost predicate ValidLayout(cfg: seq<SubpoolConfig>) {
    && |cfg| <= 0xFFFF
    && forall i | 0 <= i < |cfg| :: cfg[i].numBlocks > 0 && cfg[i].blockSize < STORE_FREE
  }

  ghost predicate Ascending(cfg: seq<SubpoolConfig>) {
    forall i, j | 0 <= i < j < |cfg| :: cfg[i].blockSize <= cfg[j].blockSize
  }

  predicate IsSlot(cfg: seq<SubpoolConfig>, s: StaticPoolAddr) {
    s.poolIdx < |cfg| && s.packetIdx < cfg[s.poolIdx].numBlocks
  }

  predicate Fits(cfg: seq<SubpoolConfig>, s: StaticPoolAddr, len: nat) {
    IsSlot(cfg, s) && len <= cfg[s.poolIdx].blockSize
  }

  // -------------------------------------------------------------- slot choice

  /** The lowest subpool from `i` on whose blocks can hold `len` bytes. */
  function FirstFit(cfg: seq<SubpoolConfig>, len: nat, i: nat): (r: Option<nat>)
    requires i <= |cfg|
    ensures r.Some? ==> i <= r.value < |cfg| && len <= cfg[r.value].blockSize
    ensures forall j | i <= j < (if r.Some? then r.value else |cfg|) :: cfg[j].blockSize < len
    decreases |cfg| - i
  {
    if i == |cfg| then None
    else if cfg[i].blockSize >= len then Some(i)
    else FirstFit(cfg, len, i + 1)
  }

  /** The lowest unused packet index from `k` on in subpool `p`. */
  function FirstFree(cfg: seq<SubpoolConfig>, used: set<StaticPoolAddr>, p: U16, k: nat): (r: Option<nat>)
    requires p < |cfg| && k <= cfg[p].numBlocks
    ensures r.Some? ==> k <= r.value < cfg[p].numBlocks && StaticPoolAddr(p, r.value) !in used
    ensures forall j: U16 | k <= j < (if r.Some? then r.value else cfg[p].numBlocks) :: StaticPoolAddr(p, j) in used
    decreases cfg[p].numBlocks - k
  {
    if k == cfg[p].numBlocks then None
    else if StaticPoolAddr(p, k) !in used then Some(k)
    else FirstFree(cfg, used, p, k + 1)
  }

  /** `find_subpool` from the lowest subpool on. */
  function FindFit(cfg: seq<SubpoolConfig>, len: nat): (r: Result<U16>)
    requires |cfg| <= 0xFFFF
    ensures r.Ok? ==> r.value < |cfg|
  {
    var p := FirstFit(cfg, len, 0);
    if p.Some? then Ok(p.value) else Err(DataTooLarge(len))
  }

  /** `find_empty` in an existing subpool. */
  function FindEmpty(cfg: seq<SubpoolConfig>, used: set<StaticPoolAddr>, p: U16): (r: Result<U16>)
    requires p < |cfg|
  {
    var k := FirstFree(cfg, used, p, 0);
    if k.Some? then Ok(k.value) else Err(StoreFull(p))
  }

  /** Walk up the subpools from `p` until one has a free slot. */
  function SpillFrom(cfg: seq<SubpoolConfig>, used: set<StaticPoolAddr>, p: U16): (r: Result<StaticPoolAddr>)
    requires p < |cfg| <= 0xFFFF
    decreases |cfg| - p
  {
    var k := FindEmpty(cfg, used, p);
    if k.Ok? then Ok(StaticPoolAddr(p, k.value))
    else if p + 1 == |cfg| then Err(StoreFull(p))
    else SpillFrom(cfg, used, p + 1)
  }

  function Choose(cfg: seq<SubpoolConfig>, spill: bool, used: set<StaticPoolAddr>,
                  len: nat): (r: Result<StaticPoolAddr>)
    requires |cfg| <= 0xFFFF
  {
    var p := FindFit(cfg, len);
    if p.Err? then Err(p.error)
    else if spill then SpillFrom(cfg, used, p.value)
    else
      var k := FindEmpty(cfg, used, p.value);
      if k.Ok? then Ok(StaticPoolAddr(p.value, k.value)) else Err(k.error)
  }

  /** How the search goes on from subpool `p`, one case at a time. */
  lemma SpillStep(cfg: seq<SubpoolConfig>, used: set<StaticPoolAddr>, p: U16)
    requires p < |cfg| <= 0xFFFF
    ensures var k := FindEmpty(cfg, used, p);
      && (k.Err? ==> k.error == StoreFull(p))
      && (k.Ok? ==> SpillFrom(cfg, used, p) == Ok(StaticPoolAddr(p, k.value)))
      && (k.Err? && p + 1 == |cfg| ==> SpillFrom(cfg, used, p) == Err(k.error))
      && (k.Err? && p + 1 < |cfg| ==> SpillFrom(cfg, used, p) == SpillFrom(cfg, used, p + 1))
  {
  }

  /** Slot `t` comes before slot `s` in the order the pools search. */
  predicate Before(t: StaticPoolAddr, s: StaticPoolAddr) {
    t.poolIdx < s.poolIdx || (t.poolIdx == s.poolIdx && t.packetIdx < s.packetIdx)
  }

  lemma {:induction false} SpillFromLowest(cfg: seq<SubpoolConfig>, used: set<StaticPoolAddr>, p: U16)
    requires p < |cfg| && ValidLayout(cfg)
    ensures var r := SpillFrom(cfg, used, p);
      && (r.Ok? ==> IsSlot(cfg, r.value) && r.value !in used && p <= r.value.poolIdx)
      && (r.Err? ==> r.error == StoreFull(|cfg| - 1))
      && forall t | IsSlot(cfg, t) && p <= t.poolIdx && (r.Ok? ==> Before(t, r.value)) :: t in used
    decreases |cfg| - p
  {
    var free := FirstFree(cfg, used, p, 0);
    forall t | IsSlot(cfg, t) && t.poolIdx == p && (free.Some? ==> t.packetIdx < free.value)
      ensures t in used
    {
      assert t == StaticPoolAddr(p, t.packetIdx);
    }
    if free.None? && p + 1 < |cfg| {
      SpillFromLowest(cfg, used, p + 1);
    }
  }

  /**
   With spilling on an ascending layout, a reservation succeeds exactly when some slot with a
   large enough block is free, and then takes the first such slot in search order. When it
   fails, the error tells whether any block size would have fitted.
   */
  lemma ReserveIsFirstFittingFreeSlot(cfg: seq<SubpoolConfig>, used: set<StaticPoolAddr>, len: nat)
    requires ValidLayout(cfg) && Ascending(cfg)
    ensures var r := Choose(cfg, true, used, len);
      && (r.Ok? <==> exists s :: Fits(cfg, s, len) && s !in used)
      && (r.Ok? ==> Fits(cfg, r.value, len) && r.value !in used)
      && (r.Ok? ==> forall t | Fits(cfg, t, len) && Before(t, r.value) :: t in used)
      && (r.Err? ==> r.error == if exists i :: 0 <= i < |cfg| && len <= cfg[i].blockSize
                                then StoreFull(|cfg| - 1) else DataTooLarge(len))
  {
    var p := FirstFit(cfg, len, 0);
    if p.Some? {
      SpillFromLowest(cfg, used, p.value);
      forall t | Fits(cfg, t, len) ensures p.value <= t.poolIdx {
      }
      var r := Choose(cfg, true, used, len);
      if r.Ok? {
        assert Fits(cfg, r.value, len);
      } else {
        assert forall t | Fits(cfg, t, len) :: t in used;
      }
    }
  }

  /** Without spilling only the best fitting subpool is tried. */
  lemma ReserveWithoutSpillStaysInBestFit(cfg: seq<SubpoolConfig>, used: set<StaticPoolAddr>, len: nat)
    requires ValidLayout(cfg)
    ensures var r := Choose(cfg, false, used, len);
      && (r.Ok? ==> Fits(cfg, r.value, len) && r.value !in used
                    && forall i | 0 <= i < r.value.poolIdx :: cfg[i].blockSize < len)
      && (r.Ok? ==> forall t | IsSlot(cfg, t) && t.poolIdx == r.value.poolIdx && Before(t, r.value) :: t in used)
      && (r.Err? && r.error.StoreFull? ==>
            && r.error.subpool < |cfg| && len <= cfg[r.error.subpool].blockSize
            && (forall t | IsSlot(cfg, t) && t.poolIdx == r.error.subpool :: t in used)
            && (forall i | 0 <= i < r.error.subpool :: cfg[i].blockSize < len))
      && (r.Err? && !r.error.StoreFull? ==>
            r.error == DataTooLarge(len) && forall i | 0 <= i < |cfg| :: cfg[i].blockSize < len)
  {
    var p := FirstFit(cfg, len, 0);
    if p.Some? {
      var free := FirstFree(cfg, used, p.value, 0);
      forall t | IsSlot(cfg, t) && t.poolIdx == p.value && (free.Some? ==> t.packetIdx < free.value)
        ensures t in used
      {
        assert t == StaticPoolAddr(p.value, t.packetIdx);
      }
    }
  }

  ghost predicate AlwaysFits(cfg: seq<SubpoolConfig>, spill: bool)
    requires ValidLayout(cfg)
  {
    forall used, len :: Choose(cfg, spill, used, len).Ok? ==> Fits(cfg, Choose(cfg, spill, used, len).value, len)
  }

  /**
   The reserved block is large enough for every request and every occupancy exactly when the
   pool does not spill or its block sizes ascend. The second condition is what `sanitize`
   establishes for the heap pool and what the user of `grow` has to arrange.
   */
  lemma ReservedBlockFitsIff(cfg: seq<SubpoolConfig>, spill: bool)
    requires ValidLayout(cfg)
    ensures AlwaysFits(cfg, spill) <==> !spill || Ascending(cfg)
  {
    if !spill || Ascending(cfg) {
      forall used, len
        ensures Choose(cfg, spill, used, len).Ok? ==> Fits(cfg, Choose(cfg, spill, used, len).value, len)
      {
        if spill {
          ReserveIsFirstFittingFreeSlot(cfg, used, len);
        } else {
          ReserveWithoutSpillStaysInBestFit(cfg, used, len);
        }
      }
    } else {
      var i := Descent(cfg);
      var len := cfg[i].blockSize;
      var used := set p: U16, k: U16 | 0 <= p <= i && 0 <= k < cfg[p].numBlocks :: StaticPoolAddr(p, k);
      var f := FirstFit(cfg, len, 0);
      SpillFromLowest(cfg, used, f.value);
      var r := SpillFrom(cfg, used, f.value);
      var t := StaticPoolAddr(i + 1, 0);
      assert IsSlot(cfg, t) && t !in used;
      assert r.Ok?;
      assert r.value.poolIdx > i;
      assert !Before(t, r.value);
      assert !Fits(cfg, Choose(cfg, spill, used, len).value, len);
    }
  }

  lemma Descent(cfg: seq<SubpoolConfig>) returns (i: nat)
    requires !Ascending(cfg)
    ensures i + 1 < |cfg| && cfg[i + 1].blockSize < cfg[i].blockSize
  {
    var a, b :| 0 <= a < b < |cfg| && cfg[b].blockSize < cfg[a].blockSize;
    i := a;
    while cfg[i + 1].blockSize >= cfg[i].blockSize
      invariant a <= i < b && cfg[b].blockSize < cfg[i].blockSize
      decreases b - i
    {
      i := i + 1;
    }
  }
}
