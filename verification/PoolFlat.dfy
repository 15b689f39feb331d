/**
 The flat representation both pools share: per subpool one byte buffer of `numBlocks *
 blockSize` bytes and one list of stored sizes. The lemmas carry block-level index arithmetic
 to updates of the abstract map.
 */
module PoolFlat {
  import opened Wrappers
  import opened PoolSpec
  import opened PoolRuns

  datatype Subpool = Subpool(cfg: SubpoolConfig, buf: seq<Byte>, sizes: seq<nat>)

  datatype Flat = Flat(spill: bool, subpools: seq<Subpool>)

  /** Start of block `k` in a buffer of blocks of `size` bytes, laid out one after the other. */
  function RawPos(k: nat, size: nat): nat {
    if k == 0 then 0 else RawPos(k - 1, size) + size
  }

  /** The pools compute the position with one multiplication. */
  lemma {:induction false} RawPosIsProduct(k: nat, size: nat)
    ensures RawPos(k, size) == k * size
  {
    if k > 0 {
      RawPosIsProduct(k - 1, size);
      assert (k - 1) * size + size == k * size;
    }
  }

  lemma {:induction false} BlocksDisjoint(size: nat, j: nat, k: nat)
    requires j < k
    ensures RawPos(j, size) + size <= RawPos(k, size)
    decreases k
  {
    if j + 1 < k {
      BlocksDisjoint(size, j, k - 1);
    }
  }

  lemma BlockInBuffer(n: nat, size: nat, k: nat)
    requires k < n
    ensures RawPos(k, size) + size <= RawPos(n, size)
  {
    BlocksDisjoint(size, k, n);
  }

  function Splice(buf: seq<Byte>, pos: nat, data: seq<Byte>): (r: seq<Byte>)
    requires pos + |data| <= |buf|
    ensures |r| == |buf|
    ensures forall i | 0 <= i < |buf| :: r[i] == if pos <= i < pos + |data| then data[i - pos] else buf[i]
  {
    buf[..pos] + data + buf[pos + |data|..]
  }

  // ------------------------------------------------------------ one subpool

  ghost predicate ShapedSubpool(b: Subpool) {
    && |b.buf| == RawPos(b.cfg.numBlocks, b.cfg.blockSize)
    && |b.sizes| == b.cfg.numBlocks
    && forall k | 0 <= k < |b.sizes| :: b.sizes[k] == STORE_FREE || b.sizes[k] <= b.cfg.blockSize
  }

  ghost function UsedLen(size: nat): nat {
    if size == STORE_FREE then 0 else size
  }

  ghost function BlockStart(b: Subpool, k: nat): (pos: nat)
    requires ShapedSubpool(b) && k < b.cfg.numBlocks
    ensures pos + b.cfg.blockSize <= |b.buf|
  {
    BlockInBuffer(b.cfg.numBlocks, b.cfg.blockSize, k);
    RawPos(k, b.cfg.blockSize)
  }

  /** What block `k` holds, `None` when it is free. */
  ghost function Cell(b: Subpool, k: nat): (r: Option<seq<Byte>>)
    requires ShapedSubpool(b) && k < b.cfg.numBlocks
    ensures r.Some? <==> b.sizes[k] != STORE_FREE
    ensures r.Some? ==> |r.value| == b.sizes[k] <= b.cfg.blockSize
  {
    if b.sizes[k] == STORE_FREE then None else Some(b.buf[BlockStart(b, k)..BlockStart(b, k) + b.sizes[k]])
  }

  /** The bytes of block `k` past its stored length are zero. */
  ghost predicate ZeroTail(b: Subpool, k: nat)
    requires ShapedSubpool(b) && k < b.cfg.numBlocks
  {
    forall i | BlockStart(b, k) + UsedLen(b.sizes[k]) <= i < BlockStart(b, k) + b.cfg.blockSize :: b.buf[i] == 0
  }

  /** Rewrite the start of block `k` and its size entry. */
  ghost function Rewrite(b: Subpool, k: nat, data: seq<Byte>, size: nat): Subpool
    requires ShapedSubpool(b) && k < b.cfg.numBlocks && |data| <= b.cfg.blockSize
  {
    b.(buf := Splice(b.buf, BlockStart(b, k), data), sizes := b.sizes[k := size])
  }

  /** Rewriting block `k` leaves what every other block holds, and its zero tail, alone. */
  lemma RewriteElsewhere(b: Subpool, k: nat, data: seq<Byte>, size: nat, j: nat)
    requires ShapedSubpool(b) && k < b.cfg.numBlocks && |data| <= b.cfg.blockSize
    requires size == STORE_FREE || size <= b.cfg.blockSize
    requires j < b.cfg.numBlocks && j != k
    ensures var b' := Rewrite(b, k, data, size);
      ShapedSubpool(b') && Cell(b', j) == Cell(b, j) && (ZeroTail(b, j) ==> ZeroTail(b', j))
  {
    var b' := Rewrite(b, k, data, size);
    var lo, hi := BlockStart(b, j), BlockStart(b, j) + b.cfg.blockSize;
    if j < k {
      BlocksDisjoint(b.cfg.blockSize, j, k);
    } else {
      BlocksDisjoint(b.cfg.blockSize, k, j);
    }
    assert forall i | lo <= i < hi :: b'.buf[i] == b.buf[i];
    assert BlockStart(b', j) == lo;
    if b.sizes[j] != STORE_FREE {
      assert b'.buf[lo..lo + b.sizes[j]] == b.buf[lo..lo + b.sizes[j]];
    }
  }

  lemma RewriteHere(b: Subpool, k: nat, data: seq<Byte>, size: nat)
    requires ShapedSubpool(b) && k < b.cfg.numBlocks && |data| <= b.cfg.blockSize < STORE_FREE
    requires size == |data| || (size == STORE_FREE && data == Zeros(b.cfg.blockSize))
    ensures var b' := Rewrite(b, k, data, size);
      && ShapedSubpool(b')
      && Cell(b', k) == (if size == STORE_FREE then None else Some(data))
      && (size == STORE_FREE || (ZeroTail(b, k) && UsedLen(b.sizes[k]) <= |data|) ==> ZeroTail(b', k))
  {
    var b' := Rewrite(b, k, data, size);
    var lo := BlockStart(b, k);
    assert BlockStart(b', k) == lo;
    assert b'.buf[lo..lo + |data|] == data;
  }

  // ------------------------------------------------------------ whole pools

  ghost function Layout(f: Flat): (r: seq<SubpoolConfig>)
    ensures |r| == |f.subpools| && forall i | 0 <= i < |r| :: r[i] == f.subpools[i].cfg
  {
    seq(|f.subpools|, i requires 0 <= i < |f.subpools| => f.subpools[i].cfg)
  }

  ghost predicate Shaped(f: Flat) {
    && ValidLayout(Layout(f))
    && forall i | 0 <= i < |f.subpools| :: ShapedSubpool(f.subpools[i])
  }

  ghost function Slots(cfg: seq<SubpoolConfig>): (r: set<StaticPoolAddr>)
    ensures forall s :: s in r <==> IsSlot(cfg, s)
  {
    var r := set p: U16, k: U16 | 0 <= p < |cfg| && 0 <= k < cfg[p].numBlocks :: StaticPoolAddr(p, k);
    assert forall s | IsSlot(cfg, s) :: s == StaticPoolAddr(s.poolIdx, s.packetIdx);
    r
  }

  ghost function Held(f: Flat, s: StaticPoolAddr): Option<seq<Byte>>
    requires Shaped(f) && IsSlot(Layout(f), s)
  {
    Cell(f.subpools[s.poolIdx], s.packetIdx)
  }

  /** The abstraction: which slots are in use and the bytes each of them holds. */
  ghost function Abs(f: Flat): (p: Pool)
    requires Shaped(f)
    ensures p.cfg == Layout(f) && p.spill == f.spill
    ensures forall s :: s in p.live <==> IsSlot(Layout(f), s) && Held(f, s).Some?
    ensures forall s | s in p.live :: Some(p.live[s]) == Held(f, s)
  {
    Pool(Layout(f), f.spill, map s | s in Slots(Layout(f)) && Held(f, s).Some? :: Held(f, s).value)
  }

  /** All bytes past the stored length of a block, and all bytes of a free block, are zero. */
  ghost predicate Zeroed(f: Flat)
    requires Shaped(f)
  {
    forall p, k | 0 <= p < |f.subpools| && 0 <= k < f.subpools[p].cfg.numBlocks :: ZeroTail(f.subpools[p], k)
  }

  ghost function Updated(f: Flat, s: StaticPoolAddr, data: seq<Byte>, size: nat): Flat
    requires Shaped(f) && Fits(Layout(f), s, |data|)
  {
    f.(subpools := f.subpools[s.poolIdx := Rewrite(f.subpools[s.poolIdx], s.packetIdx, data, size)])
  }

  lemma UpdatedAgrees(f: Flat, s: StaticPoolAddr, data: seq<Byte>, size: nat)
    requires Shaped(f) && Fits(Layout(f), s, |data|)
    requires size == |data| || (size == STORE_FREE && data == Zeros(Layout(f)[s.poolIdx].blockSize))
    ensures var g := Updated(f, s, data, size);
      && Shaped(g) && Layout(g) == Layout(f)
      && (forall t | IsSlot(Layout(f), t) && t != s :: Held(g, t) == Held(f, t))
      && Held(g, s) == (if size == STORE_FREE then None else Some(data))
      && (Zeroed(f) && (size == STORE_FREE || UsedLen(f.subpools[s.poolIdx].sizes[s.packetIdx]) <= |data|) ==>
        Zeroed(g))
  {
    var g := Updated(f, s, data, size);
    var p, k := s.poolIdx, s.packetIdx;
    var b := f.subpools[p];
    RewriteHere(b, k, data, size);
    forall j | 0 <= j < b.cfg.numBlocks && j != k
      ensures Cell(g.subpools[p], j) == Cell(b, j) && (ZeroTail(b, j) ==> ZeroTail(g.subpools[p], j))
    {
      RewriteElsewhere(b, k, data, size, j);
    }
    assert Layout(g) == Layout(f);
  }

  lemma AbsUnique(f: Flat, live: map<StaticPoolAddr, seq<Byte>>)
    requires Shaped(f)
    requires forall s :: s in live <==> IsSlot(Layout(f), s) && Held(f, s).Some?
    requires forall s | s in live :: Some(live[s]) == Held(f, s)
    ensures Abs(f).live == live
  {
    forall s | s in live ensures s in Abs(f).live && Abs(f).live[s] == live[s] {
    }
  }

  /** Writing `data` into a block is an update of the abstract map at that slot and nowhere else. */
  lemma PutRefines(f: Flat, s: StaticPoolAddr, data: seq<Byte>)
    requires Shaped(f) && Fits(Layout(f), s, |data|)
    ensures var g := Updated(f, s, data, |data|);
      && Shaped(g) && Abs(g) == Abs(f).(live := Abs(f).live[s := data])
      && (Zeroed(f) && UsedLen(f.subpools[s.poolIdx].sizes[s.packetIdx]) <= |data| ==> Zeroed(g))
  {
    UpdatedAgrees(f, s, data, |data|);
    AbsUnique(Updated(f, s, data, |data|), Abs(f).live[s := data]);
  }

  lemma DeleteRefines(f: Flat, s: StaticPoolAddr)
    requires Shaped(f) && IsSlot(Layout(f), s)
    ensures var g := Updated(f, s, Zeros(Layout(f)[s.poolIdx].blockSize), STORE_FREE);
      && Shaped(g) && Abs(g) == Abs(f).(live := Abs(f).live - {s})
      && (Zeroed(f) ==> Zeroed(g))
  {
    var data := Zeros(Layout(f)[s.poolIdx].blockSize);
    UpdatedAgrees(f, s, data, STORE_FREE);
    AbsUnique(Updated(f, s, data, STORE_FREE), Abs(f).live - {s});
  }

  /** Change one size entry only. */
  ghost function Resized(f: Flat, s: StaticPoolAddr, size: nat): Flat
    requires Shaped(f) && IsSlot(Layout(f), s)
  {
    var b := f.subpools[s.poolIdx];
    f.(subpools := f.subpools[s.poolIdx := b.(sizes := b.sizes[s.packetIdx := size])])
  }

  /** Setting the size entry and then writing the block is one update of the slot. */
  lemma ResizeThenWrite(f: Flat, s: StaticPoolAddr, data: seq<Byte>, size: nat)
    requires Shaped(f) && Fits(Layout(f), s, |data|)
    requires size == STORE_FREE || size <= Layout(f)[s.poolIdx].blockSize
    ensures var g := Resized(f, s, size);
      Shaped(g) && Layout(g) == Layout(f) && Updated(g, s, data, size) == Updated(f, s, data, size)
  {
    var g := Resized(f, s, size);
    assert Layout(g) == Layout(f);
    forall i | 0 <= i < |g.subpools| ensures ShapedSubpool(g.subpools[i]) {
    }
    var b, c := f.subpools[s.poolIdx], g.subpools[s.poolIdx];
    assert c.sizes[s.packetIdx := size] == b.sizes[s.packetIdx := size];
    assert Rewrite(c, s.packetIdx, data, size) == Rewrite(b, s.packetIdx, data, size);
    assert Updated(g, s, data, size).subpools == Updated(f, s, data, size).subpools;
  }

  /** Every flat pool of the right shape abstracts to a valid pool. */
  lemma AbsValid(f: Flat)
    requires Shaped(f) && (f.spill ==> Ascending(Layout(f)))
    ensures ValidPool(Abs(f))
  {
    forall s | s in Abs(f).live ensures Fits(Layout(f), s, |Abs(f).live[s]|) {
      assert Held(f, s) == Some(Abs(f).live[s]);
    }
  }

  /** What a writer is handed when it reserves `len` bytes. */
  ghost function HandedOut(f: Flat, len: nat): (r: seq<Byte>)
    requires Shaped(f) && Roomy(Abs(f), len)
    ensures |r| == len
  {
    match Reserve(Abs(f), len)
    case Err(_) => Zeros(len)
    case Ok(s) =>
      var b := f.subpools[s.poolIdx];
      b.buf[BlockStart(b, s.packetIdx)..BlockStart(b, s.packetIdx) + len]
  }

  /** In a zeroed pool a writer always starts from a block of zeros. */
  lemma HandedOutIsZero(f: Flat, len: nat)
    requires Shaped(f) && Roomy(Abs(f), len) && Zeroed(f)
    ensures HandedOut(f, len) == Zeros(len)
  {
    ChosenIsFree(Abs(f), len);
    var r := Reserve(Abs(f), len);
    if r.Ok? {
      var b, k := f.subpools[r.value.poolIdx], r.value.packetIdx;
      assert Held(f, r.value).None?;
      assert ZeroTail(b, k);
      assert b.buf[BlockStart(b, k)..BlockStart(b, k) + len] == Zeros(len);
    }
  }

  // -------------------------------------------------- refinement, per call

  /** The entries of a sizes list are the slots in use, so a scan of it finds the lowest free slot. */
  lemma ScanIsFirstFree(f: Flat, p: U16, r: Option<nat>)
    requires Shaped(f) && p < |f.subpools|
    requires var sizes := f.subpools[p].sizes;
      && (r.Some? ==> r.value < |sizes| && sizes[r.value] == STORE_FREE)
      && forall k | 0 <= k < (if r.Some? then r.value else |sizes|) :: sizes[k] != STORE_FREE
    ensures FirstFree(Layout(f), Abs(f).live.Keys, p, 0) == r
  {
    var sizes := f.subpools[p].sizes;
    forall k: U16 | k < |sizes| ensures StaticPoolAddr(p, k) in Abs(f).live <==> sizes[k] != STORE_FREE {
      assert IsSlot(Layout(f), StaticPoolAddr(p, k));
    }
  }

  /** Index of the first free entry of a sizes list, if any. */
  method FirstFreeEntry(sizes: seq<nat>) returns (r: Option<nat>)
    ensures r.Some? ==> r.value < |sizes| && sizes[r.value] == STORE_FREE
    ensures forall k | 0 <= k < (if r.Some? then r.value else |sizes|) :: sizes[k] != STORE_FREE
  {
    for i := 0 to |sizes|
      invariant forall k | 0 <= k < i :: sizes[k] != STORE_FREE
    {
      if sizes[i] == STORE_FREE {
        return Some(i);
      }
    }
    return None;
  }

  /** Writing `bytes` to the slot a reservation picks is the abstract `Store`. */
  lemma StoreRefines(f: Flat, s: StaticPoolAddr, bytes: seq<Byte>)
    requires Shaped(f) && Reserve(Abs(f), |bytes|) == Ok(s) && Fits(Layout(f), s, |bytes|)
    ensures var g := Updated(f, s, bytes, |bytes|);
      && Shaped(g) && Layout(g) == Layout(f) && (Zeroed(f) ==> Zeroed(g))
      && (Abs(g), Ok(Encode(s))) == Store(Abs(f), bytes)
  {
    ChosenIsFree(Abs(f), |bytes|);
    assert Held(f, s).None?;
    PutRefines(f, s, bytes);
  }

  /** Rewriting a slot in use with as many bytes is the abstract `modify`. */
  lemma ModifyRefines(f: Flat, s: StaticPoolAddr, bytes: seq<Byte>)
    requires Shaped(f) && s in Abs(f).live && |bytes| == |Abs(f).live[s]|
    ensures Fits(Layout(f), s, |bytes|)
    ensures var g := Updated(f, s, bytes, |bytes|);
      && Shaped(g) && Layout(g) == Layout(f) && (Zeroed(f) ==> Zeroed(g))
      && Abs(g) == Abs(f).(live := Abs(f).live[s := bytes])
  {
    assert Held(f, s) == Some(Abs(f).live[s]);
    PutRefines(f, s, bytes);
  }
}
