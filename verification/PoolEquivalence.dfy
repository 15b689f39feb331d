/**
 The two pools side by side: driven by the same operations from the same abstract state they
 answer alike and end alike, because each is a refinement of the same runs.
 */
module PoolEquivalence {
  import opened Wrappers
  import opened PoolSpec
  import opened PoolRuns
  import opened PoolFlat
  import opened StaticPool
  import opened HeaplessPool

  method ReadHeap(pool: StaticMemoryPool, addr: PoolAddr, bufLen: nat) returns (r: Result<seq<Byte>>)
    requires pool.Valid()
    ensures r == Fetch(pool.Model(), addr, bufLen)
  {
    var buf := new Byte[bufLen];
    var n := pool.Read(addr, buf);
    r := if n.Ok? then Ok(buf[..n.value]) else Err(n.error);
  }

  method DropGuardHeap(pool: StaticMemoryPool, addr: PoolAddr, released: bool) returns (r: Result<()>)
    requires pool.Valid()
    modifies pool
    ensures pool.Valid() && (pool.Model(), Done(r)) == Apply(old(pool.Model()), DropGuard(addr, released))
  {
    hide ShapedSubpool, Ascending, ValidLayout, ValidPool, Abs, Layout;
    var guard := new PoolGuard(pool, addr);
    if released {
      guard.Release();
    }
    guard.Drop();
    r := match guard.deletionFailedError case Some(e) => Err(e) case None => Ok(());
  }

  /** One operation on the heap pool is one abstract step. */
  method StepHeap(pool: StaticMemoryPool, op: Op) returns (resp: Response)
    requires pool.Valid() && ValidOp(op)
    modifies pool
    ensures pool.Valid() && (pool.Model(), resp) == Apply(old(pool.Model()), op)
  {
    hide ShapedSubpool, Ascending, ValidLayout;
    match op {
      case Add(data) =>
        var r := pool.Add(data);
        resp := Stored(r);
      case FreeElement(len, writer) =>
        var r := pool.FreeElement(len, writer);
        resp := Stored(r);
      case Modify(addr, updater) =>
        var r := pool.Modify(addr, updater);
        resp := Done(r);
      case Read(addr, bufLen) =>
        var r := ReadHeap(pool, addr, bufLen);
        resp := Bytes(r);
      case Delete(addr) =>
        var r := pool.Delete(addr);
        resp := Done(r);
      case HasElementAt(addr) =>
        var r := pool.HasElementAt(addr);
        resp := Flag(r);
      case LenOfData(addr) =>
        var r := pool.LenOfData(addr);
        resp := Length(r);
      case DropGuard(addr, released) =>
        var r := DropGuardHeap(pool, addr, released);
        resp := Done(r);
    }
  }

  /** A heapless pool that has been grown, with clear memory and a layout it can reserve from. */
  ghost predicate Ready(pool: StaticHeaplessMemoryPool)
    reads pool
  {
    pool.Valid() && pool.CanReserve() && Zeroed(pool.View()) && pool.Model().cfg != []
  }

  lemma RoomForAll(pool: StaticHeaplessMemoryPool, len: nat)
    requires pool.Valid() && pool.CanReserve()
    ensures Roomy(pool.Model(), len)
  {
    AbsValid(pool.View());
    ReserveIsFresh(pool.Model(), len);
  }

  method ReadHeapless(pool: StaticHeaplessMemoryPool, addr: PoolAddr, bufLen: nat) returns (r: Result<seq<Byte>>)
    requires pool.Valid()
    ensures r == Fetch(pool.Model(), addr, bufLen)
  {
    var buf := new Byte[bufLen];
    var n := pool.Read(addr, buf);
    r := if n.Ok? then Ok(buf[..n.value]) else Err(n.error);
  }

  /** One operation on a ready heapless pool is the same abstract step. */
  method StepHeapless(pool: StaticHeaplessMemoryPool, op: Op) returns (resp: Response)
    requires Ready(pool) && ValidOp(op)
    modifies pool
    ensures Ready(pool) && (pool.Model(), resp) == Apply(old(pool.Model()), op)
  {
    hide ShapedSubpool, Ascending, HandedOut, Zeroed, ValidLayout, Choose;
    match op {
      case Add(data) =>
        RoomForAll(pool, |data|);
        var r := pool.Add(data);
        resp := Stored(r);
      case FreeElement(len, writer) =>
        RoomForAll(pool, len);
        HandedOutIsZero(pool.View(), len);
        var r := pool.FreeElement(len, writer);
        resp := Stored(r);
      case Modify(addr, updater) =>
        var r := pool.Modify(addr, updater);
        resp := Done(r);
      case Read(addr, bufLen) =>
        var r := ReadHeapless(pool, addr, bufLen);
        resp := Bytes(r);
      case Delete(addr) =>
        var r := pool.Delete(addr);
        resp := Done(r);
      case HasElementAt(addr) =>
        var r := pool.HasElementAt(addr);
        resp := Flag(r);
      case LenOfData(addr) =>
        var r := pool.LenOfData(addr);
        resp := Length(r);
      case DropGuard(addr, released) =>
        if released {
          resp := Done(Ok(()));
        } else {
          var r := pool.Delete(addr);
          resp := Done(r);
        }
    }
  }

  /** Grow a heapless pool to the layout of a heap pool that is still empty. */
  method GrowLike(heap: StaticMemoryPool) returns (heapless: StaticHeaplessMemoryPool)
    requires heap.Valid() && heap.Model().live == map[] && heap.cfg != []
    ensures fresh(heapless) && Ready(heapless) && heapless.Model() == heap.Model()
  {
    hide ShapedSubpool, Zeroed;
    assert |heap.cfg| <= 0xFFFF;
    heapless := new StaticHeaplessMemoryPool(|heap.cfg|, heap.spill);
    for i := 0 to |heap.cfg|
      invariant fresh(heapless) && heapless.Valid() && Zeroed(heapless.View()) && heapless.maxNumSubpools == |heap.cfg|
      invariant |heapless.pool| == i && heapless.Model() == Pool(heap.cfg[..i], heap.spill, map[])
    {
      var cfg := heap.cfg[i];
      var memory := Zeros(cfg.numBlocks * cfg.blockSize);
      WholeBlocks(cfg.numBlocks, cfg.blockSize);
      var r := heapless.Grow(memory, seq(cfg.numBlocks, _ => 0), cfg.numBlocks, true);
      assert heap.cfg[..i + 1] == heap.cfg[..i] + [cfg];
    }
    assert heap.cfg[..|heap.cfg|] == heap.cfg;
  }

  lemma WholeBlocks(n: nat, size: nat)
    requires n > 0
    ensures n * size % n == 0 && n * size / n == size
  {
    var q := n * size / n;
    assert n * size == q * n + n * size % n;
    RawPosIsProduct(q, n);
    RawPosIsProduct(size, n);
    if q < size {
      BlocksDisjoint(n, q, size);
    } else if size < q {
      BlocksDisjoint(n, size, q);
    }
  }

  lemma {:induction false} RunAppend(p: Pool, ops: seq<Op>, op: Op)
    requires ValidLayout(p.cfg)
    ensures var (q, rs) := Run(p, ops); Run(p, ops + [op]) == (Apply(q, op).0, rs + [Apply(q, op).1])
    decreases |ops|
  {
    if ops == [] {
      assert ops + [op] == [op] && [op][1..] == [];
      assert Run(Apply(p, op).0, []) == (Apply(p, op).0, []);
      assert [Apply(p, op).1] + [] == [] + [Apply(p, op).1];
    } else {
      var (q, r) := Apply(p, ops[0]);
      RunAppend(q, ops[1..], op);
      assert (ops + [op])[1..] == ops[1..] + [op];
      var (end, rest) := Run(q, ops[1..]);
      var last := Apply(end, op).1;
      assert [r] + (rest + [last]) == ([r] + rest) + [last];
    }
  }

  /** Any run on both pools from equal contents: equal answers throughout and equal contents after. */
  method RunBoth(heap: StaticMemoryPool, heapless: StaticHeaplessMemoryPool, ops: seq<Op>)
    returns (fromHeap: seq<Response>, fromHeapless: seq<Response>)
    requires heap.Valid() && Ready(heapless) && heap.Model() == heapless.Model()
    requires forall i | 0 <= i < |ops| :: ValidOp(ops[i])
    modifies heap, heapless
    ensures heap.Valid() && Ready(heapless)
    ensures fromHeap == fromHeapless && heap.Model() == heapless.Model()
    ensures (heap.Model(), fromHeap) == Run(old(heap.Model()), ops)
  {
    fromHeap, fromHeapless := [], [];
    ghost var start := heap.Model();
    for i := 0 to |ops|
      invariant heap.Valid() && Ready(heapless) && heap.Model() == heapless.Model()
      invariant fromHeap == fromHeapless
      invariant (heap.Model(), fromHeap) == Run(start, ops[..i])
    {
      RunAppend(start, ops[..i], ops[i]);
      assert ops[..i + 1] == ops[..i] + [ops[i]];
      var a := StepHeap(heap, ops[i]);
      var b := StepHeapless(heapless, ops[i]);
      fromHeap, fromHeapless := fromHeap + [a], fromHeapless + [b];
    }
    assert ops[..|ops|] == ops;
  }
}
