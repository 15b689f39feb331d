/**
 Sequence counters, alone and shared between threads, and the telemetry sink that numbers
 packets per APID and per service.
 */
module Counters {
  import opened Wrappers

  const MAX_SEQ_COUNT: nat := 0x3FFF
  const MAX_U16: nat := 0xFFFF

  /** The value after `v`, wrapping to zero at `max`. */
  function Next(v: nat, max: nat): (r: nat)
    ensures v <= max ==> r <= max
  {
    if v == max then 0 else v + 1
  }

  function Iterate(v: nat, max: nat, k: nat): nat {
    if k == 0 then v else Next(Iterate(v, max, k - 1), max)
  }

  /** Counting up with a wrap at `max` is counting modulo `max + 1`. */
  lemma {:induction false} IterateIsModular(v: nat, max: nat, k: nat)
    requires v <= max
    ensures Iterate(v, max, k) == (v + k) % (max + 1)
  {
    if k == 0 {
      SmallMod(v, max + 1);
    } else {
      IterateIsModular(v, max, k - 1);
      ModSuccessor(v + k - 1, max + 1);
    }
  }

  lemma SmallMod(v: nat, m: nat)
    requires v < m
    ensures v % m == v
  {
  }

  lemma ModSuccessor(a: nat, m: nat)
    requires m > 0
    ensures (a + 1) % m == if a % m == m - 1 then 0 else a % m + 1
  {
    var q, r := a / m, a % m;
    assert a == q * m + r;
    if r == m - 1 {
      assert a + 1 == (q + 1) * m;
      ModOfMultiple(q + 1, 0, m);
    } else {
      assert a + 1 == q * m + (r + 1);
      ModOfMultiple(q, r + 1, m);
    }
  }

  lemma ModOfMultiple(q: nat, r: nat, m: nat)
    requires r < m
    ensures (q * m + r) % m == r
  {
    var a := q * m + r;
    DivisionIsUnique(q, r, a / m, a % m, m);
  }

  lemma {:induction false} DivisionIsUnique(q: nat, r: nat, q': nat, r': nat, m: nat)
    requires r < m && r' < m && q * m + r == q' * m + r'
    ensures q == q' && r == r'
    decreases q
  {
    if q == 0 {
      if q' > 0 {
        AtLeastOnce(q', m);
      }
    } else if q' == 0 {
      AtLeastOnce(q, m);
    } else {
      assert q * m == (q - 1) * m + m && q' * m == (q' - 1) * m + m;
      DivisionIsUnique(q - 1, r, q' - 1, r', m);
    }
  }

  lemma AtLeastOnce(q: nat, m: nat)
    requires q >= 1
    ensures q * m >= m
  {
    assert q * m == (q - 1) * m + m;
  }

  // -------------------------------------------------------- one counter

  /** `SeqCountProviderSimple`; with `MAX_SEQ_COUNT` also `CcsdsSimpleSeqCountProvider`. */
  class SeqCountProviderSimple {
    var seqCount: nat
    const maxVal: nat

    ghost predicate Valid()
      reads this
    {
      seqCount <= maxVal
    }

    constructor (maxVal: nat)
      ensures Valid() && this.maxVal == maxVal && seqCount == 0
    {
      this.seqCount := 0;
      this.maxVal := maxVal;
    }

    method GetAndIncrement() returns (v: nat)
      requires Valid()
      modifies this
      ensures Valid() && v == old(seqCount) && seqCount == Next(old(seqCount), maxVal)
    {
      var currCount := seqCount;
      if currCount == maxVal {
        seqCount := 0;
      } else {
        seqCount := currCount + 1;
      }
      v := currCount;
    }

    method Increment()
      requires Valid()
      modifies this
      ensures Valid() && seqCount == Next(old(seqCount), maxVal)
    {
      var _ := GetAndIncrement();
    }
  }

  // ------------------------------------------- shared between threads

  /** The mutex-guarded counter: `poisoned` says whether taking the lock fails. */
  class SeqCountProviderSync {
    var counter: nat
    const maxVal: nat
    var poisoned: bool

    ghost predicate Valid()
      reads this
    {
      counter <= maxVal
    }

    constructor (maxVal: nat)
      ensures Valid() && this.maxVal == maxVal && counter == 0 && !poisoned
    {
      this.counter := 0;
      this.maxVal := maxVal;
      this.poisoned := false;
    }

    /** One critical section. With a poisoned lock it yields 0 and counts nothing. */
    method GetAndIncrement() returns (v: nat)
      requires Valid()
      modifies this`counter
      ensures Valid()
      ensures poisoned ==> v == 0 && counter == old(counter)
      ensures !poisoned ==> v == old(counter) && counter == Next(old(counter), maxVal)
    {
      if poisoned {
        return 0;
      }
      v := counter;
      if v == maxVal {
        counter := 0;
      } else {
        counter := counter + 1;
      }
    }
  }

  // ------------------------------------------- threads that share a counter

  /** Where a thread is within a call: outside, holding the lock, with the count read, with it written back. */
  datatype Pc = Outside | Locked | Loaded(v: nat) | Stored(v: nat)

  /** The counter, its lock, where each thread is, and the values handed out so far, with the thread. */
  datatype Shared = Shared(counter: nat, max: nat, holder: Option<nat>, pcs: map<nat, Pc>, handedOut: seq<(nat, nat)>)

  /** One step of one thread. */
  datatype Step = Lock(thread: nat) | Load(thread: nat) | Store(thread: nat) | Unlock(thread: nat)

  function PcOf(s: Shared, t: nat): Pc {
    if t in s.pcs then s.pcs[t] else Outside
  }

  predicate Enabled(s: Shared, step: Step) {
    match step
    case Lock(t) => PcOf(s, t) == Outside && s.holder == None
    case Load(t) => PcOf(s, t) == Locked
    case Store(t) => PcOf(s, t).Loaded?
    case Unlock(t) => PcOf(s, t).Stored?
  }

  function Perform(s: Shared, step: Step): Shared
    requires Enabled(s, step)
  {
    match step
    case Lock(t) => s.(holder := Some(t), pcs := s.pcs[t := Locked])
    case Load(t) => s.(pcs := s.pcs[t := Loaded(s.counter)])
    case Store(t) => s.(counter := Next(PcOf(s, t).v, s.max), pcs := s.pcs[t := Stored(PcOf(s, t).v)])
    case Unlock(t) => s.(holder := None, pcs := s.pcs[t := Outside], handedOut := s.handedOut + [(t, PcOf(s, t).v)])
  }

  /** Only the holder of the lock is inside, and the count is that of the values handed out. */
  ghost predicate SharedInv(start: nat, s: Shared) {
    var now := Iterate(start, s.max, |s.handedOut|);
    && (forall t: nat | PcOf(s, t) != Outside :: s.holder == Some(t))
    && (forall i | 0 <= i < |s.handedOut| :: s.handedOut[i].1 == Iterate(start, s.max, i))
    && match s.holder
       case None => s.counter == now
       case Some(t) =>
         match PcOf(s, t)
         case Outside => false
         case Locked => s.counter == now
         case Loaded(v) => v == s.counter == now
         case Stored(v) => v == now && s.counter == Next(now, s.max)
  }

  lemma StepKeepsShared(start: nat, s: Shared, step: Step)
    requires SharedInv(start, s) && Enabled(s, step)
    ensures SharedInv(start, Perform(s, step)) && Perform(s, step).max == s.max
  {
    var s' := Perform(s, step);
    forall t: nat | PcOf(s', t) != Outside ensures s'.holder == Some(t) {
      assert t != step.thread ==> PcOf(s', t) == PcOf(s, t);
    }
  }

  /** Any interleaving of the steps of any threads. */
  ghost predicate IsRun(states: seq<Shared>, steps: seq<Step>) {
    && |states| == |steps| + 1
    && forall i | 0 <= i < |steps| :: Enabled(states[i], steps[i]) && states[i + 1] == Perform(states[i], steps[i])
  }

  /** The call of the class is what its four steps amount to when no other thread comes in between. */
  lemma CallIsFourSteps(s: Shared, t: nat) returns (states: seq<Shared>)
    requires s.holder == None && PcOf(s, t) == Outside
    ensures IsRun(states, [Lock(t), Load(t), Store(t), Unlock(t)]) && states[0] == s
    ensures var s' := states[4];
      && s'.counter == Next(s.counter, s.max) && s'.handedOut == s.handedOut + [(t, s.counter)]
      && s'.holder == None && forall u: nat :: PcOf(s', u) == PcOf(s, u)
  {
    var s1 := Perform(s, Lock(t));
    var s2 := Perform(s1, Load(t));
    var s3 := Perform(s2, Store(t));
    states := [s, s1, s2, s3, Perform(s3, Unlock(t))];
  }

  /** A counter with a count within its maximum that no thread is using. */
  ghost predicate Unused(s: Shared) {
    s.counter <= s.max && s.holder == None && s.handedOut == [] && forall t: nat :: PcOf(s, t) == Outside
  }

  lemma {:induction false} RunKeepsShared(states: seq<Shared>, steps: seq<Step>, k: nat)
    requires IsRun(states, steps) && Unused(states[0]) && k < |states|
    ensures SharedInv(states[0].counter, states[k]) && states[k].max == states[0].max
  {
    if k > 0 {
      RunKeepsShared(states, steps, k - 1);
      StepKeepsShared(states[0].counter, states[k - 1], steps[k - 1]);
    }
  }

  /**
   In every interleaving of any threads, never more than one of them is in the critical section,
   and the `i`-th value handed out is the start value plus `i`, modulo `max + 1`, whichever thread
   gets it.
   */
  lemma ThreadsCountInOrder(states: seq<Shared>, steps: seq<Step>, k: nat)
    requires IsRun(states, steps) && Unused(states[0]) && k < |states|
    ensures forall t: nat, u: nat | PcOf(states[k], t) != Outside && PcOf(states[k], u) != Outside :: t == u
    ensures forall i | 0 <= i < |states[k].handedOut| ::
      states[k].handedOut[i].1 == (states[0].counter + i) % (states[0].max + 1)
  {
    RunKeepsShared(states, steps, k);
    forall i | 0 <= i < |states[k].handedOut|
      ensures states[k].handedOut[i].1 == (states[0].counter + i) % (states[0].max + 1)
    {
      IterateIsModular(states[0].counter, states[0].max, i);
    }
  }

  /**
   Any `max + 1` consecutive values handed out in any interleaving are pairwise different, and the
   one after them is the first of them again.
   */
  lemma WindowIsDistinct(states: seq<Shared>, steps: seq<Step>, k: nat, i: nat, j: nat)
    requires IsRun(states, steps) && Unused(states[0]) && k < |states| && i < j < |states[k].handedOut|
    ensures j <= i + states[0].max ==> states[k].handedOut[i].1 != states[k].handedOut[j].1
    ensures j == i + states[0].max + 1 ==> states[k].handedOut[i].1 == states[k].handedOut[j].1
  {
    ThreadsCountInOrder(states, steps, k);
    var start, max := states[0].counter, states[0].max;
    if j <= i + max {
      ResiduesDiffer(start, max, i, j);
    } else if j == i + max + 1 {
      ResiduesRepeat(start, max, i);
    }
  }

  /** Different numbers with the same residue are at least the modulus apart. */
  lemma SameResidueFarApart(a: nat, b: nat, m: nat)
    requires m > 0 && a < b && a % m == b % m
    ensures b - a >= m
  {
    var d := b / m - a / m;
    assert b == b / m * m + b % m && a == a / m * m + a % m;
    assert b - a == d * m;
    if d <= 0 {
      NotPositive(d, m);
      assert false;
    }
    AtLeastOnce(d, m);
  }

  lemma NotPositive(d: int, m: nat)
    requires d <= 0
    ensures d * m <= 0
  {
  }

  lemma ResiduesDiffer(start: nat, max: nat, i: nat, j: nat)
    requires i < j <= i + max
    ensures (start + i) % (max + 1) != (start + j) % (max + 1)
  {
    if (start + i) % (max + 1) == (start + j) % (max + 1) {
      SameResidueFarApart(start + i, start + j, max + 1);
      assert false;
    }
  }

  lemma ResiduesRepeat(start: nat, max: nat, i: nat)
    ensures (start + i) % (max + 1) == (start + i + (max + 1)) % (max + 1)
  {
    var m, a := max + 1, start + i;
    assert a + m == (a / m + 1) * m + a % m;
    ModOfMultiple(a / m + 1, a % m, m);
  }

  // -------------------------------------------------- the telemetry sink

  datatype Packet = Packet(apid: nat, service: nat, seqCount: nat, msgCount: nat)

  function ApidCount(stream: seq<Packet>, apid: nat): nat {
    if stream == [] then 0
    else ApidCount(stream[..|stream| - 1], apid) + if stream[|stream| - 1].apid == apid then 1 else 0
  }

  function ServiceCount(stream: seq<Packet>, service: nat): nat {
    if stream == [] then 0
    else ServiceCount(stream[..|stream| - 1], service) + if stream[|stream| - 1].service == service then 1 else 0
  }

  class TmFunnelCommon {
    var seqCounterMap: map<nat, nat>
    var msgCounterMap: map<nat, nat>

    constructor ()
      ensures Tracks([])
    {
      seqCounterMap := map[];
      msgCounterMap := map[];
    }

    /** The counters reflect that exactly the packets of `stream` have gone through. */
    ghost predicate Tracks(stream: seq<Packet>)
      reads this
    {
      && (forall apid: nat :: SeqCounter(apid) == ApidCount(stream, apid) % (MAX_SEQ_COUNT + 1))
      && (forall service: nat :: MsgCounter(service) == ServiceCount(stream, service) % (MAX_U16 + 1))
    }

    function SeqCounter(apid: nat): nat
      reads this
    {
      if apid in seqCounterMap then seqCounterMap[apid] else 0
    }

    function MsgCounter(service: nat): nat
      reads this
    {
      if service in msgCounterMap then msgCounterMap[service] else 0
    }

    /** Number one packet with its APID's next sequence count and its service's next message count. */
    method ApplyPacketProcessing(p: Packet, ghost stream: seq<Packet>) returns (q: Packet)
      requires Tracks(stream)
      modifies this
      ensures Tracks(stream + [p])
      ensures q == p.(seqCount := ApidCount(stream, p.apid) % (MAX_SEQ_COUNT + 1),
                      msgCount := ServiceCount(stream, p.service) % (MAX_U16 + 1))
    {
      assert (stream + [p])[..|stream|] == stream;
      ModSuccessor(ApidCount(stream, p.apid), MAX_SEQ_COUNT + 1);
      ModSuccessor(ServiceCount(stream, p.service), MAX_U16 + 1);
      var seqCount := SeqCounter(p.apid);
      seqCounterMap := seqCounterMap[p.apid := Next(seqCount, MAX_SEQ_COUNT)];
      var entry := MsgCounter(p.service);
      if entry == MAX_U16 {
        msgCounterMap := msgCounterMap[p.service := 0];
      } else {
        msgCounterMap := msgCounterMap[p.service := entry + 1];
      }
      q := p.(seqCount := seqCount, msgCount := entry);
    }

    /**
     Any interleaved stream: a packet that is the `k`-th of its APID (from 0) gets sequence
     count `k` modulo 2^14, and one that is the `k`-th of its service message count `k` modulo
     2^16, whatever else is in the stream.
     */
    method Funnel(stream: seq<Packet>) returns (out: seq<Packet>)
      requires Tracks([])
      modifies this
      ensures Tracks(stream) && |out| == |stream|
      ensures forall i | 0 <= i < |stream| ::
        out[i] == stream[i].(seqCount := ApidCount(stream[..i], stream[i].apid) % (MAX_SEQ_COUNT + 1),
                             msgCount := ServiceCount(stream[..i], stream[i].service) % (MAX_U16 + 1))
    {
      hide ApidCount, ServiceCount, TmFunnelCommon.Tracks;
      out := [];
      for n := 0 to |stream|
        invariant Tracks(stream[..n]) && |out| == n
        invariant forall i | 0 <= i < n ::
          out[i] == stream[i].(seqCount := ApidCount(stream[..i], stream[i].apid) % (MAX_SEQ_COUNT + 1),
                               msgCount := ServiceCount(stream[..i], stream[i].service) % (MAX_U16 + 1))
      {
        assert stream[..n + 1] == stream[..n] + [stream[n]];
        var q := ApplyPacketProcessing(stream[n], stream[..n]);
        out := out + [q];
      }
      assert stream[..|stream|] == stream;
    }
  }

  /** The packets of one APID, in order. */
  function OfApid(stream: seq<Packet>, apid: nat): seq<Packet> {
    if stream == [] then []
    else OfApid(stream[..|stream| - 1], apid) + if stream[|stream| - 1].apid == apid then [stream[|stream| - 1]] else []
  }

  /** Other streams do not matter: the count of an APID is the length of its own substream. */
  lemma {:induction false} CountIsOwnLength(stream: seq<Packet>, apid: nat)
    ensures ApidCount(stream, apid) == |OfApid(stream, apid)|
  {
    if stream != [] {
      CountIsOwnLength(stream[..|stream| - 1], apid);
    }
  }

  /** A receiver of one APID sees the counts 0, 1, 2, ... modulo 2^14, with no gap and no repeat. */
  lemma {:induction false} SubstreamIsNumbered(out: seq<Packet>, apid: nat, k: nat)
    requires forall i | 0 <= i < |out| :: out[i].seqCount == ApidCount(out[..i], out[i].apid) % (MAX_SEQ_COUNT + 1)
    requires k < |OfApid(out, apid)|
    ensures OfApid(out, apid)[k].seqCount == k % 0x4000
    decreases |out|
  {
    var init := out[..|out| - 1];
    CountIsOwnLength(init, apid);
    assert forall i | 0 <= i < |init| :: init[..i] == out[..i];
    if k < |OfApid(init, apid)| {
      SubstreamIsNumbered(init, apid, k);
    }
  }

  /** The packets of one service, in order. */
  function OfService(stream: seq<Packet>, service: nat): seq<Packet> {
    if stream == [] then []
    else
      var last := stream[|stream| - 1];
      OfService(stream[..|stream| - 1], service) + if last.service == service then [last] else []
  }

  lemma {:induction false} ServiceCountIsOwnLength(stream: seq<Packet>, service: nat)
    ensures ServiceCount(stream, service) == |OfService(stream, service)|
  {
    if stream != [] {
      ServiceCountIsOwnLength(stream[..|stream| - 1], service);
    }
  }

  /** The same for the packets of one service and their message counts, modulo 2^16. */
  lemma {:induction false} ServiceIsNumbered(out: seq<Packet>, service: nat, k: nat)
    requires forall i | 0 <= i < |out| :: out[i].msgCount == ServiceCount(out[..i], out[i].service) % (MAX_U16 + 1)
    requires k < |OfService(out, service)|
    ensures OfService(out, service)[k].msgCount == k % 0x1_0000
    decreases |out|
  {
    var init := out[..|out| - 1];
    ServiceCountIsOwnLength(init, service);
    assert forall i | 0 <= i < |init| :: init[..i] == out[..i];
    if k < |OfService(init, service)| {
      ServiceIsNumbered(init, service, k);
    }
  }
}
