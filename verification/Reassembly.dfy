/**
 File contents as byte strings: what a write at an offset does, what a set of file segments
 assembles to in any order, and the modular checksum of section 4.2.2 of CCSDS 727.0-B-5.
 */
module Reassembly {

  newtype U8 = x: int | 0 <= x < 0x100

  datatype Segment = Segment(offset: nat, data: seq<U8>)

  /** Byte `i` of a file, zero past its end. */
  function At(f: seq<U8>, i: nat): U8 {
    if i < |f| then f[i] else 0
  }

  function Max(a: nat, b: nat): nat {
    if a < b then b else a
  }

  /** Seek and write: a gap before the data reads as zeros, an empty write changes nothing. */
  function WriteAt(f: seq<U8>, offset: nat, data: seq<U8>): (r: seq<U8>)
    ensures data == [] ==> r == f
    ensures data != [] ==> |r| == Max(|f|, offset + |data|)
    ensures forall i: nat :: At(r, i) == if offset <= i < offset + |data| then data[i - offset] else At(f, i)
  {
    if data == [] then f
    else
      seq(Max(|f|, offset + |data|), i requires 0 <= i =>
        if offset <= i < offset + |data| then data[i - offset] else At(f, i))
  }

  // ------------------------------------------------------- sets of segments

  predicate Covers(s: Segment, i: nat) {
    s.offset <= i < s.offset + |s.data|
  }

  ghost predicate Covered(segs: seq<Segment>, i: nat) {
    exists k :: 0 <= k < |segs| && Covers(segs[k], i)
  }

  ghost predicate Disjoint(segs: seq<Segment>) {
    forall j, k, i: nat | 0 <= j < k < |segs| :: !(Covers(segs[j], i) && Covers(segs[k], i))
  }

  /** The segments are pieces of `src` that leave no byte of it out; they may overlap or repeat. */
  ghost predicate Covering(src: seq<U8>, segs: seq<Segment>) {
    && (forall k | 0 <= k < |segs| :: PieceOf(src, segs[k]))
    && (forall i | 0 <= i < |src| :: Covered(segs, i))
  }

  /** And they do not overlap. */
  ghost predicate Partition(src: seq<U8>, segs: seq<Segment>) {
    Covering(src, segs) && Disjoint(segs)
  }

  ghost predicate PieceOf(src: seq<U8>, s: Segment) {
    s.offset + |s.data| <= |src| && s.data == src[s.offset..s.offset + |s.data|]
  }

  /** The file after the segments have been written one after the other to an empty file. */
  function Assembled(segs: seq<Segment>): seq<U8> {
    if segs == [] then []
    else
      var last := segs[|segs| - 1];
      WriteAt(Assembled(segs[..|segs| - 1]), last.offset, last.data)
  }

  function TotalLength(segs: seq<Segment>): nat {
    if segs == [] then 0 else TotalLength(segs[..|segs| - 1]) + |segs[|segs| - 1].data|
  }

  /** Pieces of a file assemble to that file wherever they reach, and to zeros elsewhere. */
  lemma {:induction false} AssembledIsSource(src: seq<U8>, segs: seq<Segment>, i: nat)
    requires forall k | 0 <= k < |segs| :: PieceOf(src, segs[k])
    ensures |Assembled(segs)| <= |src|
    ensures At(Assembled(segs), i) ==
      if Covered(segs, i) then At(src, i) else 0
  {
    if segs != [] {
      var init, last := segs[..|segs| - 1], segs[|segs| - 1];
      AssembledIsSource(src, init, i);
      if Covers(last, i) {
        assert last.data[i - last.offset] == src[i];
        assert Covers(segs[|segs| - 1], i);
      } else if Covered(init, i) {
        var k :| 0 <= k < |init| && Covers(init[k], i);
        assert Covers(segs[k], i);
      } else if Covered(segs, i) {
        var k :| 0 <= k < |segs| && Covers(segs[k], i);
        assert k == |segs| - 1 || Covers(init[k], i);
      }
    }
  }

  lemma {:induction false} AssembledReaches(segs: seq<Segment>, i: nat)
    requires Covered(segs, i)
    ensures i < |Assembled(segs)|
  {
    var init, last := segs[..|segs| - 1], segs[|segs| - 1];
    if !Covers(last, i) {
      var k :| 0 <= k < |segs| && Covers(segs[k], i);
      assert Covers(init[k], i);
      AssembledReaches(init, i);
    }
  }

  ghost function Range(lo: nat, n: nat): (r: set<nat>)
    ensures |r| == n && forall i: nat :: i in r <==> lo <= i < lo + n
  {
    if n == 0 then {} else Range(lo, n - 1) + {lo + n - 1}
  }

  /** Segments cover at most as many bytes as they are long, and exactly as many if they are disjoint. */
  lemma {:induction false} LengthsCover(segs: seq<Segment>) returns (covered: set<nat>)
    ensures forall i: nat :: i in covered <==> Covered(segs, i)
    ensures |covered| <= TotalLength(segs) && (|covered| == TotalLength(segs) <==> Disjoint(segs))
  {
    if segs == [] {
      covered := {};
    } else {
      var init, last := segs[..|segs| - 1], segs[|segs| - 1];
      var before := LengthsCover(init);
      var added := Range(last.offset, |last.data|);
      covered := before + added;
      OneMoreCovers(segs);
      assert |covered| == |before| + |added| - |before * added|;
      OneMoreDisjoint(segs, before);
      assert before * added == {} <==> forall i: nat | i in before :: !Covers(last, i);
    }
  }

  lemma OneMoreCovers(segs: seq<Segment>)
    requires segs != []
    ensures forall i: nat :: Covered(segs, i) <==> Covered(segs[..|segs| - 1], i) || Covers(segs[|segs| - 1], i)
  {
    var init, last := segs[..|segs| - 1], segs[|segs| - 1];
    forall i: nat ensures Covered(segs, i) <==> Covered(init, i) || Covers(last, i) {
      if Covered(init, i) {
        var k :| 0 <= k < |init| && Covers(init[k], i);
        assert Covers(segs[k], i);
      }
      if Covers(last, i) {
        assert Covers(segs[|segs| - 1], i);
      }
      if Covered(segs, i) {
        var k :| 0 <= k < |segs| && Covers(segs[k], i);
        assert k < |init| ==> Covers(init[k], i);
      }
    }
  }

  lemma OneMoreDisjoint(segs: seq<Segment>, before: set<nat>)
    requires segs != [] && forall i: nat :: i in before <==> Covered(segs[..|segs| - 1], i)
    ensures Disjoint(segs) <==>
      Disjoint(segs[..|segs| - 1]) && forall i: nat | i in before :: !Covers(segs[|segs| - 1], i)
  {
    var init, last := segs[..|segs| - 1], segs[|segs| - 1];
    assert forall k | 0 <= k < |init| :: init[k] == segs[k];
    if Disjoint(segs) {
      forall i: nat | i in before ensures !Covers(last, i) {
        var k :| 0 <= k < |init| && Covers(init[k], i);
        assert !(Covers(segs[k], i) && Covers(segs[|segs| - 1], i));
      }
    }
    if Disjoint(init) && forall i: nat | i in before :: !Covers(last, i) {
      forall j, k, i: nat | 0 <= j < k < |segs| ensures !(Covers(segs[j], i) && Covers(segs[k], i)) {
        if k == |init| && Covers(segs[j], i) {
          assert Covers(init[j], i);
          assert i in before;
        } else if k < |init| {
          assert !(Covers(init[j], i) && Covers(init[k], i));
        }
      }
    }
  }

  /**
   Whatever the order in which segments that cover a file arrive, and however they overlap, they
   assemble to that file; and their lengths add up to its size exactly if they do not overlap.
   */
  lemma AnyOrderReassembles(src: seq<U8>, segs: seq<Segment>)
    requires Covering(src, segs)
    ensures Assembled(segs) == src
    ensures TotalLength(segs) >= |src| && (TotalLength(segs) == |src| <==> Disjoint(segs))
  {
    CoveringAssembles(src, segs);
    var covered := LengthsCover(segs);
    forall i: nat ensures i in covered <==> i in Range(0, |src|) {
      if i in covered {
        var k :| 0 <= k < |segs| && Covers(segs[k], i);
        assert PieceOf(src, segs[k]);
      }
    }
    assert covered == Range(0, |src|);
  }

  lemma CoveringAssembles(src: seq<U8>, segs: seq<Segment>)
    requires Covering(src, segs)
    ensures Assembled(segs) == src
  {
    var f := Assembled(segs);
    AssembledIsSource(src, segs, 0);
    assert |f| >= |src| by {
      if src != [] {
        AssembledReaches(segs, |src| - 1);
      }
    }
    forall i | 0 <= i < |src| ensures f[i] == src[i] {
      AssembledIsSource(src, segs, i);
    }
  }

  // ------------------------------------------------------- modular checksum

  /** 256 to the power of 3 - i mod 4: the place value of byte `i` in its big-endian word. */
  function Weight(i: nat): nat {
    match i % 4
    case 0 => 0x100_0000
    case 1 => 0x1_0000
    case 2 => 0x100
    case _ => 1
  }

  function WeightedTo(f: seq<U8>, n: nat): nat {
    if n == 0 then 0 else WeightedTo(f, n - 1) + At(f, n - 1) as nat * Weight(n - 1)
  }

  function ModularChecksum(f: seq<U8>): nat {
    WeightedTo(f, |f|) % 0x1_0000_0000
  }

  /** What a segment on its own contributes to the sum over the first `n` bytes. */
  function ContributionTo(s: Segment, n: nat): nat {
    if n == 0 then 0
    else ContributionTo(s, n - 1) + if Covers(s, n - 1) then s.data[n - 1 - s.offset] as nat * Weight(n - 1) else 0
  }

  function Contribution(s: Segment): nat {
    ContributionTo(s, s.offset + |s.data|)
  }

  function Contributions(segs: seq<Segment>): nat {
    if segs == [] then 0 else Contributions(segs[..|segs| - 1]) + Contribution(segs[|segs| - 1])
  }

  lemma {:induction false} WeightedPastEnd(f: seq<U8>, n: nat)
    requires n >= |f|
    ensures WeightedTo(f, n) == WeightedTo(f, |f|)
  {
    if n > |f| {
      WeightedPastEnd(f, n - 1);
    }
  }

  lemma {:induction false} ContributionPastEnd(s: Segment, n: nat)
    requires n >= s.offset + |s.data|
    ensures ContributionTo(s, n) == Contribution(s)
  {
    if n > s.offset + |s.data| {
      ContributionPastEnd(s, n - 1);
    }
  }

  /** Writing a segment over zeros adds its contribution to the sum. */
  lemma {:induction false} WriteAddsContribution(f: seq<U8>, s: Segment, n: nat)
    requires forall i: nat | Covers(s, i) :: At(f, i) == 0
    ensures WeightedTo(WriteAt(f, s.offset, s.data), n) == WeightedTo(f, n) + ContributionTo(s, n)
  {
    if n > 0 {
      WriteAddsContribution(f, s, n - 1);
    }
  }

  lemma {:induction false} UncoveredIsZero(segs: seq<Segment>, i: nat)
    requires forall k | 0 <= k < |segs| :: !Covers(segs[k], i)
    ensures At(Assembled(segs), i) == 0
  {
    if segs != [] {
      UncoveredIsZero(segs[..|segs| - 1], i);
    }
  }

  lemma DisjointFromLast(init: seq<Segment>, last: Segment)
    requires Disjoint(init + [last])
    ensures forall i: nat | Covers(last, i) :: At(Assembled(init), i) == 0
  {
    var segs := init + [last];
    forall i: nat | Covers(last, i) ensures At(Assembled(init), i) == 0 {
      assert segs[|init|] == last && forall k | 0 <= k < |init| :: segs[k] == init[k];
      UncoveredIsZero(init, i);
    }
  }

  /** Taken over whole files. */
  lemma SumGrows(f: seq<U8>, s: Segment)
    requires forall i: nat | Covers(s, i) :: At(f, i) == 0
    ensures var g := WriteAt(f, s.offset, s.data); WeightedTo(g, |g|) == WeightedTo(f, |f|) + Contribution(s)
  {
    var g := WriteAt(f, s.offset, s.data);
    var n := Max(Max(|f|, |g|), s.offset + |s.data|);
    WriteAddsContribution(f, s, n);
    WeightedPastEnd(f, n);
    WeightedPastEnd(g, n);
    ContributionPastEnd(s, n);
  }

  lemma {:induction false} SumIsContributions(segs: seq<Segment>)
    requires Disjoint(segs)
    ensures WeightedTo(Assembled(segs), |Assembled(segs)|) == Contributions(segs)
  {
    if segs != [] {
      hide WeightedTo, Contribution, WriteAt, At;
      var init, last := segs[..|segs| - 1], segs[|segs| - 1];
      assert init + [last] == segs && forall k | 0 <= k < |init| :: init[k] == segs[k];
      SumIsContributions(init);
      DisjointFromLast(init, last);
      SumGrows(Assembled(init), last);
    }
  }

  /**
   The checksum of a file assembled from disjoint segments is the sum of the segments' own
   contributions, so the order of arrival does not matter to it.
   */
  lemma ChecksumIsSumOfContributions(segs: seq<Segment>)
    requires Disjoint(segs)
    ensures ModularChecksum(Assembled(segs)) == Contributions(segs) % 0x1_0000_0000
  {
    SumIsContributions(segs);
  }
}
