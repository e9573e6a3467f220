/** The out-of-order list of TCP reassembly (simulator/src/applications/
    tcp_reassembly.cpp), as values: a flow's state is its next expected
    sequence number and a list of half-open byte ranges received beyond it.
    `ProcessSpec` is what `TCPFlowState::process` does to that state; the
    class in tcp_reassembly.dfy is proved to follow it. */
module TcpSpec {
  import opened Numeric
  import opened Packets

  const CostBase: nat := 116
  const CostPerTraversal: nat := 4
  const ReassemblyWindowSizeInBytes: nat := 0x1_0000

  /** A half-open range [start, end) of sequence numbers. */
  type Range = (U32, U32)

  datatype FlowState = FlowState(oooList: seq<Range>, nextPsn: U32)

  /** A fresh flow: nothing received, next expected PSN 0. */
  const InitialFlowState := FlowState([], 0)

  /** `toServiceTime`: 116 plus 4 per list traversal, in 32-bit unsigned
      arithmetic. */
  function ToServiceTime(numTraversals: nat): (r: U32)
    ensures numTraversals < 0x3FFF_FFE3 ==> r == CostBase + CostPerTraversal * numTraversals
  {
    (CostBase + CostPerTraversal * numTraversals) % TwoTo32
  }

  /** The list is sorted, its ranges are non-empty and pairwise disjoint,
      and every range starts beyond the next expected PSN. */
  ghost predicate WellFormed(st: FlowState) {
    (forall i :: 0 <= i < |st.oooList| ==> st.nextPsn < st.oooList[i].0 < st.oooList[i].1) &&
    (forall i, j :: 0 <= i < j < |st.oooList| ==> st.oooList[i].1 <= st.oooList[j].0)
  }

  // ---------------------------------------------------------------------
  // Classification of a segment
  // ---------------------------------------------------------------------

  datatype SegmentKind = Syn | InOrder | BeyondWindow | Duplicate | OutOfOrder

  /** The four guards `process` and `getServiceTimeEstimate` share, in order.
      The window bound `next_psn_ + 65536` is computed modulo 2^32. */
  function Classify(st: FlowState, h: TcpHeader): SegmentKind {
    if h.flagSyn || st.nextPsn == 0 then Syn
    else if |st.oooList| == 0 && st.nextPsn >= h.psn then InOrder
    else if h.psn > (st.nextPsn + ReassemblyWindowSizeInBytes) % TwoTo32 then BeyondWindow
    else if st.nextPsn >= h.nextPsn then Duplicate
    else OutOfOrder
  }

  /** The sanity check of the SYN branch: a repeated SYN on a flow with
      out-of-order data must not move the expected PSN forward. */
  predicate SynCheckHolds(st: FlowState, h: TcpHeader) {
    Classify(st, h) == Syn && |st.oooList| > 0 ==> h.nextPsn <= st.nextPsn
  }

  // ---------------------------------------------------------------------
  // The steps of the out-of-order case
  // ---------------------------------------------------------------------

  /** Index of the first range whose end is at least `e`, or |list|. */
  function FirstEndAtLeast(list: seq<Range>, e: U32): (pos: nat)
    ensures pos <= |list|
    ensures forall j :: 0 <= j < pos ==> list[j].1 < e
    ensures pos < |list| ==> e <= list[pos].1
  {
    if |list| == 0 then 0
    else if e <= list[0].1 then 0
    else 1 + FirstEndAtLeast(list[1..], e)
  }

  /** Traversals of the insertion search: the ranges visited, including the
      one that stopped the search. */
  function SearchTraversals(list: seq<Range>, e: U32): nat {
    var pos := FirstEndAtLeast(list, e);
    if pos < |list| then pos + 1 else |list|
  }

  /** How many ranges before index `j` survive the backward erasure: ranges
      are erased from `j - 1` downwards while they start at or after `s`. */
  function KeptBefore(list: seq<Range>, j: nat, s: U32): (k: nat)
    requires j <= |list|
    ensures k <= j
    ensures forall i :: k <= i < j ==> list[i].0 >= s
    ensures k > 0 ==> list[k - 1].0 < s
  {
    if j == 0 then 0
    else if list[j - 1].0 >= s then KeptBefore(list, j - 1, s)
    else j
  }

  /** Releases the head ranges that start at the expected PSN, advancing it
      to each one's end.  Result: remaining list, new PSN, ranges released. */
  function Release(list: seq<Range>, next: U32): (r: (seq<Range>, U32, nat))
    ensures r.2 <= |list| && r.0 == list[r.2..]
    ensures r.0 == [] || r.0[0].0 != r.1
  {
    if |list| > 0 && list[0].0 == next then
      var rest := Release(list[1..], list[0].1);
      assert list[1..][rest.2..] == list[rest.2 + 1..];
      (rest.0, rest.1, rest.2 + 1)
    else (list, next, 0)
  }

  /** The quantities of the out-of-order case: the insertion position, the
      segment clipped to the expected PSN and to the next range, the number
      of ranges kept before the erased ones, and the start after clipping to
      the last kept range. */
  datatype Clip = Clip(pos: nat, s1: U32, e1: U32, k: nat, s2: U32)

  function ClipOf(st: FlowState, h: TcpHeader): (c: Clip)
    ensures c.k <= c.pos <= |st.oooList|
  {
    var list := st.oooList;
    var pos := FirstEndAtLeast(list, h.nextPsn);
    var s1 := MaxU32(st.nextPsn, h.psn);
    var e1 := if pos < |list| then MinU32(h.nextPsn, list[pos].0) else h.nextPsn;
    var k := KeptBefore(list, pos, s1);
    var s2 := if k > 0 then MaxU32(s1, list[k - 1].1) else s1;
    Clip(pos, s1, e1, k, s2)
  }

  /** The list after clipping, erasing and (if the clipped range is
      non-empty) inserting the segment, before any release; and whether the
      segment was inserted. */
  function InsertSegment(st: FlowState, h: TcpHeader): (r: (seq<Range>, bool))
  {
    var list := st.oooList;
    var c := ClipOf(st, h);
    if c.e1 > c.s2 then (list[..c.k] + [(c.s2, c.e1)] + list[c.pos..], true)
    else (list[..c.k] + list[c.pos..], false)
  }

  function MaxU32(a: U32, b: U32): U32 { if a >= b then a else b }
  function MinU32(a: U32, b: U32): U32 { if a <= b then a else b }

  /** `TCPFlowState::process` on the flow state: the new state and the
      service time (-1 for an invalid job size). */
  function ProcessSpec(st: FlowState, h: TcpHeader): (r: (FlowState, real))
    requires SynCheckHolds(st, h)
  {
    match Classify(st, h)
    case Syn =>
      if |st.oooList| == 0 then (FlowState([], h.nextPsn), InvalidJobSize)
      else (st, InvalidJobSize)
    case InOrder => (FlowState([], MaxU32(st.nextPsn, h.nextPsn)), InvalidJobSize)
    case BeyondWindow => (st, InvalidJobSize)
    case Duplicate => (st, InvalidJobSize)
    case OutOfOrder =>
      var traversals := SearchTraversals(st.oooList, h.nextPsn);
      var (list, inserted) := InsertSegment(st, h);
      if inserted then
        var (rest, next, released) := Release(list, st.nextPsn);
        (FlowState(rest, next), ToServiceTime(traversals + released) as real)
      else (FlowState(list, st.nextPsn), ToServiceTime(traversals) as real)
  }

  /** `getServiceTimeEstimate`: the same guards; an out-of-order segment is
      estimated from the current list length. */
  function ServiceTimeEstimate(st: FlowState, h: TcpHeader): (r: real)
    ensures r == InvalidJobSize <==> Classify(st, h) != OutOfOrder
    ensures Classify(st, h) == OutOfOrder ==> r == ToServiceTime(|st.oooList|) as real
  {
    if Classify(st, h) == OutOfOrder then ToServiceTime(|st.oooList|) as real
    else InvalidJobSize
  }

  // ---------------------------------------------------------------------
  // Coverage: which sequence numbers a state accounts for
  // ---------------------------------------------------------------------

  /** `x` lies in one of the ranges of `list`. */
  ghost predicate InRanges(list: seq<Range>, x: int) {
    exists i :: 0 <= i < |list| && list[i].0 <= x < list[i].1
  }

  /** Sorted, non-empty, disjoint ranges that all start at or after `lo`. */
  ghost predicate SortedFrom(list: seq<Range>, lo: int) {
    (forall i :: 0 <= i < |list| ==> lo <= list[i].0 < list[i].1) &&
    (forall i, j :: 0 <= i < j < |list| ==> list[i].1 <= list[j].0)
  }

  /** The facts about the out-of-order case that the proofs below share:
      the search position, the clipped bounds and the number of kept ranges,
      stated by their properties. */
  ghost predicate SegmentFacts(list: seq<Range>, n: U32, s: U32, e: U32, c: Clip) {
    n < e && c.pos <= |list| &&
    (forall j :: 0 <= j < c.pos ==> list[j].1 < e) &&
    (c.pos < |list| ==> e <= list[c.pos].1) &&
    c.s1 == MaxU32(n, s) &&
    c.e1 == (if c.pos < |list| then MinU32(e, list[c.pos].0) else e) &&
    c.k <= c.pos &&
    (forall i :: c.k <= i < c.pos ==> list[i].0 >= c.s1) &&
    (c.k > 0 ==> list[c.k - 1].0 < c.s1) &&
    c.s2 == (if c.k > 0 then MaxU32(c.s1, list[c.k - 1].1) else c.s1)
  }

  /** Where each range of the list built by InsertSegment comes from. */
  ghost predicate Shape(list: seq<Range>, c: Clip, l1: seq<Range>, ins: bool)
    requires c.k <= c.pos <= |list|
  {
    var d := if ins then 1 else 0;
    ins == (c.e1 > c.s2) &&
    |l1| == c.k + d + |list| - c.pos &&
    (forall i :: 0 <= i < c.k ==> l1[i] == list[i]) &&
    (ins ==> l1[c.k] == (c.s2, c.e1)) &&
    (forall i :: c.k + d <= i < |l1| ==> l1[i] == list[c.pos + i - c.k - d])
  }

  lemma InsertSegmentFacts(st: FlowState, h: TcpHeader)
    requires Classify(st, h) == OutOfOrder
    ensures SegmentFacts(st.oooList, st.nextPsn, h.psn, h.nextPsn, ClipOf(st, h))
    ensures Shape(st.oooList, ClipOf(st, h), InsertSegment(st, h).0, InsertSegment(st, h).1)
  {
    ClipOfFacts(st, h);
    InsertSegmentShape(st, h);
  }

  lemma ClipOfFacts(st: FlowState, h: TcpHeader)
    requires Classify(st, h) == OutOfOrder
    ensures SegmentFacts(st.oooList, st.nextPsn, h.psn, h.nextPsn, ClipOf(st, h))
  {
  }

  lemma InsertSegmentShape(st: FlowState, h: TcpHeader)
    ensures Shape(st.oooList, ClipOf(st, h), InsertSegment(st, h).0, InsertSegment(st, h).1)
  {
    var c := ClipOf(st, h);
    var list := st.oooList;
    var mid: seq<Range> := if c.e1 > c.s2 then [(c.s2, c.e1)] else [];
    if c.e1 <= c.s2 {
      assert list[..c.k] + mid == list[..c.k];
    }
    assert InsertSegment(st, h) == (list[..c.k] + mid + list[c.pos..], c.e1 > c.s2);
    SpliceShape(list, c, mid, c.e1 > c.s2);
  }

  lemma SpliceShape(list: seq<Range>, c: Clip, mid: seq<Range>, ins: bool)
    requires c.k <= c.pos <= |list|
    requires ins == (c.e1 > c.s2) && mid == (if ins then [(c.s2, c.e1)] else [])
    ensures Shape(list, c, list[..c.k] + mid + list[c.pos..], ins)
  {
    var l1 := list[..c.k] + mid + list[c.pos..];
    var d := |mid|;
    forall i | c.k + d <= i < |l1| ensures l1[i] == list[c.pos + i - c.k - d] {
    }
  }

  /** Sorted, disjoint and beyond `n`; and the sequence numbers at or beyond
      `n` held by `l1` are those of `list` and of [s, e). */
  ghost predicate CoversAfterInsert(list: seq<Range>, n: U32, s: U32, e: U32, l1: seq<Range>, ins: bool) {
    SortedFrom(l1, n) &&
    (!ins ==> l1 == list) &&
    forall x :: x >= n ==> (InRanges(l1, x) <==> InRanges(list, x) || s <= x < e)
  }

  /** Clipping, erasing and inserting neither loses nor invents a sequence
      number at or beyond the expected PSN, and keeps the list sorted. */
  lemma InsertSegmentCoverage(st: FlowState, h: TcpHeader)
    requires WellFormed(st) && Classify(st, h) == OutOfOrder
    ensures CoversAfterInsert(st.oooList, st.nextPsn, h.psn, h.nextPsn, InsertSegment(st, h).0, InsertSegment(st, h).1)
  {
    InsertSegmentFacts(st, h);
    ClippedCoverage(st.oooList, st.nextPsn, h.psn, h.nextPsn, ClipOf(st, h), InsertSegment(st, h).0, InsertSegment(st, h).1);
  }

  lemma ClippedCoverage(list: seq<Range>, n: U32, s: U32, e: U32, c: Clip, l1: seq<Range>, ins: bool)
    requires WellFormed(FlowState(list, n))
    requires SegmentFacts(list, n, s, e, c)
    requires Shape(list, c, l1, ins)
    ensures CoversAfterInsert(list, n, s, e, l1, ins)
  {
    if c.k < c.pos {
      ErasedInsideSegment(list, n, s, e, c, c.k);
    }
    NoEraseWithoutInsert(list, c, l1, ins);
    InsertSegmentBounds(list, n, s, e, c, l1, ins);
    InsertSegmentOrdered(list, n, s, e, c, l1, ins);
    InsertSegmentCovers(list, n, s, e, c, l1, ins);
  }

  /** The erased ranges lie inside the clipped segment, so erasing any of
      them implies the segment is inserted. */
  lemma ErasedInsideSegment(list: seq<Range>, n: U32, s: U32, e: U32, c: Clip, i: nat)
    requires WellFormed(FlowState(list, n))
    requires SegmentFacts(list, n, s, e, c)
    requires c.k <= i < c.pos
    ensures c.s2 <= list[i].0 && list[i].1 <= c.e1 && c.e1 > c.s2
  {
    if c.k > 0 {
      assert list[c.k - 1].1 <= list[i].0;
    }
    if c.pos < |list| {
      assert list[i].1 <= list[c.pos].0;
    }
  }

  lemma InsertSegmentCovers(list: seq<Range>, n: U32, s: U32, e: U32, c: Clip, l1: seq<Range>, ins: bool)
    requires WellFormed(FlowState(list, n))
    requires SegmentFacts(list, n, s, e, c)
    requires Shape(list, c, l1, ins)
    ensures forall x :: x >= n ==> (InRanges(l1, x) <==> InRanges(list, x) || s <= x < e)
  {
    forall x | x >= n
      ensures InRanges(l1, x) <==> InRanges(list, x) || s <= x < e
    {
      InsertSegmentCoversOld(list, n, s, e, c, l1, ins, x);
      InsertSegmentCoversNew(list, n, s, e, c, l1, ins, x);
    }
  }

  lemma NoEraseWithoutInsert(list: seq<Range>, c: Clip, l1: seq<Range>, ins: bool)
    requires c.k <= c.pos <= |list| && Shape(list, c, l1, ins)
    requires c.k < c.pos ==> ins
    ensures !ins ==> l1 == list
  {
    if !ins {
      assert |l1| == |list|;
      forall i | 0 <= i < |l1| ensures l1[i] == list[i] {
        if i >= c.k { assert l1[i] == list[c.pos + i - c.k]; }
      }
    }
  }

  lemma InsertSegmentBounds(list: seq<Range>, n: U32, s: U32, e: U32, c: Clip, l1: seq<Range>, ins: bool)
    requires WellFormed(FlowState(list, n))
    requires SegmentFacts(list, n, s, e, c)
    requires Shape(list, c, l1, ins)
    ensures forall i :: 0 <= i < |l1| ==> n <= l1[i].0 < l1[i].1
  {
    forall i | 0 <= i < |l1| ensures n <= l1[i].0 < l1[i].1 {
      BoundAt(list, n, s, e, c, l1, ins, i);
    }
  }

  lemma BoundAt(list: seq<Range>, n: U32, s: U32, e: U32, c: Clip, l1: seq<Range>, ins: bool, i: nat)
    requires WellFormed(FlowState(list, n))
    requires SegmentFacts(list, n, s, e, c)
    requires Shape(list, c, l1, ins)
    requires i < |l1|
    ensures n <= l1[i].0 < l1[i].1
  {
    var d := if ins then 1 else 0;
    if i < c.k {
      assert l1[i] == list[i];
    }
    if c.k + d <= i {
      assert l1[i] == list[c.pos + i - c.k - d];
    }
  }

  lemma InsertSegmentOrdered(list: seq<Range>, n: U32, s: U32, e: U32, c: Clip, l1: seq<Range>, ins: bool)
    requires WellFormed(FlowState(list, n))
    requires SegmentFacts(list, n, s, e, c)
    requires Shape(list, c, l1, ins)
    ensures forall i, j :: 0 <= i < j < |l1| ==> l1[i].1 <= l1[j].0
  {
    forall i, j | 0 <= i < j < |l1| ensures l1[i].1 <= l1[j].0 {
      OrderedPair(list, n, s, e, c, l1, ins, i, j);
    }
  }

  lemma OrderedPair(list: seq<Range>, n: U32, s: U32, e: U32, c: Clip, l1: seq<Range>, ins: bool, i: nat, j: nat)
    requires WellFormed(FlowState(list, n))
    requires SegmentFacts(list, n, s, e, c)
    requires Shape(list, c, l1, ins)
    requires i < j < |l1|
    ensures l1[i].1 <= l1[j].0
  {
    var d := if ins then 1 else 0;
    if j < c.k {
      assert l1[i] == list[i] && l1[j] == list[j];
    } else if ins && j == c.k {
      KeptBeforeInserted(list, n, s, e, c, l1, i);
    } else if ins && i == c.k {
      InsertedBeforeTail(list, n, s, e, c, l1, j);
    } else if i < c.k {
      assert l1[i] == list[i];
      assert l1[j] == list[c.pos + j - c.k - d];
    } else {
      assert l1[i] == list[c.pos + i - c.k - d];
      assert l1[j] == list[c.pos + j - c.k - d];
    }
  }

  lemma KeptBeforeInserted(list: seq<Range>, n: U32, s: U32, e: U32, c: Clip, l1: seq<Range>, i: nat)
    requires WellFormed(FlowState(list, n))
    requires SegmentFacts(list, n, s, e, c)
    requires Shape(list, c, l1, true)
    requires i < c.k
    ensures l1[i].1 <= l1[c.k].0
  {
    assert l1[i] == list[i];
    if i < c.k - 1 {
      assert list[i].1 <= list[c.k - 1].0;
    }
  }

  lemma InsertedBeforeTail(list: seq<Range>, n: U32, s: U32, e: U32, c: Clip, l1: seq<Range>, j: nat)
    requires WellFormed(FlowState(list, n))
    requires SegmentFacts(list, n, s, e, c)
    requires Shape(list, c, l1, true)
    requires c.k < j < |l1|
    ensures l1[c.k].1 <= l1[j].0
  {
    var m := c.pos + j - c.k - 1;
    assert l1[j] == list[m];
    if m > c.pos {
      assert list[c.pos].1 <= list[m].0;
    }
  }

  /** Every sequence number of the new list was in the old list or in the
      segment. */
  lemma InsertSegmentCoversNew(list: seq<Range>, n: U32, s: U32, e: U32, c: Clip, l1: seq<Range>, ins: bool, x: int)
    requires SegmentFacts(list, n, s, e, c)
    requires Shape(list, c, l1, ins)
    ensures InRanges(l1, x) ==> InRanges(list, x) || s <= x < e
  {
    if InRanges(l1, x) {
      var i :| 0 <= i < |l1| && l1[i].0 <= x < l1[i].1;
      var j := RangeOrigin(list, c, l1, ins, i);
      if j >= 0 {
        assert list[j].0 <= x < list[j].1;
      }
    }
  }

  /** Each range of the new list is an old range (at index `j`) or, when
      `j` is -1, the inserted clipped segment. */
  lemma RangeOrigin(list: seq<Range>, c: Clip, l1: seq<Range>, ins: bool, i: nat) returns (j: int)
    requires c.k <= c.pos <= |list| && Shape(list, c, l1, ins) && i < |l1|
    ensures -1 <= j < |list|
    ensures j == -1 ==> ins && l1[i] == (c.s2, c.e1)
    ensures j >= 0 ==> l1[i] == list[j]
  {
    var d := if ins then 1 else 0;
    if i < c.k {
      j := i;
    } else if c.k + d <= i {
      j := c.pos + i - c.k - d;
    } else {
      j := -1;
    }
  }

  /** Every sequence number at or beyond the expected PSN that was in the
      old list or in the segment is in the new list. */
  lemma InsertSegmentCoversOld(list: seq<Range>, n: U32, s: U32, e: U32, c: Clip, l1: seq<Range>, ins: bool, x: int)
    requires WellFormed(FlowState(list, n))
    requires SegmentFacts(list, n, s, e, c)
    requires Shape(list, c, l1, ins)
    requires x >= n
    ensures InRanges(list, x) ==> InRanges(l1, x)
    ensures s <= x < e ==> InRanges(l1, x)
  {
    if InRanges(list, x) {
      var i :| 0 <= i < |list| && list[i].0 <= x < list[i].1;
      OldRangeKept(list, n, s, e, c, l1, ins, x, i);
    }
    if s <= x < e {
      SegmentPointKept(list, n, s, e, c, l1, ins, x);
    }
  }

  lemma OldRangeKept(list: seq<Range>, n: U32, s: U32, e: U32, c: Clip, l1: seq<Range>, ins: bool, x: int, i: nat)
    requires WellFormed(FlowState(list, n))
    requires SegmentFacts(list, n, s, e, c)
    requires Shape(list, c, l1, ins)
    requires i < |list| && list[i].0 <= x < list[i].1
    ensures InRanges(l1, x)
  {
    var d := if ins then 1 else 0;
    if i < c.k {
      assert l1[i] == list[i];
    }
    if c.k <= i < c.pos {
      ErasedInsideSegment(list, n, s, e, c, i);
      assert l1[c.k] == (c.s2, c.e1);
    }
    if c.pos <= i {
      assert l1[i - c.pos + c.k + d] == list[i];
    }
  }

  lemma SegmentPointKept(list: seq<Range>, n: U32, s: U32, e: U32, c: Clip, l1: seq<Range>, ins: bool, x: int)
    requires WellFormed(FlowState(list, n))
    requires SegmentFacts(list, n, s, e, c)
    requires Shape(list, c, l1, ins)
    requires x >= n && s <= x < e
    ensures InRanges(l1, x)
  {
    var d := if ins then 1 else 0;
    if x < c.s2 {
      assert list[c.k - 1] == l1[c.k - 1];
    }
    if x >= c.e1 {
      assert l1[c.k + d] == list[c.pos];
    }
    if c.s2 <= x < c.e1 {
      assert l1[c.k] == (c.s2, c.e1);
    }
  }

  /** What releasing from `list` at expected PSN `next` must achieve: the
      PSN moves forward to `n`, the remaining list is well formed beyond it,
      and the sequence numbers at or beyond `next` are accounted for exactly
      as before. */
  ghost predicate ReleaseCovers(list: seq<Range>, next: U32, rest: seq<Range>, n: U32) {
    n >= next && WellFormed(FlowState(rest, n)) &&
    forall x :: x >= next ==> (InRanges(list, x) <==> x < n || InRanges(rest, x))
  }

  /** Releasing in-order head ranges advances the expected PSN over exactly
      the released bytes, and leaves no range starting at the new PSN. */
  lemma {:induction false} ReleaseCoverage(list: seq<Range>, next: U32)
    requires SortedFrom(list, next)
    ensures ReleaseCovers(list, next, Release(list, next).0, Release(list, next).1)
  {
    if |list| > 0 && list[0].0 == next {
      TailSorted(list);
      ReleaseCoverage(list[1..], list[0].1);
      var r := Release(list[1..], list[0].1);
      assert Release(list, next).0 == r.0 && Release(list, next).1 == r.1;
      ReleaseHead(list, next, r.0, r.1);
    } else {
      ReleaseNothing(list, next);
    }
  }

  lemma TailSorted(list: seq<Range>)
    requires |list| > 0 && SortedFrom(list, list[0].0)
    ensures SortedFrom(list[1..], list[0].1)
  {
    forall i | 0 <= i < |list| - 1 ensures list[0].1 <= list[1..][i].0 {
      assert list[1..][i] == list[i + 1];
    }
  }

  /** Releasing the head range: what the tail's release covers, together
      with [next, list[0].1), is what the whole list covered. */
  lemma ReleaseHead(list: seq<Range>, next: U32, rest: seq<Range>, n: U32)
    requires SortedFrom(list, next) && |list| > 0 && list[0].0 == next
    requires ReleaseCovers(list[1..], list[0].1, rest, n)
    ensures ReleaseCovers(list, next, rest, n)
  {
    var tail := list[1..];
    forall x | x >= next
      ensures InRanges(list, x) <==> x < n || InRanges(rest, x)
    {
      if x >= list[0].1 {
        if InRanges(list, x) {
          var i :| 0 <= i < |list| && list[i].0 <= x < list[i].1;
          assert i > 0 && tail[i - 1] == list[i];
        }
        if InRanges(tail, x) {
          var i :| 0 <= i < |tail| && tail[i].0 <= x < tail[i].1;
          assert list[i + 1] == tail[i];
        }
      } else {
        assert list[0].0 <= x < list[0].1;
      }
    }
  }

  /** When the head does not start at the expected PSN nothing is released,
      and every range starts strictly beyond it. */
  lemma ReleaseNothing(list: seq<Range>, next: U32)
    requires SortedFrom(list, next)
    requires !(|list| > 0 && list[0].0 == next)
    ensures ReleaseCovers(list, next, list, next)
  {
    forall i | 0 <= i < |list| ensures next < list[i].0 {
      if i > 0 { assert list[0].1 <= list[i].0; }
    }
  }

  // ---------------------------------------------------------------------
  // Properties of `process`
  // ---------------------------------------------------------------------

  /** `process` keeps the out-of-order list sorted, disjoint and beyond the
      expected PSN; in particular no range is left starting at it. */
  lemma ProcessSpecWellFormed(st: FlowState, h: TcpHeader)
    requires WellFormed(st) && SynCheckHolds(st, h)
    ensures WellFormed(ProcessSpec(st, h).0)
    ensures var st' := ProcessSpec(st, h).0;
      forall i :: 0 <= i < |st'.oooList| ==> st'.oooList[i].0 != st'.nextPsn
  {
    if Classify(st, h) == OutOfOrder {
      OutOfOrderState(st, h);
      InsertSegmentCoverage(st, h);
      SettleWellFormed(st, h.psn, h.nextPsn, InsertSegment(st, h).0, InsertSegment(st, h).1);
    }
  }

  /** The state after the out-of-order case: the spliced list, released
      from the expected PSN when the segment was inserted. */
  function Settle(l1: seq<Range>, ins: bool, next: U32): FlowState {
    if ins then FlowState(Release(l1, next).0, Release(l1, next).1)
    else FlowState(l1, next)
  }

  lemma OutOfOrderState(st: FlowState, h: TcpHeader)
    requires SynCheckHolds(st, h) && Classify(st, h) == OutOfOrder
    ensures ProcessSpec(st, h).0 == Settle(InsertSegment(st, h).0, InsertSegment(st, h).1, st.nextPsn)
  {
  }

  /** Settling a well-formed splice leaves a well-formed state with no range
      at the expected PSN. */
  lemma SettleWellFormed(st: FlowState, s: U32, e: U32, l1: seq<Range>, ins: bool)
    requires WellFormed(st) && CoversAfterInsert(st.oooList, st.nextPsn, s, e, l1, ins)
    ensures WellFormed(Settle(l1, ins, st.nextPsn))
    ensures var st' := Settle(l1, ins, st.nextPsn);
      forall i :: 0 <= i < |st'.oooList| ==> st'.oooList[i].0 != st'.nextPsn
  {
    if ins {
      ReleaseCoverage(l1, st.nextPsn);
    }
  }

  /** The reassembly guarantee between two states of a flow that received
      the segment [s, e): the expected PSN never moves back, and the sequence
      numbers at or beyond the old expected PSN that the flow now accounts
      for (below the new expected PSN, or in a listed range) are exactly
      those it held before together with those of the segment. */
  ghost predicate Accounts(st: FlowState, s: U32, e: U32, st': FlowState) {
    st'.nextPsn >= st.nextPsn &&
    forall x :: x >= st.nextPsn ==>
      (InRanges(st.oooList, x) || s <= x < e <==> x < st'.nextPsn || InRanges(st'.oooList, x))
  }

  /** `process` keeps the reassembly guarantee for in-order, duplicate and
      out-of-order segments. */
  lemma ProcessSpecCoverage(st: FlowState, h: TcpHeader)
    requires WellFormed(st) && SynCheckHolds(st, h)
    requires Classify(st, h) in {InOrder, Duplicate, OutOfOrder}
    ensures Accounts(st, h.psn, h.nextPsn, ProcessSpec(st, h).0)
  {
    if Classify(st, h) == OutOfOrder {
      OutOfOrderCoverage(st, h);
    } else if Classify(st, h) == InOrder {
      assert ProcessSpec(st, h).0.oooList == [];
    }
  }

  lemma OutOfOrderCoverage(st: FlowState, h: TcpHeader)
    requires WellFormed(st) && SynCheckHolds(st, h) && Classify(st, h) == OutOfOrder
    ensures Accounts(st, h.psn, h.nextPsn, ProcessSpec(st, h).0)
  {
    OutOfOrderState(st, h);
    InsertSegmentCoverage(st, h);
    SettleAccounts(st, h.psn, h.nextPsn, InsertSegment(st, h).0, InsertSegment(st, h).1);
  }

  /** Settling a splice that accounts for the old list and the segment
      keeps the reassembly guarantee. */
  lemma SettleAccounts(st: FlowState, s: U32, e: U32, l1: seq<Range>, ins: bool)
    requires CoversAfterInsert(st.oooList, st.nextPsn, s, e, l1, ins)
    ensures Accounts(st, s, e, Settle(l1, ins, st.nextPsn))
  {
    if ins {
      ReleaseCoverage(l1, st.nextPsn);
      var r := Release(l1, st.nextPsn);
      InsertThenRelease(st, s, e, l1, FlowState(r.0, r.1));
    }
  }

  lemma InsertThenRelease(st: FlowState, s: U32, e: U32, l1: seq<Range>, st': FlowState)
    requires CoversAfterInsert(st.oooList, st.nextPsn, s, e, l1, true)
    requires ReleaseCovers(l1, st.nextPsn, st'.oooList, st'.nextPsn)
    ensures Accounts(st, s, e, st')
  {
  }

  /** `process` reports a service time exactly for out-of-order segments,
      and then at least the base cost when the list is short enough for the
      `uint32_t` cost not to wrap. */
  lemma ProcessSpecResult(st: FlowState, h: TcpHeader)
    requires SynCheckHolds(st, h)
    ensures ProcessSpec(st, h).1 == InvalidJobSize <==> Classify(st, h) != OutOfOrder
    ensures Classify(st, h) in {BeyondWindow, Duplicate} ==> ProcessSpec(st, h).0 == st
    ensures Classify(st, h) == OutOfOrder && |st.oooList| < 0x1000_0000 ==>
              ProcessSpec(st, h).1 >= CostBase as real
  {
    if Classify(st, h) == OutOfOrder && |st.oooList| < 0x1000_0000 {
      var traversals := SearchTraversals(st.oooList, h.nextPsn);
      assert traversals <= |st.oooList|;
      var (list, inserted) := InsertSegment(st, h);
      assert |list| <= |st.oooList| + 1;
      var n := if inserted then traversals + Release(list, st.nextPsn).2 else traversals;
      assert n < 0x3FFF_FFE3;
      assert ProcessSpec(st, h).1 == ToServiceTime(n) as real;
    }
  }

  /** The estimate agrees with `process` on which segments are invalid, and
      neither changes the state for a dropped or duplicate segment. */
  lemma EstimateAgreesWithProcess(st: FlowState, h: TcpHeader)
    requires SynCheckHolds(st, h)
    ensures ServiceTimeEstimate(st, h) == InvalidJobSize <==> ProcessSpec(st, h).1 == InvalidJobSize
  {
    ProcessSpecResult(st, h);
  }
}
