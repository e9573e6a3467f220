/** The hierarchical find-first-set queue
    (scheduler/heaps/hffs_queue/software/hffs_queue.hpp): an approximate
    min-heap that files each tag into a bucket chosen by its scaled weight
    and finds the lowest (or highest) non-empty bucket through a tree of
    32-bit bitmaps.  The bitmap array is updated in place; each bucket is a
    list with push at the back and pop at the front. */
module Hffs {
  import opened Wrappers
  import opened Numeric
  import opened HffsTree

  /** A weight given as a fraction, scaled by the queue's factor before it
      picks a bucket. */
  datatype UnscaledWeight = UnscaledWeight(numerator: real, denominator: real)

  /** The path memoised by `pop_`: which bitmap was visited on a level and
      which of its bits was followed. */
  datatype LevelState = LevelState(bitmapIdx: nat, nonzeroBitIdx: bv5)

  /** `uint32((numerator * scale) / denominator)`: the conversion truncates
      toward zero. */
  function BucketIndex(w: UnscaledWeight, scale: real): (k: int)
    requires w.denominator != 0.0
    ensures w.numerator * scale / w.denominator >= 0.0 ==>
              k as real <= w.numerator * scale / w.denominator < k as real + 1.0
    ensures k >= 0 <==> w.numerator * scale / w.denominator > -1.0
  {
    Trunc((w.numerator * scale) / w.denominator)
  }

  /** The number of tags held in all buckets. */
  function TotalSize<T>(buckets: seq<seq<T>>): nat
  {
    if |buckets| == 0 then 0 else TotalSize(buckets[..|buckets| - 1]) + |buckets[|buckets| - 1]|
  }

  lemma {:induction false} TotalSizeUpdate<T>(buckets: seq<seq<T>>, k: nat, s: seq<T>)
    requires k < |buckets|
    ensures TotalSize(buckets[k := s]) + |buckets[k]| == TotalSize(buckets) + |s|
    decreases |buckets|
  {
    var n := |buckets| - 1;
    var b' := buckets[k := s];
    assert b'[..n] == if k == n then buckets[..n] else buckets[..n][k := s];
    if k < n {
      TotalSizeUpdate(buckets[..n], k, s);
    }
  }

  /** Tags in some bucket make the total positive, and a positive total
      has a non-empty bucket. */
  lemma {:induction false} TotalSizePositive<T>(buckets: seq<seq<T>>) returns (k: nat)
    requires TotalSize(buckets) > 0
    ensures NonEmpty(buckets, k)
    decreases |buckets|
  {
    var n := |buckets| - 1;
    if |buckets[n]| > 0 {
      k := n;
    } else {
      k := TotalSizePositive(buckets[..n]);
    }
  }

  /** Bucket `k` is the lowest that holds a tag. */
  ghost predicate LowestNonEmpty<T>(buckets: seq<seq<T>>, k: nat)
  {
    NonEmpty(buckets, k) && forall k': nat :: k' < k ==> !NonEmpty(buckets, k')
  }

  /** Bucket `k` is the highest that holds a tag. */
  ghost predicate HighestNonEmpty<T>(buckets: seq<seq<T>>, k: nat)
  {
    NonEmpty(buckets, k) && forall k': nat :: k < k' ==> !NonEmpty(buckets, k')
  }

  /** The level layout `init` computes: L >= 1 levels, the smallest with
      32^L >= num_buckets, level i starting at offset 32^0 + ... + 32^(i-1),
      Offset(L) bitmaps in all. */
  ghost predicate Layout(numBuckets: nat, numLevels: nat, numBitmaps: nat, levelOffsets: seq<nat>)
  {
    numLevels >= 1 &&
    numBuckets <= Pow32(numLevels) &&
    (numLevels == 1 || Pow32(numLevels - 1) < numBuckets) &&
    OffsetsOk(levelOffsets, numLevels) &&
    numBitmaps == Offset(numLevels)
  }

  /** Setting bit `b` of `x`, as `|= (1 << b)`: the bit is set and every
      other bit is kept. */
  method SetBitOf(x: bv32, b: bv5) returns (v: bv32)
    ensures BitSet(v, b)
    ensures forall c: bv5 :: c != b ==> BitSet(v, c) == BitSet(x, c)
  {
    v := x | Mask(b);
    SetBitSame(x, b);
    SetOtherBits(x, b);
  }

  /** Clearing bit `b` of `x`, as `&= ~(1 << b)`: the bit is clear and
      every other bit is kept. */
  method ClearBitOf(x: bv32, b: bv5) returns (v: bv32)
    ensures !BitSet(v, b)
    ensures forall c: bv5 :: c != b ==> BitSet(v, c) == BitSet(x, c)
  {
    v := x & !Mask(b);
    ClearBitSame(x, b);
    ClearOtherBits(x, b);
  }

  /** All buckets empty make a zero total. */
  lemma {:induction false} TotalSizeEmpty<T>(n: nat)
    ensures TotalSize(seq<seq<T>>(n, _ => [])) == 0
  {
    if n > 0 {
      assert seq<seq<T>>(n, _ => [])[..n - 1] == seq<seq<T>>(n - 1, _ => []);
      TotalSizeEmpty<T>(n - 1);
    }
  }

  /** At the end of the descent the node is a bucket: it is the lowest
      (highest) non-empty one. */
  lemma PathEnd<T>(L: nat, bm: seq<bv32>, buckets: seq<seq<T>>, isPopMin: bool, k: nat)
    requires |bm| == Offset(L) && OnPath(L, bm, buckets, isPopMin, L, k)
    ensures isPopMin ==> LowestNonEmpty(buckets, k)
    ensures !isPopMin ==> HighestNonEmpty(buckets, k)
  {
    assert Pow32(0) == 1;
  }

  /** The path `pop_` memoises down to level `idx`: on each level the
      bitmap index (`Offset(t) + nodes[t]`) and the bit followed, each
      bitmap a child of the one above, and `n` the node reached. */
  ghost predicate PathRecord(stack: seq<LevelState>, nodes: seq<nat>, idx: nat, n: nat)
  {
    |stack| == idx && |nodes| == idx &&
    (forall t :: 0 <= t < idx ==> stack[t].bitmapIdx == Offset(t) + nodes[t]) &&
    (forall t :: 0 < t < idx ==> nodes[t] == Child(nodes[t - 1], stack[t - 1].nonzeroBitIdx)) &&
    (idx > 0 ==> n == Child(nodes[idx - 1], stack[idx - 1].nonzeroBitIdx))
  }

  lemma PathRecordStep(stack: seq<LevelState>, nodes: seq<nat>, idx: nat, n: nat, bitmapIdx: nat, b: bv5)
    requires PathRecord(stack, nodes, idx, n) && bitmapIdx == Offset(idx) + n
    ensures PathRecord(stack + [LevelState(bitmapIdx, b)], nodes + [n], idx + 1, n * 32 + b as nat)
  {
    var stack', nodes' := stack + [LevelState(bitmapIdx, b)], nodes + [n];
    forall t | 0 <= t < idx + 1
      ensures stack'[t].bitmapIdx == Offset(t) + nodes'[t]
    {
      if t < idx {
        assert stack'[t] == stack[t] && nodes'[t] == nodes[t];
      }
    }
    forall t | 0 < t < idx + 1
      ensures nodes'[t] == Child(nodes'[t - 1], stack'[t - 1].nonzeroBitIdx)
    {
      assert stack'[t - 1] == stack[t - 1] && nodes'[t - 1] == nodes[t - 1];
      if t < idx {
        assert nodes'[t] == nodes[t];
      }
    }
    assert n * 32 + b as nat == Child(n, b);
  }

  /** The memoised path read upwards: each level's edge is the parent of
      the bitmap below it. */
  lemma PathParents(L: nat, stack: seq<LevelState>, nodes: seq<nat>, k: nat)
    requires PathRecord(stack, nodes, L, k) && L > 0
    ensures Edge(L - 1, nodes[L - 1], stack[L - 1].nonzeroBitIdx) == Edge(L - 1, k / 32, (k % 32) as bv5)
    ensures forall t :: 0 < t < L ==>
              ParentEdge(t, nodes[t]) == Edge(t - 1, nodes[t - 1], stack[t - 1].nonzeroBitIdx)
  {
    ChildParts(nodes[L - 1], stack[L - 1].nonzeroBitIdx);
    forall t | 0 < t < L
      ensures ParentEdge(t, nodes[t]) == Edge(t - 1, nodes[t - 1], stack[t - 1].nonzeroBitIdx)
    {
      ChildParts(nodes[t - 1], stack[t - 1].nonzeroBitIdx);
    }
  }

  /* ---------- `init` with 32-bit counters ---------- */

  /** The variables of `init`'s level-counting loop. */
  datatype InitState = InitState(numLevels: nat, numBitmaps: nat, currentBuckets: nat)

  /** One iteration of `init`'s loop as written: `current_buckets` and
      `kNumBitmaps` are `uint32_t`, so `current_buckets *= 32` wraps. */
  function InitStepAsWritten(s: InitState): (r: InitState)
    ensures r.numLevels == s.numLevels + 1
    ensures r.currentBuckets < TwoTo32 && r.numBitmaps < TwoTo32
    ensures s.currentBuckets * 32 < TwoTo32 ==> r.currentBuckets == s.currentBuckets * 32
  {
    InitState(s.numLevels + 1, (s.numBitmaps + s.currentBuckets) % TwoTo32,
              (s.currentBuckets * 32) % TwoTo32)
  }

  /** The loop's state after `n` iterations, starting from one level. */
  function InitAfter(n: nat): InitState
  {
    if n == 0 then InitState(1, 1, 32) else InitStepAsWritten(InitAfter(n - 1))
  }

  /** With 32-bit counters the bucket count covered reaches 2^30 after five
      iterations and wraps to 0 on the sixth, where it stays. */
  lemma {:induction false} InitCoverageAsWritten(n: nat)
    ensures InitAfter(n).currentBuckets == if n <= 5 then Pow32(n + 1) else 0
  {
    if n > 0 {
      InitCoverageAsWritten(n - 1);
      var c := InitAfter(n - 1).currentBuckets;
      PowValues();
      if n <= 5 {
        assert c * 32 == Pow32(n + 1);
        PowBound(n + 1);
      } else if n == 6 {
        assert c * 32 == 0x8_0000_0000;
      } else {
        assert c == 0;
      }
    }
  }

  /** 32^1 .. 32^6. */
  lemma PowValues()
    ensures Pow32(1) == 32 && Pow32(2) == 0x400 && Pow32(3) == 0x8000
    ensures Pow32(4) == 0x10_0000 && Pow32(5) == 0x200_0000 && Pow32(6) == 0x4000_0000
  {
    assert Pow32(1) == 32 && Pow32(2) == 0x400 && Pow32(3) == 0x8000;
  }

  /** 32^6 = 2^30 is the most a 32-bit `current_buckets` reaches. */
  lemma PowBound(n: nat)
    requires n <= 6
    ensures Pow32(n) <= 0x4000_0000
  {
    PowValues();
  }

  /** For more than 2^30 buckets the loop guard `kNumBuckets >
      current_buckets` holds after every number of iterations: `init`
      never returns. */
  lemma InitNeverEndsAsWritten(numBuckets: nat, n: nat)
    requires 0x4000_0000 < numBuckets < TwoTo32
    ensures numBuckets > InitAfter(n).currentBuckets
  {
    InitCoverageAsWritten(n);
    if n <= 5 {
      PowBound(n + 1);
    }
  }

  /** Where each level starts, for the first `n` levels. */
  ghost predicate OffsetsOk(levelOffsets: seq<nat>, n: nat)
  {
    |levelOffsets| == n && forall i :: 0 <= i < n ==> levelOffsets[i] == Offset(i)
  }

  lemma OffsetsExtend(levelOffsets: seq<nat>, n: nat)
    requires OffsetsOk(levelOffsets, n)
    ensures OffsetsOk(levelOffsets + [Offset(n)], n + 1)
  {}

  /** The level-counting loop of `init` with counters that do not wrap:
      multiply the buckets one more level covers by 32 until all are
      covered, recording where each level starts.  The result is the
      smallest number of levels whose 32^L buckets cover `numBuckets`. */
  method LevelLayout(numBuckets: nat) returns (numLevels: nat, numBitmaps: nat, levelOffsets: seq<nat>)
    ensures Layout(numBuckets, numLevels, numBitmaps, levelOffsets)
  {
    numLevels := 1;
    numBitmaps := 1;
    var currentBuckets := 32;
    levelOffsets := [0];
    while numBuckets > currentBuckets
      invariant numLevels >= 1 && currentBuckets == Pow32(numLevels) && numBitmaps == Offset(numLevels)
      invariant OffsetsOk(levelOffsets, numLevels)
      invariant numLevels == 1 || Pow32(numLevels - 1) < numBuckets
      decreases numBuckets - currentBuckets
    {
      OffsetsExtend(levelOffsets, numLevels);
      levelOffsets := levelOffsets + [numBitmaps];
      numBitmaps := numBitmaps + currentBuckets;
      currentBuckets := currentBuckets * 32;
      numLevels := numLevels + 1;
    }
  }

  /** The bit `pop_` follows: find-first-set for `popMin`, the highest set
      bit for `popMax`. */
  method PickBit(x: bv32, isPopMin: bool) returns (b: bv5)
    requires x != 0
    ensures BitSet(x, b)
    ensures isPopMin ==> NoBitBelow(x, b)
    ensures !isPopMin ==> NoBitAbove(x, b)
  {
    if isPopMin {
      b := LowestSetBit(x);
    } else {
      b := HighestSetBit(x);
    }
  }

  class HffsQueue<Tag> {
    const scaleFactor: real
    const numBuckets: nat
    const numLevels: nat
    const numBitmaps: nat
    const levelOffsets: seq<nat>
    const bitmaps: array<bv32>
    var size: nat
    var buckets: seq<seq<Tag>>

    /** The layout is the one `init` computes, `size` counts the tags in the
        buckets, and every bitmap bit is set exactly when what it stands
        for is non-empty. */
    ghost predicate Valid()
      reads this, bitmaps
    {
      Layout(numBuckets, numLevels, numBitmaps, levelOffsets) &&
      bitmaps.Length == numBitmaps &&
      |buckets| == numBuckets &&
      size == TotalSize(buckets) &&
      TreeOk(numLevels, bitmaps[..], buckets)
    }

    /** The constructor with `init`: the number of levels is found by
        multiplying the bucket count one level covers by 32 until it covers
        all buckets, recording where each level starts; then all bitmaps
        are zero and all buckets empty. */
    constructor(numBuckets: nat, scaleFactor: real)
      requires numBuckets < TwoTo32
      ensures Valid() && fresh(bitmaps)
      ensures this.numBuckets == numBuckets && this.scaleFactor == scaleFactor
      ensures size == 0 && buckets == seq(numBuckets, _ => [])
    {
      var levels, count, offsets := LevelLayout(numBuckets);
      this.scaleFactor := scaleFactor;
      this.numBuckets := numBuckets;
      numLevels := levels;
      numBitmaps := count;
      levelOffsets := offsets;
      bitmaps := new bv32[count](_ => 0);
      size := 0;
      buckets := seq(numBuckets, _ => []);
      new;
      TotalSizeEmpty<Tag>(numBuckets);
      assert bitmaps[..] == seq(Offset(levels), _ => 0);
      EmptyTreeOk(levels, buckets);
    }

    function Size(): (n: nat)
      requires Valid()
      reads this, bitmaps
      ensures n == TotalSize(buckets)
    {
      size
    }

    predicate IsEmpty()
      reads this
    {
      size == 0
    }

    /** `push`: the tag goes to the back of the bucket its scaled weight
        picks, and the bits above that bucket are set, going up only while
        a bitmap was zero before. */
    method Push(tag: Tag, weight: UnscaledWeight)
      requires Valid()
      requires weight.denominator != 0.0
      requires 0 <= BucketIndex(weight, scaleFactor) < numBuckets
      modifies this, bitmaps
      ensures Valid()
      ensures var k := BucketIndex(weight, scaleFactor);
              buckets == old(buckets)[k := old(buckets)[k] + [tag]]
      ensures size == old(size) + 1
    {
      var k: nat := BucketIndex(weight, scaleFactor);
      var update := |buckets[k]| == 0;
      BucketFilled(numLevels, bitmaps[..], buckets, k, buckets[k] + [tag]);
      TotalSizeUpdate(buckets, k, buckets[k] + [tag]);
      buckets := buckets[k := buckets[k] + [tag]];
      size := size + 1;
      PropagateSet(k / 32, (k % 32) as bv5, update);
    }

    /** The upward pass of `push`: from the last level towards the root,
        set the bit that stands for the bucket (then for the bitmap below),
        continuing only while the bitmap was zero before. */
    method PropagateSet(node: nat, bit: bv5, update: bool)
      requires Layout(numBuckets, numLevels, numBitmaps, levelOffsets) && bitmaps.Length == numBitmaps
      requires SetPending(numLevels, bitmaps[..], buckets, update, Edge(numLevels - 1, node, bit))
      modifies bitmaps
      ensures TreeOk(numLevels, bitmaps[..], buckets)
    {
      var idx: int := numLevels - 1;
      var intralevel := node;
      var bitIdx := bit;
      var update := update;
      ghost var e := Edge(numLevels - 1, node, bit);
      while idx >= 0 && update
        invariant -1 <= idx < numLevels
        invariant update && idx >= 0 ==> e == Edge(idx, intralevel, bitIdx)
        invariant SetPending(numLevels, bitmaps[..], buckets, update && idx >= 0, e)
        decreases idx + 1
      {
        update := SetAt(idx, intralevel, bitIdx);
        e := ParentEdge(idx, intralevel);
        bitIdx := (intralevel % 32) as bv5;
        intralevel := intralevel / 32;
        idx := idx - 1;
      }
    }

    /** One step of the upward pass of `push`: set bit `bitIdx` of bitmap
        `intralevel` on level `idx`, reporting whether it was zero. */
    method SetAt(idx: nat, intralevel: nat, bitIdx: bv5) returns (wasZero: bool)
      requires Layout(numBuckets, numLevels, numBitmaps, levelOffsets) && bitmaps.Length == numBitmaps
      requires SetPending(numLevels, bitmaps[..], buckets, true, Edge(idx, intralevel, bitIdx))
      modifies bitmaps
      ensures SetPending(numLevels, bitmaps[..], buckets, wasZero && idx > 0, ParentEdge(idx, intralevel))
    {
      ghost var bm := bitmaps[..];
      OffsetMonotone(idx, numLevels);
      var bitmapIdx := levelOffsets[idx] + intralevel;
      wasZero := bitmaps[bitmapIdx] == 0;
      var v := SetBitOf(bitmaps[bitmapIdx], bitIdx);
      bitmaps[bitmapIdx] := v;
      SetStep(numLevels, bm, bitmaps[..], buckets, Edge(idx, intralevel, bitIdx), v);
    }

    /** `pop_`: follows the lowest (`popMin`) or highest (`popMax`) set bit
        from the root down to a bucket, takes the tag at that bucket's
        front, and clears bits going up while a bitmap becomes zero.  The
        bucket reached is the lowest (highest) non-empty one; an empty queue
        throws. */
    method Pop(isPopMin: bool) returns (r: Result<Tag>, ghost k: nat)
      requires Valid()
      modifies this, bitmaps
      ensures Valid()
      ensures old(size) == 0 ==> r == Failure(EmptyQueue) && unchanged(this) && unchanged(bitmaps)
      ensures old(size) > 0 ==>
                r.Success? &&
                (isPopMin ==> LowestNonEmpty(old(buckets), k)) &&
                (!isPopMin ==> HighestNonEmpty(old(buckets), k)) &&
                r.value == old(buckets)[k][0] &&
                buckets == old(buckets)[k := old(buckets)[k][1..]] &&
                size == old(size) - 1
    {
      if size == 0 {
        return Failure(EmptyQueue), 0;
      }
      var bucket, stack;
      ghost var nodes;
      bucket, stack, nodes := Descend(isPopMin);
      k := bucket;
      PathEnd(numLevels, bitmaps[..], buckets, isPopMin, k);
      var entry := buckets[bucket][0];
      var update := |buckets[bucket]| == 1;
      BucketDrained(numLevels, bitmaps[..], buckets, bucket, buckets[bucket][1..]);
      TotalSizeUpdate(buckets, bucket, buckets[bucket][1..]);
      buckets := buckets[bucket := buckets[bucket][1..]];
      size := size - 1;
      PropagateClear(stack, nodes, bucket, update);
      r := Success(entry);
    }

    /** The downward pass of `pop_`: on every level take the lowest
        (highest) set bit of the current bitmap and descend into what it
        stands for, memoising the bitmap index and bit per level. */
    method Descend(isPopMin: bool) returns (k: nat, stack: seq<LevelState>, ghost nodes: seq<nat>)
      requires Valid() && size > 0
      ensures OnPath(numLevels, bitmaps[..], buckets, isPopMin, numLevels, k)
      ensures PathRecord(stack, nodes, numLevels, k)
    {
      var w := TotalSizePositive(buckets);
      PathStart(numLevels, bitmaps[..], buckets, isPopMin, w);
      var intralevel: nat := 0;
      var idx := 0;
      stack := [];
      nodes := [];
      while idx < numLevels
        invariant 0 <= idx <= numLevels
        invariant OnPath(numLevels, bitmaps[..], buckets, isPopMin, idx, intralevel)
        invariant PathRecord(stack, nodes, idx, intralevel)
      {
        var bitmapIdx, b := PickAt(idx, intralevel, isPopMin);
        PathRecordStep(stack, nodes, idx, intralevel, bitmapIdx, b);
        stack := stack + [LevelState(bitmapIdx, b)];
        nodes := nodes + [intralevel];
        intralevel := intralevel * 32 + b as nat;
        idx := idx + 1;
      }
      k := intralevel;
    }

    /** One step of the downward pass of `pop_`: the bit followed in the
        bitmap `intralevel` of level `idx`. */
    method PickAt(idx: nat, intralevel: nat, isPopMin: bool) returns (bitmapIdx: nat, b: bv5)
      requires Layout(numBuckets, numLevels, numBitmaps, levelOffsets) && bitmaps.Length == numBitmaps
      requires TreeOk(numLevels, bitmaps[..], buckets) && idx < numLevels
      requires OnPath(numLevels, bitmaps[..], buckets, isPopMin, idx, intralevel)
      ensures bitmapIdx == Offset(idx) + intralevel
      ensures OnPath(numLevels, bitmaps[..], buckets, isPopMin, idx + 1, Child(intralevel, b))
    {
      OffsetMonotone(idx, numLevels);
      bitmapIdx := levelOffsets[idx] + intralevel;
      var x := bitmaps[bitmapIdx];
      b := PickBit(x, isPopMin);
      DescendStep(numLevels, bitmaps[..], buckets, isPopMin, idx, intralevel, x, b);
    }

    /** The upward pass of `pop_`: from the last level towards the root,
        clear the memoised bit, continuing only while the bitmap becomes
        zero. */
    method PropagateClear(stack: seq<LevelState>, ghost nodes: seq<nat>, ghost k: nat, update: bool)
      requires Layout(numBuckets, numLevels, numBitmaps, levelOffsets) && bitmaps.Length == numBitmaps
      requires PathRecord(stack, nodes, numLevels, k)
      requires ClearPending(numLevels, bitmaps[..], buckets, update, Edge(numLevels - 1, k / 32, (k % 32) as bv5))
      modifies bitmaps
      ensures TreeOk(numLevels, bitmaps[..], buckets)
    {
      PathParents(numLevels, stack, nodes, k);
      var idx: int := numLevels - 1;
      var update := update;
      ghost var e := Edge(numLevels - 1, nodes[numLevels - 1], stack[numLevels - 1].nonzeroBitIdx);
      while idx >= 0 && update
        invariant -1 <= idx < numLevels
        invariant update && idx >= 0 ==> e == Edge(idx, nodes[idx], stack[idx].nonzeroBitIdx)
        invariant ClearPending(numLevels, bitmaps[..], buckets, update && idx >= 0, e)
        decreases idx + 1
      {
        update := ClearAt(idx, stack[idx], nodes[idx]);
        e := ParentEdge(idx, nodes[idx]);
        idx := idx - 1;
      }
    }

    /** One step of the upward pass of `pop_`: clear the memoised bit of the
        memoised bitmap on level `idx`, reporting whether it became zero. */
    method ClearAt(idx: nat, state: LevelState, ghost node: nat) returns (isZero: bool)
      requires Layout(numBuckets, numLevels, numBitmaps, levelOffsets) && bitmaps.Length == numBitmaps
      requires state.bitmapIdx == Offset(idx) + node
      requires ClearPending(numLevels, bitmaps[..], buckets, true, Edge(idx, node, state.nonzeroBitIdx))
      modifies bitmaps
      ensures ClearPending(numLevels, bitmaps[..], buckets, isZero && idx > 0, ParentEdge(idx, node))
    {
      ghost var bm := bitmaps[..];
      OffsetMonotone(idx, numLevels);
      var v := ClearBitOf(bitmaps[state.bitmapIdx], state.nonzeroBitIdx);
      bitmaps[state.bitmapIdx] := v;
      isZero := v == 0;
      ClearStep(numLevels, bm, bitmaps[..], buckets, Edge(idx, node, state.nonzeroBitIdx), v);
    }

    /** `popMin`: the front tag of the lowest non-empty bucket. */
    method PopMin() returns (r: Result<Tag>, ghost k: nat)
      requires Valid()
      modifies this, bitmaps
      ensures Valid()
      ensures old(size) == 0 ==> r == Failure(EmptyQueue) && unchanged(this) && unchanged(bitmaps)
      ensures old(size) > 0 ==>
                r.Success? && LowestNonEmpty(old(buckets), k) &&
                r.value == old(buckets)[k][0] &&
                buckets == old(buckets)[k := old(buckets)[k][1..]] &&
                size == old(size) - 1
    {
      r, k := Pop(true);
    }

    /** `popMax`: the front tag of the highest non-empty bucket. */
    method PopMax() returns (r: Result<Tag>, ghost k: nat)
      requires Valid()
      modifies this, bitmaps
      ensures Valid()
      ensures old(size) == 0 ==> r == Failure(EmptyQueue) && unchanged(this) && unchanged(bitmaps)
      ensures old(size) > 0 ==>
                r.Success? && HighestNonEmpty(old(buckets), k) &&
                r.value == old(buckets)[k][0] &&
                buckets == old(buckets)[k := old(buckets)[k][1..]] &&
                size == old(size) - 1
    {
      r, k := Pop(false);
    }
  }
}
