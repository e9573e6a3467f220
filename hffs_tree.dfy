/** The bitmap tree behind the hierarchical find-first-set queue
    (scheduler/heaps/hffs_queue/software/hffs_queue.hpp), as values.

    A queue with L levels keeps 32^i bitmaps of 32 bits on level i, stored
    one level after another in a single array: level i starts at offset
    32^0 + ... + 32^(i-1).  Bit b of bitmap j on level i stands for node
    j*32+b on level i+1, and on the last level for bucket j*32+b.  The
    invariant is that a bit is set exactly when what it stands for is
    non-empty: a non-zero bitmap below, or a bucket holding a tag. */
module HffsTree {

  /* ---------- 32-bit words ---------- */

  function Mask(b: bv5): bv32 { (1 as bv32) << b }

  predicate BitSet(x: bv32, b: bv5) { x & Mask(b) != 0 }

  lemma SetBitSame(x: bv32, b: bv5)
    ensures BitSet(x | Mask(b), b)
  {}

  lemma SetBitOther(x: bv32, b: bv5, c: bv5)
    requires c != b
    ensures BitSet(x | Mask(b), c) == BitSet(x, c)
  {}

  lemma ClearBitSame(x: bv32, b: bv5)
    ensures !BitSet(x & !Mask(b), b)
  {}

  lemma ClearBitOther(x: bv32, b: bv5, c: bv5)
    requires c != b
    ensures BitSet(x & !Mask(b), c) == BitSet(x, c)
  {}

  /** Setting bit `b` leaves every other bit as it was. */
  lemma SetOtherBits(x: bv32, b: bv5)
    ensures forall c: bv5 :: c != b ==> BitSet(x | Mask(b), c) == BitSet(x, c)
  {
    forall c: bv5 | c != b
      ensures BitSet(x | Mask(b), c) == BitSet(x, c)
    {
      SetBitOther(x, b, c);
    }
  }

  /** Clearing bit `b` leaves every other bit as it was. */
  lemma ClearOtherBits(x: bv32, b: bv5)
    ensures forall c: bv5 :: c != b ==> BitSet(x & !Mask(b), c) == BitSet(x, c)
  {
    forall c: bv5 | c != b
      ensures BitSet(x & !Mask(b), c) == BitSet(x, c)
    {
      ClearBitOther(x, b, c);
    }
  }

  lemma ZeroHasNoBit(x: bv32, b: bv5)
    requires x == 0
    ensures !BitSet(x, b)
  {}

  lemma BitMakesNonZero(x: bv32, b: bv5)
    requires BitSet(x, b)
    ensures x != 0
  {}

  /** No bit of `x` lies below position `c`. */
  predicate NoBitBelow(x: bv32, c: bv5) { (x >> c) << c == x }

  /** No bit of `x` lies above position `c`. */
  predicate NoBitAbove(x: bv32, c: bv5) { x >> c <= 1 }

  lemma BelowLowest(x: bv32, c: bv5, d: bv5)
    requires NoBitBelow(x, c) && d < c
    ensures !BitSet(x, d)
  {}

  lemma AboveHighest(x: bv32, c: bv5, d: bv5)
    requires NoBitAbove(x, c) && c < d
    ensures !BitSet(x, d)
  {}

  /** `31 - __builtin_clz(x)`: the position of the highest set bit of a
      non-zero word, found by halving the search range. */
  method HighestSetBit(x: bv32) returns (c: bv5)
    requires x != 0
    ensures BitSet(x, c) && NoBitAbove(x, c)
  {
    var n0: bv5 := if x >> 16 != 0 then 16 else 0;
    var x1 := x >> n0;
    var n1: bv5 := if x1 >> 8 != 0 then 8 else 0;
    var x2 := x1 >> n1;
    var n2: bv5 := if x2 >> 4 != 0 then 4 else 0;
    var x3 := x2 >> n2;
    var n3: bv5 := if x3 >> 2 != 0 then 2 else 0;
    var x4 := x3 >> n3;
    var n4: bv5 := if x4 >> 1 != 0 then 1 else 0;
    c := n0 + n1 + n2 + n3 + n4;
  }

  lemma IsolateLowest(x: bv32)
    requires x != 0
    ensures var y := x & (0 - x);
            y != 0 && y & (y - 1) == 0 && x & y == y && x & (y - 1) == 0
  {}

  lemma PowerOfTwoAt(y: bv32, c: bv5)
    requires y & (y - 1) == 0 && y >> c <= 1 && y & Mask(c) != 0
    ensures y == Mask(c)
  {}

  lemma LowBitsClear(x: bv32, c: bv5)
    requires x & (Mask(c) - 1) == 0
    ensures NoBitBelow(x, c)
  {}

  lemma LowestOfIsolated(x: bv32, c: bv5)
    requires x != 0
    requires var y := x & (0 - x); BitSet(y, c) && NoBitAbove(y, c)
    ensures BitSet(x, c) && NoBitBelow(x, c)
  {
    var y := x & (0 - x);
    IsolateLowest(x);
    PowerOfTwoAt(y, c);
    LowBitsClear(x, c);
  }

  /** `__builtin_ctz(x)`: the position of the lowest set bit of a non-zero
      word, as the highest bit of the word with only that bit kept. */
  method LowestSetBit(x: bv32) returns (c: bv5)
    requires x != 0
    ensures BitSet(x, c) && NoBitBelow(x, c)
  {
    IsolateLowest(x);
    c := HighestSetBit(x & (0 - x));
    LowestOfIsolated(x, c);
  }

  /* ---------- Layout of the levels ---------- */

  function Pow32(n: nat): (p: nat)
    ensures p >= 1
  {
    if n == 0 then 1 else 32 * Pow32(n - 1)
  }

  /** Where level i starts in the bitmap array: 32^0 + ... + 32^(i-1). */
  function Offset(i: nat): nat
  {
    if i == 0 then 0 else Offset(i - 1) + Pow32(i - 1)
  }

  lemma {:induction false} OffsetMonotone(i: nat, k: nat)
    requires i <= k
    ensures Offset(i) + (if i < k then Pow32(i) else 0) <= Offset(k)
    decreases k - i
  {
    if i < k {
      if i + 1 < k {
        OffsetMonotone(i + 1, k);
      }
    }
  }

  /** Two (level, index) pairs denote the same array slot only if they are
      the same pair: the levels occupy disjoint ranges. */
  lemma OffsetInjective(i: nat, j: nat, i': nat, j': nat)
    requires j < Pow32(i) && j' < Pow32(i')
    requires Offset(i) + j == Offset(i') + j'
    ensures i == i' && j == j'
  {
    if i < i' {
      OffsetMonotone(i, i');
    } else if i' < i {
      OffsetMonotone(i', i);
    }
  }

  /** The index, on the next level, of the node that bit `b` of node `j`
      stands for. */
  function Child(j: nat, b: bv5): nat { j * 32 + b as nat }

  lemma ChildParts(j: nat, b: bv5)
    ensures Child(j, b) / 32 == j && (Child(j, b) % 32) as bv5 == b
  {}

  lemma ChildOfParts(c: nat)
    ensures Child(c / 32, (c % 32) as bv5) == c
  {}

  lemma ChildBound(i: nat, j: nat, b: bv5)
    requires j < Pow32(i)
    ensures Child(j, b) < Pow32(i + 1)
  {}

  /** (k / s) / 32 == k / (32 * s): walking one level up from a bucket. */
  lemma DivDiv(k: nat, s: nat)
    requires s > 0
    ensures (k / s) / 32 == k / (32 * s)
  {
    var q := k / s;
    var r := k % s;
    var a := q / 32;
    var d := q % 32;
    assert q == 32 * a + d;
    assert s * q == s * (32 * a) + s * d;
    MulAtMost(s, d, 31);
    DivUnique(k, 32 * s, a, s * d + r);
  }

  lemma MulAtMost(s: nat, d: nat, e: nat)
    requires d <= e
    ensures s * d <= s * e
  {}

  lemma DivUnique(k: int, m: int, a: int, t: int)
    requires m > 0 && 0 <= t < m && k == m * a + t
    ensures k / m == a
  {
    var q := k / m;
    assert m * q - m * a == m * (q - a);
    MulSmall(m, q - a);
  }

  /** A multiple of m strictly between -m and m is zero. */
  lemma MulSmall(m: int, d: int)
    requires m > 0 && -m < m * d < m
    ensures d == 0
  {}

  lemma DivNonNeg(k: nat, s: nat)
    requires s > 0
    ensures k / s >= 0
  {}

  lemma DivSmall(k: nat, s: nat)
    requires k < s
    ensures k / s == 0
  {}

  lemma DivBelow(k: nat, s: nat)
    requires s > 0 && k < 32 * s
    ensures k / s < 32
  {}

  /* ---------- The tree ---------- */

  /** Which bit of which bitmap: bit `bit` of bitmap `node` on `level`. */
  datatype Edge = Edge(level: nat, node: nat, bit: bv5)

  function Parent(level: nat, node: nat): Edge
    requires level > 0
  {
    Edge(level - 1, node / 32, (node % 32) as bv5)
  }

  predicate NonEmpty<T>(buckets: seq<seq<T>>, k: nat)
  {
    k < |buckets| && |buckets[k]| > 0
  }

  /** A bitmap array and buckets that fit a tree of L levels. */
  ghost predicate Shape<T>(L: nat, bm: seq<bv32>, buckets: seq<seq<T>>)
  {
    L >= 1 && |bm| == Offset(L) && |buckets| <= Pow32(L)
  }

  predicate ValidNode(L: nat, i: nat, j: nat)
  {
    i < L && j < Pow32(i)
  }

  function Node(L: nat, bm: seq<bv32>, i: nat, j: nat): bv32
    requires |bm| == Offset(L) && ValidNode(L, i, j)
  {
    OffsetMonotone(i, L);
    bm[Offset(i) + j]
  }

  /** What bit `b` of node `j` on level `i` stands for is non-empty. */
  predicate Below<T>(L: nat, bm: seq<bv32>, buckets: seq<seq<T>>, i: nat, j: nat, b: bv5)
    requires |bm| == Offset(L) && ValidNode(L, i, j)
  {
    ChildBound(i, j, b);
    if i == L - 1 then NonEmpty(buckets, Child(j, b))
    else Node(L, bm, i + 1, Child(j, b)) != 0
  }

  predicate EdgeOk<T>(L: nat, bm: seq<bv32>, buckets: seq<seq<T>>, i: nat, j: nat, b: bv5)
    requires |bm| == Offset(L) && ValidNode(L, i, j)
  {
    BitSet(Node(L, bm, i, j), b) == Below(L, bm, buckets, i, j, b)
  }

  /** The bitmap invariant holds on every edge except possibly `e`. */
  ghost predicate TreeOkExcept<T>(L: nat, bm: seq<bv32>, buckets: seq<seq<T>>, e: Edge)
  {
    Shape(L, bm, buckets) &&
    forall i: nat, j: nat, b: bv5 {:trigger EdgeOk(L, bm, buckets, i, j, b)} ::
      ValidNode(L, i, j) && Edge(i, j, b) != e ==> EdgeOk(L, bm, buckets, i, j, b)
  }

  /** An edge no tree has: the root level holds a single bitmap. */
  const NoEdge := Edge(0, 1, 0)

  /** The bitmap invariant: a bit is set exactly when its child bitmap is
      non-zero, or, on the last level, when its bucket is non-empty. */
  ghost predicate TreeOk<T>(L: nat, bm: seq<bv32>, buckets: seq<seq<T>>)
  {
    TreeOkExcept(L, bm, buckets, NoEdge)
  }

  /** The edge that stands for bitmap `n` on level `i`, or none for the root. */
  function ParentEdge(i: nat, n: nat): Edge
  {
    if i > 0 then Parent(i, n) else NoEdge
  }

  /** A tree with zero bitmaps and empty buckets satisfies the invariant. */
  lemma EmptyTreeOk<T>(L: nat, buckets: seq<seq<T>>)
    requires L >= 1 && |buckets| <= Pow32(L)
    requires forall k :: 0 <= k < |buckets| ==> buckets[k] == []
    ensures TreeOk(L, seq(Offset(L), _ => 0), buckets)
  {
    var bm: seq<bv32> := seq(Offset(L), _ => 0);
    forall i: nat, j: nat, b: bv5 | ValidNode(L, i, j)
      ensures EdgeOk(L, bm, buckets, i, j, b)
    {
      OffsetMonotone(i, L);
      ZeroHasNoBit(Node(L, bm, i, j), b);
      ChildBound(i, j, b);
      if i < L - 1 {
        OffsetMonotone(i + 1, L);
        assert Node(L, bm, i + 1, Child(j, b)) == 0;
      }
    }
  }

  /* ---------- Order: which buckets lie under which bits ---------- */

  /** Everything under a clear bit is empty: every bucket k whose index
      leads through bit `d` of node `j` on level `i` is empty. */
  lemma {:induction false} EmptyUnderClearBit<T>(L: nat, bm: seq<bv32>, buckets: seq<seq<T>>,
                                                 i: nat, j: nat, d: bv5, k: nat)
    requires TreeOk(L, bm, buckets) && ValidNode(L, i, j)
    requires !BitSet(Node(L, bm, i, j), d)
    requires k / Pow32(L - i - 1) == Child(j, d)
    ensures !NonEmpty(buckets, k)
    decreases L - i
  {
    assert EdgeOk(L, bm, buckets, i, j, d);
    if i < L - 1 {
      var c := Child(j, d);
      ChildBound(i, j, d);
      var s := Pow32(L - i - 2);
      assert Pow32(L - i - 1) == 32 * s;
      DivDiv(k, s);
      var d' := ((k / s) % 32) as bv5;
      ChildOfParts(k / s);
      ZeroHasNoBit(Node(L, bm, i + 1, c), d');
      EmptyUnderClearBit(L, bm, buckets, i + 1, c, d', k);
    }
  }

  /** A non-empty bucket leaves a set bit in the root bitmap. */
  lemma RootNonZero<T>(L: nat, bm: seq<bv32>, buckets: seq<seq<T>>, k: nat)
    requires TreeOk(L, bm, buckets) && NonEmpty(buckets, k)
    ensures Node(L, bm, 0, 0) != 0
  {
    var s := Pow32(L - 1);
    assert Pow32(L) == 32 * s;
    var c := k / s;
    DivBelow(k, s);
    DivSmall(c, 32);
    ChildOfParts(c);
    var d := (c % 32) as bv5;
    if Node(L, bm, 0, 0) == 0 {
      ZeroHasNoBit(Node(L, bm, 0, 0), d);
      EmptyUnderClearBit(L, bm, buckets, 0, 0, d, k);
    }
  }

  /** Every bucket whose index, divided by `span`, is below `n` is empty. */
  ghost predicate EmptyLeftOf<T>(buckets: seq<seq<T>>, span: nat, n: nat)
    requires span > 0
  {
    forall k: nat {:trigger NonEmpty(buckets, k)} :: k / span < n ==> !NonEmpty(buckets, k)
  }

  /** Every bucket whose index, divided by `span`, is above `n` is empty. */
  ghost predicate EmptyRightOf<T>(buckets: seq<seq<T>>, span: nat, n: nat)
    requires span > 0
  {
    forall k: nat {:trigger NonEmpty(buckets, k)} :: k / span > n ==> !NonEmpty(buckets, k)
  }

  /** Taking the lowest set bit of node `n` keeps "everything to the left
      is empty" true one level down. */
  lemma MinStep<T>(L: nat, bm: seq<bv32>, buckets: seq<seq<T>>, i: nat, n: nat, b: bv5)
    requires TreeOk(L, bm, buckets) && ValidNode(L, i, n)
    requires EmptyLeftOf(buckets, Pow32(L - i), n)
    requires NoBitBelow(Node(L, bm, i, n), b)
    ensures EmptyLeftOf(buckets, Pow32(L - i - 1), Child(n, b))
  {
    var s := Pow32(L - i - 1);
    assert Pow32(L - i) == 32 * s;
    forall k: nat | k / s < Child(n, b)
      ensures !NonEmpty(buckets, k)
    {
      var c := k / s;
      DivDiv(k, s);
      if c / 32 == n {
        var d := (c % 32) as bv5;
        ChildOfParts(c);
        BelowLowest(Node(L, bm, i, n), b, d);
        EmptyUnderClearBit(L, bm, buckets, i, n, d, k);
      }
    }
  }

  /** Taking the highest set bit of node `n` keeps "everything to the right
      is empty" true one level down. */
  lemma MaxStep<T>(L: nat, bm: seq<bv32>, buckets: seq<seq<T>>, i: nat, n: nat, b: bv5)
    requires TreeOk(L, bm, buckets) && ValidNode(L, i, n)
    requires EmptyRightOf(buckets, Pow32(L - i), n)
    requires NoBitAbove(Node(L, bm, i, n), b)
    ensures EmptyRightOf(buckets, Pow32(L - i - 1), Child(n, b))
  {
    var s := Pow32(L - i - 1);
    assert Pow32(L - i) == 32 * s;
    forall k: nat | k / s > Child(n, b)
      ensures !NonEmpty(buckets, k)
    {
      var c := k / s;
      DivDiv(k, s);
      if c / 32 == n {
        var d := (c % 32) as bv5;
        ChildOfParts(c);
        AboveHighest(Node(L, bm, i, n), b, d);
        EmptyUnderClearBit(L, bm, buckets, i, n, d, k);
      }
    }
  }

  /** The state of `pop`'s downward pass at level `idx`, node `n`: above
      the last level the node is a non-zero bitmap, below it `n` is a
      non-empty bucket; and every bucket to the left (for `popMin`) or to
      the right (for `popMax`) of the subtree of `n` is empty. */
  ghost predicate OnPath<T>(L: nat, bm: seq<bv32>, buckets: seq<seq<T>>, isPopMin: bool, idx: nat, n: nat)
    requires |bm| == Offset(L)
  {
    idx <= L &&
    (idx < L ==> ValidNode(L, idx, n) && Node(L, bm, idx, n) != 0) &&
    (idx == L ==> NonEmpty(buckets, n)) &&
    (isPopMin ==> EmptyLeftOf(buckets, Pow32(L - idx), n)) &&
    (!isPopMin ==> EmptyRightOf(buckets, Pow32(L - idx), n))
  }

  /** The descent starts at the root of a non-empty tree. */
  lemma PathStart<T>(L: nat, bm: seq<bv32>, buckets: seq<seq<T>>, isPopMin: bool, k: nat)
    requires TreeOk(L, bm, buckets) && NonEmpty(buckets, k)
    ensures OnPath(L, bm, buckets, isPopMin, 0, 0)
  {
    RootNonZero(L, bm, buckets, k);
    var span := Pow32(L);
    assert ValidNode(L, 0, 0);
    forall k': nat
      ensures k' / span >= 0
    {
      DivNonNeg(k', span);
    }
    assert EmptyLeftOf(buckets, Pow32(L - 0), 0);
    forall k': nat | k' / span > 0
      ensures !NonEmpty(buckets, k')
    {
      if NonEmpty(buckets, k') {
        DivSmall(k', span);
      }
    }
  }

  /** Following the lowest (highest) set bit of the current node keeps the
      descent on the path. */
  lemma DescendStep<T>(L: nat, bm: seq<bv32>, buckets: seq<seq<T>>, isPopMin: bool, idx: nat, n: nat, x: bv32, b: bv5)
    requires TreeOk(L, bm, buckets) && OnPath(L, bm, buckets, isPopMin, idx, n) && idx < L
    requires x == Node(L, bm, idx, n)
    requires BitSet(x, b)
    requires isPopMin ==> NoBitBelow(x, b)
    requires !isPopMin ==> NoBitAbove(x, b)
    ensures OnPath(L, bm, buckets, isPopMin, idx + 1, Child(n, b))
  {
    if isPopMin {
      MinStep(L, bm, buckets, idx, n, b);
    } else {
      MaxStep(L, bm, buckets, idx, n, b);
    }
    assert EdgeOk(L, bm, buckets, idx, n, b);
    ChildBound(idx, n, b);
  }

  /* ---------- Writing one bitmap ---------- */

  /** Overwriting bitmap `n` of level `i` changes no other bitmap. */
  lemma NodeFrame(L: nat, bm: seq<bv32>, i: nat, n: nat, v: bv32, i': nat, j': nat)
    requires |bm| == Offset(L) && ValidNode(L, i, n) && ValidNode(L, i', j')
    requires !(i' == i && j' == n)
    ensures Offset(i) + n < |bm|
    ensures Node(L, bm[Offset(i) + n := v], i', j') == Node(L, bm, i', j')
  {
    OffsetMonotone(i, L);
    OffsetMonotone(i', L);
    if Offset(i') + j' == Offset(i) + n {
      OffsetInjective(i', j', i, n);
    }
  }

  /** Overwriting bitmap `n` of level `i` leaves what its own bits stand
      for unchanged. */
  lemma WriteKeepsBelow<T>(L: nat, bm: seq<bv32>, buckets: seq<seq<T>>, i: nat, n: nat, v: bv32, b: bv5)
    requires Shape(L, bm, buckets) && ValidNode(L, i, n)
    ensures Offset(i) + n < |bm|
    ensures Below(L, bm[Offset(i) + n := v], buckets, i, n, b) == Below(L, bm, buckets, i, n, b)
    ensures Node(L, bm[Offset(i) + n := v], i, n) == v
  {
    OffsetMonotone(i, L);
    if i < L - 1 {
      ChildBound(i, n, b);
      NodeFrame(L, bm, i, n, v, i + 1, Child(n, b));
    }
  }

  /** Overwriting bitmap `n` of level `i` changes no edge except that
      bitmap's own bits and the parent bit that stands for it. */
  lemma WriteFrame<T>(L: nat, bm: seq<bv32>, buckets: seq<seq<T>>, i: nat, n: nat, v: bv32,
                      i': nat, j': nat, b': bv5)
    requires Shape(L, bm, buckets) && ValidNode(L, i, n) && ValidNode(L, i', j')
    requires !(i' == i && j' == n)
    requires !(i' + 1 == i && Child(j', b') == n)
    ensures Offset(i) + n < |bm|
    ensures EdgeOk(L, bm[Offset(i) + n := v], buckets, i', j', b') ==
            EdgeOk(L, bm, buckets, i', j', b')
  {
    NodeFrame(L, bm, i, n, v, i', j');
    if i' < L - 1 {
      ChildBound(i', j', b');
      NodeFrame(L, bm, i, n, v, i' + 1, Child(j', b'));
    }
  }

  /** Overwriting bitmap `e.node` of level `e.level` with a word that
      differs from it at most in bit `e.bit`, and is right there, repairs
      the one wrong edge `e`; afterwards only the parent bit that stands
      for the bitmap can be wrong. */
  lemma WriteRepairs<T>(L: nat, bm: seq<bv32>, buckets: seq<seq<T>>, e: Edge, v: bv32)
    requires TreeOkExcept(L, bm, buckets, e) && ValidNode(L, e.level, e.node)
    requires forall c: bv5 :: c != e.bit ==> BitSet(v, c) == BitSet(Node(L, bm, e.level, e.node), c)
    requires BitSet(v, e.bit) == Below(L, bm, buckets, e.level, e.node, e.bit)
    ensures Offset(e.level) + e.node < |bm|
    ensures TreeOkExcept(L, bm[Offset(e.level) + e.node := v], buckets, ParentEdge(e.level, e.node))
  {
    var (i, n) := (e.level, e.node);
    OffsetMonotone(i, L);
    var bm' := bm[Offset(i) + n := v];
    var p := ParentEdge(i, n);
    forall i': nat, j': nat, b': bv5 | ValidNode(L, i', j') && Edge(i', j', b') != p
      ensures EdgeOk(L, bm', buckets, i', j', b')
    {
      WriteKeepsBelow(L, bm, buckets, i, n, v, b');
      if i' == i && j' == n {
        if b' != e.bit {
          assert EdgeOk(L, bm, buckets, i', j', b');
        }
      } else {
        if i' + 1 == i && Child(j', b') == n {
          ChildParts(j', b');
          ChildOfParts(n);
        }
        WriteFrame(L, bm, buckets, i, n, v, i', j', b');
      }
    }
  }

  /** After bitmap `n` of level `i > 0` is overwritten, the parent bit that
      stands for it is unchanged, and what it stands for is the new word
      being non-zero. */
  lemma ParentAfterWrite<T>(L: nat, bm: seq<bv32>, buckets: seq<seq<T>>, i: nat, n: nat, v: bv32)
    requires Shape(L, bm, buckets) && ValidNode(L, i, n) && i > 0
    ensures Offset(i) + n < |bm|
    ensures var p := Parent(i, n);
            ValidNode(L, p.level, p.node) &&
            Node(L, bm[Offset(i) + n := v], p.level, p.node) == Node(L, bm, p.level, p.node) &&
            Below(L, bm, buckets, p.level, p.node, p.bit) == (Node(L, bm, i, n) != 0) &&
            Below(L, bm[Offset(i) + n := v], buckets, p.level, p.node, p.bit) == (v != 0)
  {
    var p := Parent(i, n);
    ChildOfParts(n);
    OffsetMonotone(i, L);
    var bm' := bm[Offset(i) + n := v];
    NodeFrame(L, bm, i, n, v, p.level, p.node);
    WriteKeepsBelow(L, bm, buckets, i, n, v, 0);
    assert Child(p.node, p.bit) == n && p.level + 1 == i && p.level < L - 1;
    assert Below(L, bm', buckets, p.level, p.node, p.bit) == (Node(L, bm', i, n) != 0);
  }

  lemma ExceptRepaired<T>(L: nat, bm: seq<bv32>, buckets: seq<seq<T>>, e: Edge)
    requires TreeOkExcept(L, bm, buckets, e)
    requires ValidNode(L, e.level, e.node) ==> EdgeOk(L, bm, buckets, e.level, e.node, e.bit)
    ensures TreeOk(L, bm, buckets)
  {}

  /** Edge `e` is wrong because its bit is clear while what it stands for
      is non-empty. */
  predicate ClearButNeeded<T>(L: nat, bm: seq<bv32>, buckets: seq<seq<T>>, e: Edge)
    requires |bm| == Offset(L)
  {
    ValidNode(L, e.level, e.node) &&
    !BitSet(Node(L, bm, e.level, e.node), e.bit) && Below(L, bm, buckets, e.level, e.node, e.bit)
  }

  /** Edge `e` is wrong because its bit is set while what it stands for is
      empty. */
  predicate SetButEmpty<T>(L: nat, bm: seq<bv32>, buckets: seq<seq<T>>, e: Edge)
    requires |bm| == Offset(L)
  {
    ValidNode(L, e.level, e.node) &&
    BitSet(Node(L, bm, e.level, e.node), e.bit) && !Below(L, bm, buckets, e.level, e.node, e.bit)
  }

  /** The state of `push`'s upward pass: while `pending`, edge `e` is the
      only wrong one and its bit is clear though what it stands for is
      non-empty; otherwise the tree is consistent. */
  ghost predicate SetPending<T>(L: nat, bm: seq<bv32>, buckets: seq<seq<T>>, pending: bool, e: Edge)
  {
    if pending then TreeOkExcept(L, bm, buckets, e) && ClearButNeeded(L, bm, buckets, e)
    else TreeOk(L, bm, buckets)
  }

  /** The state of `pop`'s upward pass: while `pending`, edge `e` is the
      only wrong one and its bit is set though what it stands for is
      empty; otherwise the tree is consistent. */
  ghost predicate ClearPending<T>(L: nat, bm: seq<bv32>, buckets: seq<seq<T>>, pending: bool, e: Edge)
  {
    if pending then TreeOkExcept(L, bm, buckets, e) && SetButEmpty(L, bm, buckets, e)
    else TreeOk(L, bm, buckets)
  }

  /** A bucket changed only at index `k` leaves every edge intact except
      the last-level bit of `k`. */
  lemma BucketChange<T>(L: nat, bm: seq<bv32>, buckets: seq<seq<T>>, k: nat, s: seq<T>)
    requires TreeOk(L, bm, buckets) && k < |buckets|
    ensures ValidNode(L, L - 1, k / 32)
    ensures TreeOkExcept(L, bm, buckets[k := s], Edge(L - 1, k / 32, (k % 32) as bv5))
    ensures EdgeOk(L, bm, buckets, L - 1, k / 32, (k % 32) as bv5)
    ensures Below(L, bm, buckets[k := s], L - 1, k / 32, (k % 32) as bv5) == (|s| > 0)
    ensures Below(L, bm, buckets, L - 1, k / 32, (k % 32) as bv5) == (|buckets[k]| > 0)
  {
    var buckets' := buckets[k := s];
    assert Pow32(L) == 32 * Pow32(L - 1);
    ChildOfParts(k);
    forall i: nat, j: nat, b: bv5 | ValidNode(L, i, j) && Edge(i, j, b) != Edge(L - 1, k / 32, (k % 32) as bv5)
      ensures EdgeOk(L, bm, buckets', i, j, b)
    {
      assert EdgeOk(L, bm, buckets, i, j, b);
      if i == L - 1 {
        ChildParts(j, b);
      }
    }
  }

  /** `push` adds to bucket `k`: if it was empty, its last-level bit is the
      one wrong edge, clear though the bucket is now filled. */
  lemma BucketFilled<T>(L: nat, bm: seq<bv32>, buckets: seq<seq<T>>, k: nat, s: seq<T>)
    requires TreeOk(L, bm, buckets) && k < |buckets| && |s| > 0
    ensures SetPending(L, bm, buckets[k := s], |buckets[k]| == 0, Edge(L - 1, k / 32, (k % 32) as bv5))
  {
    BucketChange(L, bm, buckets, k, s);
    if |buckets[k]| > 0 {
      ExceptRepaired(L, bm, buckets[k := s], Edge(L - 1, k / 32, (k % 32) as bv5));
    }
  }

  /** `pop` takes from non-empty bucket `k`: if it becomes empty, its
      last-level bit is the one wrong edge, set though the bucket is now
      empty. */
  lemma BucketDrained<T>(L: nat, bm: seq<bv32>, buckets: seq<seq<T>>, k: nat, s: seq<T>)
    requires TreeOk(L, bm, buckets) && k < |buckets| && |buckets[k]| > 0
    ensures ClearPending(L, bm, buckets[k := s], |s| == 0, Edge(L - 1, k / 32, (k % 32) as bv5))
  {
    BucketChange(L, bm, buckets, k, s);
    if |s| > 0 {
      ExceptRepaired(L, bm, buckets[k := s], Edge(L - 1, k / 32, (k % 32) as bv5));
    }
  }

  /** One step of `push`'s upward pass: bit `e.bit` of bitmap `e.node` was
      the only wrong edge, clear while what it stands for is non-empty.
      Writing the bitmap with that bit set and the others kept (giving
      `bm'`) repairs the tree, unless the bitmap was zero before: then the
      bit that stands for it one level up is the only wrong edge, in the
      same way. */
  lemma SetStep<T>(L: nat, bm: seq<bv32>, bm': seq<bv32>, buckets: seq<seq<T>>, e: Edge, v: bv32)
    requires SetPending(L, bm, buckets, true, e)
    requires BitSet(v, e.bit)
    requires forall c: bv5 :: c != e.bit ==> BitSet(v, c) == BitSet(Node(L, bm, e.level, e.node), c)
    requires Offset(e.level) + e.node < |bm| && bm' == bm[Offset(e.level) + e.node := v]
    ensures SetPending(L, bm', buckets, Node(L, bm, e.level, e.node) == 0 && e.level > 0, ParentEdge(e.level, e.node))
  {
    var (i, n) := (e.level, e.node);
    WriteRepairs(L, bm, buckets, e, v);
    if i > 0 {
      var p := Parent(i, n);
      BitMakesNonZero(v, e.bit);
      ParentAfterWrite(L, bm, buckets, i, n, v);
      assert EdgeOk(L, bm, buckets, p.level, p.node, p.bit);
      if Node(L, bm, i, n) != 0 {
        ExceptRepaired(L, bm', buckets, p);
      }
    }
  }

  /** One step of `pop`'s upward pass: bit `e.bit` of bitmap `e.node` was
      the only wrong edge, set while what it stands for is empty.  Writing
      the bitmap with that bit cleared and the others kept (giving `bm'`)
      repairs the tree, unless the bitmap becomes zero: then the bit that
      stands for it one level up is the only wrong edge, in the same way. */
  lemma ClearStep<T>(L: nat, bm: seq<bv32>, bm': seq<bv32>, buckets: seq<seq<T>>, e: Edge, v: bv32)
    requires ClearPending(L, bm, buckets, true, e)
    requires !BitSet(v, e.bit)
    requires forall c: bv5 :: c != e.bit ==> BitSet(v, c) == BitSet(Node(L, bm, e.level, e.node), c)
    requires Offset(e.level) + e.node < |bm| && bm' == bm[Offset(e.level) + e.node := v]
    ensures ClearPending(L, bm', buckets, v == 0 && e.level > 0, ParentEdge(e.level, e.node))
  {
    var (i, n) := (e.level, e.node);
    WriteRepairs(L, bm, buckets, e, v);
    if i > 0 {
      var p := Parent(i, n);
      BitMakesNonZero(Node(L, bm, i, n), e.bit);
      ParentAfterWrite(L, bm, buckets, i, n, v);
      assert EdgeOk(L, bm, buckets, p.level, p.node, p.bit);
      if v != 0 {
        ExceptRepaired(L, bm', buckets, p);
      }
    }
  }
}
