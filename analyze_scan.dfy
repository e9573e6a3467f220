/** The loops the scan-based analyzers (analyze_sjf.py, analyze_sjf_inorder.py,
    analyze_wsjf.py, analyze_wsjf_inorder.py) have in common: sorting by a
    key, walking a dict's keys in ascending order, the saturation scans of
    `get_optimal_strategy`, and the "scheduled size" prefix sum. */
module AnalyzeScan {
  import opened Wrappers
  import opened Numeric

  /** `SCALING_FACTOR` of the WSJF analyzers: slot `i` stands for the ratio
      `i / 4096`. */
  const ScalingFactor: int := 4096

  // ---------------------------------------------------------------------
  // Sorting by a key
  // ---------------------------------------------------------------------

  predicate SortedBy<T>(xs: seq<T>, key: T -> real) {
    forall i, j :: 0 <= i < j < |xs| ==> key(xs[i]) <= key(xs[j])
  }

  /** `list.sort(key=...)` and `sorted(..., key=...)`: the same elements in
      ascending order of the key (an insertion sort, stable like Python's). */
  method SortBy<T>(xs: seq<T>, key: T -> real) returns (ys: seq<T>)
    ensures SortedBy(ys, key) && multiset(ys) == multiset(xs)
  {
    ys := [];
    var i := 0;
    while i < |xs|
      invariant 0 <= i <= |xs|
      invariant SortedBy(ys, key) && multiset(ys) == multiset(xs[..i])
    {
      ys := InsertAfterEqual(ys, xs[i], key);
      assert xs[..i + 1] == xs[..i] + [xs[i]];
      i := i + 1;
    }
    assert xs[..i] == xs;
  }

  /** One insertion step: `x` goes after every element whose key is not
      greater than its own. */
  method InsertAfterEqual<T>(ys: seq<T>, x: T, key: T -> real) returns (zs: seq<T>)
    requires SortedBy(ys, key)
    ensures SortedBy(zs, key) && multiset(zs) == multiset(ys) + multiset{x}
  {
    var j := 0;
    while j < |ys| && key(ys[j]) <= key(x)
      invariant 0 <= j <= |ys|
      invariant forall k :: 0 <= k < j ==> key(ys[k]) <= key(x)
    {
      j := j + 1;
    }
    zs := ys[..j] + [x] + ys[j..];
    assert ys == ys[..j] + ys[j..];
    InsertKeepsSorted(ys, x, key, j);
  }

  /** Putting `x` between the elements with keys up to its own and those
      with greater keys keeps a sorted sequence sorted. */
  lemma InsertKeepsSorted<T>(ys: seq<T>, x: T, key: T -> real, j: nat)
    requires SortedBy(ys, key) && j <= |ys|
    requires forall k :: 0 <= k < j ==> key(ys[k]) <= key(x)
    requires j < |ys| ==> key(x) < key(ys[j])
    ensures SortedBy(ys[..j] + [x] + ys[j..], key)
  {
    var zs := ys[..j] + [x] + ys[j..];
    assert forall a :: 0 <= a < j ==> zs[a] == ys[a];
    assert zs[j] == x;
    assert forall a :: j < a < |zs| ==> zs[a] == ys[a - 1];
    forall a, b | 0 <= a < b < |zs|
      ensures key(zs[a]) <= key(zs[b])
    {
      if b <= j {
      } else if a <= j {
        assert key(ys[j]) <= key(ys[b - 1]);
      } else {
      }
    }
  }

  // ---------------------------------------------------------------------
  // Dict keys in ascending order
  // ---------------------------------------------------------------------

  predicate StrictlyIncreasing(ks: seq<int>) {
    forall i, j :: 0 <= i < j < |ks| ==> ks[i] < ks[j]
  }

  /** Every non-empty set of ints has a least element. */
  lemma {:induction false} LeastExists(s: set<int>) returns (m: int)
    requires s != {}
    ensures m in s && forall x :: x in s ==> m <= x
    decreases |s|
  {
    var x := Pick(s);
    if s == {x} {
      m := x;
    } else {
      var n := LeastExists(s - {x});
      m := if x < n then x else n;
      forall y | y in s
        ensures m <= y
      {
        if y != x {
          assert y in s - {x};
        }
      }
    }
  }

  /** The keys of `sorted(d.items())`: every key of `d` once, in ascending
      order. */
  method SortedKeys<V>(d: map<int, V>) returns (ks: seq<int>)
    ensures StrictlyIncreasing(ks)
    ensures forall k :: k in ks <==> k in d
    ensures |ks| == |d.Keys|
  {
    ks := [];
    var rest := d.Keys;
    while rest != {}
      invariant rest <= d.Keys
      invariant StrictlyIncreasing(ks)
      invariant forall k :: k in ks <==> k in d && k !in rest
      invariant forall i, k :: 0 <= i < |ks| && k in rest ==> ks[i] < k
      invariant |ks| + |rest| == |d.Keys|
      decreases |rest|
    {
      ghost var least := LeastExists(rest);
      var k :| k in rest && forall x :: x in rest ==> k <= x;
      ks := ks + [k];
      rest := rest - {k};
    }
  }

  // ---------------------------------------------------------------------
  // The scheduled size
  // ---------------------------------------------------------------------

  /** The total `size` of the elements whose key is at most `bound`. */
  function FilterSum<T>(xs: seq<T>, key: T -> real, size: T -> int, bound: real): int
  {
    if xs == [] then 0
    else
      FilterSum(xs[..|xs| - 1], key, size, bound) +
      (if key(xs[|xs| - 1]) <= bound then size(xs[|xs| - 1]) else 0)
  }

  /** The total `size` of all elements. */
  function TotalSize<T>(xs: seq<T>, size: T -> int): int
  {
    if xs == [] then 0 else TotalSize(xs[..|xs| - 1], size) + size(xs[|xs| - 1])
  }

  /** The prefix loop of `get_optimal_strategy`: add up the sizes of the
      sorted elements until the first whose key exceeds `bound`.  On a sorted
      sequence that is the size of every element within the bound. */
  method ScheduledSize<T>(xs: seq<T>, key: T -> real, size: T -> int, bound: real) returns (s: int)
    requires SortedBy(xs, key)
    ensures s == FilterSum(xs, key, size, bound)
  {
    s := 0;
    var i := 0;
    while i < |xs|
      invariant 0 <= i <= |xs|
      invariant s == FilterSum(xs[..i], key, size, bound)
    {
      if key(xs[i]) > bound {
        FilterSumBeyond(xs, key, size, bound, i);
        return;
      }
      s := s + size(xs[i]);
      assert xs[..i + 1][..i] == xs[..i];
      i := i + 1;
    }
    assert xs[..i] == xs;
  }

  /** Once a sorted sequence passes the bound, the rest adds nothing. */
  lemma {:induction false} FilterSumBeyond<T>(xs: seq<T>, key: T -> real, size: T -> int, bound: real, i: nat)
    requires SortedBy(xs, key) && i < |xs| && key(xs[i]) > bound
    ensures FilterSum(xs, key, size, bound) == FilterSum(xs[..i], key, size, bound)
    decreases |xs|
  {
    if i < |xs| - 1 {
      var init := xs[..|xs| - 1];
      assert init[..i] == xs[..i];
      FilterSumBeyond(init, key, size, bound, i);
    } else {
      assert xs[..|xs| - 1] == xs[..i];
    }
  }

  lemma {:induction false} FilterSumAppend<T>(xs: seq<T>, ys: seq<T>, key: T -> real, size: T -> int, bound: real)
    ensures FilterSum(xs + ys, key, size, bound) == FilterSum(xs, key, size, bound) + FilterSum(ys, key, size, bound)
    decreases |ys|
  {
    if ys == [] {
      assert xs + ys == xs;
    } else {
      var init := ys[..|ys| - 1];
      assert (xs + ys)[..|xs + ys| - 1] == xs + init;
      FilterSumAppend(xs, init, key, size, bound);
    }
  }

  /** The sum depends on which elements there are, not on their order: the
      sorted list gives the same scheduled size as the log order. */
  lemma {:induction false} FilterSumPermutation<T>(xs: seq<T>, ys: seq<T>, key: T -> real, size: T -> int, bound: real)
    requires multiset(xs) == multiset(ys)
    ensures FilterSum(xs, key, size, bound) == FilterSum(ys, key, size, bound)
    decreases |xs|
  {
    if xs != [] {
      var k := MatchLast(xs, ys);
      var x := xs[|xs| - 1];
      FilterSumPermutation(xs[..|xs| - 1], ys[..k] + ys[k + 1..], key, size, bound);
      FilterSumAppend(ys[..k] + [x], ys[k + 1..], key, size, bound);
      FilterSumAppend(ys[..k], ys[k + 1..], key, size, bound);
      assert (ys[..k] + [x])[..k] == ys[..k];
    }
  }

  /** The last element of `xs` sits somewhere in a permutation `ys` of it,
      and the rest of `xs` is a permutation of the rest of `ys`. */
  lemma MatchLast<T>(xs: seq<T>, ys: seq<T>) returns (k: nat)
    requires xs != [] && multiset(xs) == multiset(ys)
    ensures k < |ys| && ys == ys[..k] + [xs[|xs| - 1]] + ys[k + 1..]
    ensures multiset(xs[..|xs| - 1]) == multiset(ys[..k] + ys[k + 1..])
  {
    var x := xs[|xs| - 1];
    assert x in multiset(xs) by {
      DropLast(xs);
    }
    k :| 0 <= k < |ys| && ys[k] == x;
    DropLast(xs);
    DropAt(ys, k);
    assert multiset(xs[..|xs| - 1]) == multiset(xs) - multiset{x};
    assert multiset(ys[..k] + ys[k + 1..]) == multiset(ys) - multiset{x};
  }

  /** A sequence is its prefix and its last element. */
  lemma DropLast<T>(xs: seq<T>)
    requires xs != []
    ensures multiset(xs) == multiset(xs[..|xs| - 1]) + multiset{xs[|xs| - 1]}
  {
    assert xs == xs[..|xs| - 1] + [xs[|xs| - 1]];
  }

  /** A sequence is the rest of it and its element `k`. */
  lemma DropAt<T>(ys: seq<T>, k: nat)
    requires k < |ys|
    ensures ys == ys[..k] + [ys[k]] + ys[k + 1..]
    ensures multiset(ys) == multiset(ys[..k] + ys[k + 1..]) + multiset{ys[k]}
  {
    assert ys == ys[..k] + [ys[k]] + ys[k + 1..];
  }

  /** A bound no key exceeds keeps every element. */
  lemma {:induction false} FilterSumAll<T>(xs: seq<T>, key: T -> real, size: T -> int, bound: real)
    requires forall i :: 0 <= i < |xs| ==> key(xs[i]) <= bound
    ensures FilterSum(xs, key, size, bound) == TotalSize(xs, size)
    decreases |xs|
  {
    if xs != [] {
      FilterSumAll(xs[..|xs| - 1], key, size, bound);
    }
  }

  /** A larger bound keeps at least as much, when sizes are not negative. */
  lemma {:induction false} FilterSumMonotone<T>(xs: seq<T>, key: T -> real, size: T -> int, b1: real, b2: real)
    requires b1 <= b2 && forall i :: 0 <= i < |xs| ==> size(xs[i]) >= 0
    ensures FilterSum(xs, key, size, b1) <= FilterSum(xs, key, size, b2)
    decreases |xs|
  {
    if xs != [] {
      FilterSumMonotone(xs[..|xs| - 1], key, size, b1, b2);
    }
  }

  /** Two sequences of the same length whose sizes agree except that element
      `j` (if `j` is an index) grew by `d`: the totals differ by `d`. */
  lemma {:induction false} TotalSizeBump<T>(xs: seq<T>, ys: seq<T>, size: T -> int, j: nat, d: int)
    requires |xs| == |ys| && j <= |xs|
    requires forall i :: 0 <= i < |xs| ==> size(ys[i]) == size(xs[i]) + (if i == j then d else 0)
    ensures TotalSize(ys, size) == TotalSize(xs, size) + (if j < |xs| then d else 0)
    decreases |xs|
  {
    if xs != [] {
      var m := |xs| - 1;
      TotalSizeBump(xs[..m], ys[..m], size, if j < m then j else m, d);
    }
  }

  /** The total does not depend on the order of the elements. */
  lemma TotalSizePermutation<T>(xs: seq<T>, ys: seq<T>, size: T -> int)
    requires multiset(xs) == multiset(ys)
    ensures TotalSize(xs, size) == TotalSize(ys, size)
  {
    var flat := (x: T) => 0.0;
    FilterSumAll(xs, flat, size, 0.0);
    FilterSumAll(ys, flat, size, 0.0);
    FilterSumPermutation(xs, ys, flat, size, 0.0);
  }

  // ---------------------------------------------------------------------
  // Sums of job sizes and the running profiles
  // ---------------------------------------------------------------------

  /** The sum of `val` over all elements. */
  function RealTotal<T>(xs: seq<T>, val: T -> real): real
  {
    if xs == [] then 0.0 else RealTotal(xs[..|xs| - 1], val) + val(xs[|xs| - 1])
  }

  /** The sum of `val` over the elements whose integer key is at most
      `bound`. */
  function RealFilterSum<T>(xs: seq<T>, key: T -> int, val: T -> real, bound: int): real
  {
    if xs == [] then 0.0
    else
      RealFilterSum(xs[..|xs| - 1], key, val, bound) +
      (if key(xs[|xs| - 1]) <= bound then val(xs[|xs| - 1]) else 0.0)
  }

  /** The integer keys do not decrease along the sequence. */
  predicate KeysAscending<T>(xs: seq<T>, key: T -> int) {
    forall i, j :: 0 <= i < j < |xs| ==> key(xs[i]) <= key(xs[j])
  }

  /** A bound no key exceeds keeps every element. */
  lemma {:induction false} RealFilterSumAll<T>(xs: seq<T>, key: T -> int, val: T -> real, bound: int)
    requires forall i :: 0 <= i < |xs| ==> key(xs[i]) <= bound
    ensures RealFilterSum(xs, key, val, bound) == RealTotal(xs, val)
    decreases |xs|
  {
    if xs != [] {
      RealFilterSumAll(xs[..|xs| - 1], key, val, bound);
    }
  }

  /** A larger bound keeps at least as much, when the values are not
      negative. */
  lemma {:induction false} RealFilterSumMonotone<T>(xs: seq<T>, key: T -> int, val: T -> real, b1: int, b2: int)
    requires b1 <= b2 && forall i :: 0 <= i < |xs| ==> val(xs[i]) >= 0.0
    ensures RealFilterSum(xs, key, val, b1) <= RealFilterSum(xs, key, val, b2)
    decreases |xs|
  {
    if xs != [] {
      RealFilterSumMonotone(xs[..|xs| - 1], key, val, b1, b2);
    }
  }

  lemma {:induction false} RealTotalAppend<T>(xs: seq<T>, ys: seq<T>, val: T -> real)
    ensures RealTotal(xs + ys, val) == RealTotal(xs, val) + RealTotal(ys, val)
    decreases |ys|
  {
    if ys == [] {
      assert xs + ys == xs;
    } else {
      var init := ys[..|ys| - 1];
      assert (xs + ys)[..|xs + ys| - 1] == xs + init;
      RealTotalAppend(xs, init, val);
    }
  }

  /** The total does not depend on the order of the elements. */
  lemma {:induction false} RealTotalPermutation<T>(xs: seq<T>, ys: seq<T>, val: T -> real)
    requires multiset(xs) == multiset(ys)
    ensures RealTotal(xs, val) == RealTotal(ys, val)
    decreases |xs|
  {
    if xs != [] {
      var k := MatchLast(xs, ys);
      var x := xs[|xs| - 1];
      RealTotalPermutation(xs[..|xs| - 1], ys[..k] + ys[k + 1..], val);
      RealTotalAppend(ys[..k] + [x], ys[k + 1..], val);
      RealTotalAppend(ys[..k], ys[k + 1..], val);
      assert (ys[..k] + [x])[..k] == ys[..k];
    }
  }

  /** Two sequences of the same length whose values agree except that element
      `j` (if `j` is an index) grew by `d`: the totals differ by `d`. */
  lemma {:induction false} RealTotalBump<T>(xs: seq<T>, ys: seq<T>, val: T -> real, j: nat, d: real)
    requires |xs| == |ys| && j <= |xs|
    requires forall i :: 0 <= i < |xs| ==> val(ys[i]) == val(xs[i]) + (if i == j then d else 0.0)
    ensures RealTotal(ys, val) == RealTotal(xs, val) + (if j < |xs| then d else 0.0)
    decreases |xs|
  {
    if xs != [] {
      var m := |xs| - 1;
      RealTotalBump(xs[..m], ys[..m], val, if j < m then j else m, d);
    }
  }

  /** The share `val / n` of each element, the quantity the running
      profile adds up (no share at all over a count of zero). */
  function Shares<T>(val: T -> real, n: real): T -> real {
    x => if n == 0.0 then 0.0 else val(x) / n
  }

  /** Adding up the shares and scaling by `n` gives the sum of `val`. */
  lemma {:induction false} SharesScale<T>(xs: seq<T>, key: T -> int, val: T -> real, n: real, k: int)
    requires n != 0.0
    ensures RealFilterSum(xs, key, Shares(val, n), k) * n == RealFilterSum(xs, key, val, k)
    decreases |xs|
  {
    if xs != [] {
      var m := |xs| - 1;
      SharesScale(xs[..m], key, val, n, k);
      if key(xs[m]) <= k {
        assert Shares(val, n)(xs[m]) == val(xs[m]) / n;
        QuotientStep(RealFilterSum(xs[..m], key, Shares(val, n), k), val(xs[m]), n);
      }
    }
  }

  /** The state of a running profile after `i` elements, in terms of the
      shares `sh` it adds: the running value is the total of the shares so
      far, and every key seen so far holds the running value of the last
      element with that key, which (the keys ascending) is the total of the
      shares over the elements with a key up to it. */
  ghost predicate RunningProfile<T>(xs: seq<T>, key: T -> int, sh: T -> real, i: nat,
                                    table: map<int, real>, cumulative: real)
    requires i <= |xs|
  {
    && cumulative == RealTotal(xs[..i], sh)
    && table.Keys == KeySet(xs[..i], key)
    && (forall k :: k in table ==> table[k] == RealFilterSum(xs[..i], key, sh, k))
  }

  /** One more element: its share is added to the running value, which is
      recorded under its key, and the profile is kept. */
  lemma RunningStep<T>(xs: seq<T>, key: T -> int, sh: T -> real, i: nat,
                       table: map<int, real>, cumulative: real, table': map<int, real>, next: real)
    requires KeysAscending(xs, key) && i < |xs|
    requires RunningProfile(xs, key, sh, i, table, cumulative)
    requires next == cumulative + sh(xs[i]) && table' == table[key(xs[i]) := next]
    ensures RunningProfile(xs, key, sh, i + 1, table', next)
  {
    TotalExtend(xs, sh, i);
    StepKeys(xs, key, i);
    StepValues(xs, key, sh, i, table, next, table');
  }

  /** The recorded values after one more element. */
  lemma StepValues<T>(xs: seq<T>, key: T -> int, sh: T -> real, i: nat,
                      table: map<int, real>, next: real, table': map<int, real>)
    requires KeysAscending(xs, key) && i < |xs| && table' == table[key(xs[i]) := next]
    requires table.Keys == KeySet(xs[..i], key)
    requires forall k :: k in table ==> table[k] == RealFilterSum(xs[..i], key, sh, k)
    requires next == RealTotal(xs[..i + 1], sh)
    ensures forall k :: k in table' ==> table'[k] == RealFilterSum(xs[..i + 1], key, sh, k)
  {
    var t := key(xs[i]);
    forall k | k in table'
      ensures table'[k] == RealFilterSum(xs[..i + 1], key, sh, k)
    {
      if k == t {
        FilterSumAtTop(xs, key, sh, i);
      } else {
        var j :| 0 <= j < i && key(xs[..i][j]) == k;
        assert key(xs[j]) <= key(xs[i]);
        FilterSumExtend(xs, key, sh, i, k);
      }
    }
  }

  /** The keys after one more element. */
  lemma StepKeys<T>(xs: seq<T>, key: T -> int, i: nat)
    requires i < |xs|
    ensures KeySet(xs[..i + 1], key) == KeySet(xs[..i], key) + {key(xs[i])}
  {
    var pre := xs[..i + 1];
    assert pre[..i] == xs[..i] && pre[i] == xs[i];
    forall k | k in KeySet(pre, key)
      ensures k in KeySet(xs[..i], key) + {key(xs[i])}
    {
      var j :| 0 <= j < i + 1 && key(pre[j]) == k;
      if j < i {
        assert key(xs[..i][j]) == k;
      }
    }
    forall k | k in KeySet(xs[..i], key)
      ensures k in KeySet(pre, key)
    {
      var j :| 0 <= j < i && key(xs[..i][j]) == k;
      assert key(pre[j]) == k;
    }
    assert key(pre[i]) == key(xs[i]);
  }

  /** One more element adds its value to the total. */
  lemma TotalExtend<T>(xs: seq<T>, val: T -> real, i: nat)
    requires i < |xs|
    ensures RealTotal(xs[..i + 1], val) == RealTotal(xs[..i], val) + val(xs[i])
  {
    assert xs[..i + 1][..i] == xs[..i];
  }

  /** An element with a key above the bound adds nothing. */
  lemma FilterSumExtend<T>(xs: seq<T>, key: T -> int, val: T -> real, i: nat, k: int)
    requires i < |xs| && k < key(xs[i])
    ensures RealFilterSum(xs[..i + 1], key, val, k) == RealFilterSum(xs[..i], key, val, k)
  {
    assert xs[..i + 1][..i] == xs[..i];
  }

  /** With ascending keys, the prefix up to element `i` lies within its key. */
  lemma FilterSumAtTop<T>(xs: seq<T>, key: T -> int, val: T -> real, i: nat)
    requires KeysAscending(xs, key) && i < |xs|
    ensures RealFilterSum(xs[..i + 1], key, val, key(xs[i])) == RealTotal(xs[..i + 1], val)
  {
    RealFilterSumAll(xs[..i + 1], key, val, key(xs[i]));
  }

  /** The keys of the elements. */
  function KeySet<T>(xs: seq<T>, key: T -> int): set<int> {
    set i | 0 <= i < |xs| :: key(xs[i])
  }

  /** The running profile of the SJF-Inorder analyzer: walk the elements in
      order, add each one's share `val / n` to a running value and record it
      under the element's key, a later element overwriting an earlier one
      with the same key.  The first share divides by `n`.  With ascending
      keys, every key ends up with `1 / n` of the total over the elements
      with keys up to it. */
  method RunningShares<T>(xs: seq<T>, key: T -> int, val: T -> real, n: nat) returns (r: Result<map<int, real>>)
    requires KeysAscending(xs, key)
    ensures r.Failure? <==> n == 0 && |xs| > 0
    ensures r.Failure? ==> r.error == ZeroDivision
    ensures r.Success? ==> Profile(r.value, xs, key, val, n as real)
  {
    var table := map[];
    var cumulative := 0.0;
    ghost var sh := Shares(val, n as real);
    for i := 0 to |xs|
      invariant i > 0 ==> n != 0
      invariant RunningProfile(xs, key, sh, i, table, cumulative)
    {
      if n == 0 {
        return Failure(ZeroDivision);
      }
      var next := cumulative + val(xs[i]) / n as real;
      RunningStep(xs, key, sh, i, table, cumulative, table[key(xs[i]) := next], next);
      cumulative := next;
      table := table[key(xs[i]) := next];
    }
    ProfileScaled(xs, key, val, n as real, table, cumulative);
    return Success(table);
  }

  /** The running profile of `xs` over a count `n`: exactly the keys that
      occur, each holding `1 / n` of the total of `val` over the elements
      with keys up to it. */
  ghost predicate Profile<T>(table: map<int, real>, xs: seq<T>, key: T -> int, val: T -> real, n: real) {
    && table.Keys == KeySet(xs, key)
    && forall k :: k in table ==> table[k] * n == RealFilterSum(xs, key, val, k)
  }

  /** At the end of the walk the table holds the profile. */
  lemma ProfileScaled<T>(xs: seq<T>, key: T -> int, val: T -> real, n: real, table: map<int, real>,
                         cumulative: real)
    requires |xs| > 0 ==> n != 0.0
    requires RunningProfile(xs, key, Shares(val, n), |xs|, table, cumulative)
    ensures Profile(table, xs, key, val, n)
  {
    assert xs[..|xs|] == xs;
    forall k | k in table
      ensures table[k] * n == RealFilterSum(xs, key, val, k)
    {
      SharesScale(xs, key, val, n, k);
    }
  }

  /** `after` is `before` with a running profile of `xs` recorded over it:
      each key that occurs holds `1 / n` of the total of `val` over the
      elements with keys up to it, and every other key keeps its value. */
  ghost predicate Recorded<T>(before: map<int, real>, after: map<int, real>, xs: seq<T>,
                              key: T -> int, val: T -> real, n: real) {
    && after.Keys == before.Keys + KeySet(xs, key)
    && (forall k :: k in KeySet(xs, key) ==> after[k] * n == RealFilterSum(xs, key, val, k))
    && (forall k :: k in before && k !in KeySet(xs, key) ==> after[k] == before[k])
  }

  /** `d.update(e)` for a running profile `e` records it over `d`. */
  lemma MergedProfile<T>(d: map<int, real>, e: map<int, real>, xs: seq<T>,
                         key: T -> int, val: T -> real, n: real)
    requires Profile(e, xs, key, val, n)
    ensures Recorded(d, d + e, xs, key, val, n)
  {
  }

  /** The running profile written into an existing dict `d`: the keys of
      `xs` are overwritten and the others kept.  The dict is left as it was
      when the first share fails. */
  method RecordShares<T>(xs: seq<T>, key: T -> int, val: T -> real, n: nat, d: map<int, real>)
    returns (r: Result<map<int, real>>)
    requires KeysAscending(xs, key)
    ensures r.Failure? <==> n == 0 && |xs| > 0
    ensures r.Failure? ==> r.error == ZeroDivision
    ensures r.Success? ==> Recorded(d, r.value, xs, key, val, n as real)
  {
    var e := RunningShares(xs, key, val, n);
    if e.Failure? {
      return Failure(e.error);
    }
    MergedProfile(d, e.value, xs, key, val, n as real);
    return Success(d + e.value);
  }

  /** With values that are not negative, a recorded profile grows with the
      key. */
  lemma RecordedMonotone<T>(before: map<int, real>, after: map<int, real>, xs: seq<T>,
                            key: T -> int, val: T -> real, n: real, k1: int, k2: int)
    requires Recorded(before, after, xs, key, val, n) && n > 0.0
    requires k1 in KeySet(xs, key) && k2 in KeySet(xs, key) && k1 <= k2
    requires forall i :: 0 <= i < |xs| ==> val(xs[i]) >= 0.0
    ensures after[k1] <= after[k2]
  {
    var s1 := RealFilterSum(xs, key, val, k1);
    var s2 := RealFilterSum(xs, key, val, k2);
    RealFilterSumMonotone(xs, key, val, k1, k2);
    ScaledLe(after[k1], after[k2], n, s1, s2);
  }

  /** At a key no element exceeds, the recorded value is `1 / n` of the
      total of all elements. */
  lemma RecordedAtLargest<T>(before: map<int, real>, after: map<int, real>, xs: seq<T>,
                             key: T -> int, val: T -> real, n: real, t: int)
    requires Recorded(before, after, xs, key, val, n) && t in KeySet(xs, key)
    requires forall i :: 0 <= i < |xs| ==> key(xs[i]) <= t
    ensures after[t] * n == RealTotal(xs, val)
  {
    RealFilterSumAll(xs, key, val, t);
  }

  /** `a * n <= b * n` with `n > 0` gives `a <= b`. */
  lemma ScaledLe(a: real, b: real, n: real, an: real, bn: real)
    requires n > 0.0 && an == a * n && bn == b * n && an <= bn
    ensures a <= b
  {
  }

  /** numpy's `a[k]` on an array of length `len`: a negative index counts
      from the end, and an index outside `-len .. len - 1` is an IndexError. */
  function NumpyIndex(k: int, len: nat): (r: Option<nat>)
    ensures r.None? <==> k + len < 0 || k >= len
    ensures r.Some? ==> r.value < len && (r.value == k || r.value == k + len)
    ensures 0 <= k < len ==> r == Some(k)
  {
    if 0 <= k < len then Some(k) else if 0 <= k + len < len then Some(k + len) else None
  }

  /** The array `after` holds the profile of `xs`: the slot of every key that
      occurs holds `1 / n` of the total over the elements with keys up to it,
      and every other slot keeps its value in `before`. */
  ghost predicate SlotProfile<T>(xs: seq<T>, key: T -> int, val: T -> real, n: real,
                                 before: seq<real>, after: seq<real>) {
    && |after| == |before|
    && forall s :: 0 <= s < |after| ==>
         if s in KeySet(xs, key) then after[s] * n == RealFilterSum(xs, key, val, s)
         else after[s] == before[s]
  }

  /** The array holds the recorded values and nothing else changed. */
  ghost predicate SlotsHold(after: seq<real>, before: seq<real>, table: map<int, real>) {
    && |after| == |before|
    && forall s :: 0 <= s < |after| ==> after[s] == if s in table then table[s] else before[s]
  }

  /** Every key is a valid index. */
  predicate KeysIndex<T>(xs: seq<T>, key: T -> int, len: nat) {
    forall i :: 0 <= i < |xs| ==> 0 <= key(xs[i]) < len
  }

  /** The running profile of the WSJF analyzers, written into a numpy array:
      as `RunningShares`, with the slot of each element's key overwritten
      by the running value.  A negative key counts from the end of the
      array, and a key outside it is an IndexError once the running value
      for it has been computed. */
  method RunningSharesInto<T>(xs: seq<T>, key: T -> int, val: T -> real, n: nat, slots: array<real>)
    returns (r: Result<()>)
    requires KeysAscending(xs, key)
    modifies slots
    ensures r == Failure(ZeroDivision) <==> n == 0 && |xs| > 0
    ensures r.Failure? ==> r.error == ZeroDivision || r.error == IndexOutOfRange
    ensures r == Failure(IndexOutOfRange) ==>
              exists i :: 0 <= i < |xs| && NumpyIndex(key(xs[i]), slots.Length).None?
    ensures r.Success? ==> forall i :: 0 <= i < |xs| ==> NumpyIndex(key(xs[i]), slots.Length).Some?
    ensures r.Success? && KeysIndex(xs, key, slots.Length) ==>
              SlotProfile(xs, key, val, n as real, old(slots[..]), slots[..])
  {
    ghost var sh := Shares(val, n as real);
    ghost var table: map<int, real> := map[];
    ghost var inRange := KeysIndex(xs, key, slots.Length);
    var cumulative := 0.0;
    for i := 0 to |xs|
      invariant i > 0 ==> n != 0
      invariant forall j :: 0 <= j < i ==> NumpyIndex(key(xs[j]), slots.Length).Some?
      invariant RunningProfile(xs, key, sh, i, table, cumulative)
      invariant inRange ==> SlotsHold(slots[..], old(slots[..]), table)
    {
      if n == 0 {
        return Failure(ZeroDivision);
      }
      var next := cumulative + val(xs[i]) / n as real;
      RunningStep(xs, key, sh, i, table, cumulative, table[key(xs[i]) := next], next);
      cumulative := next;
      var stored := StoreSlot(slots, key(xs[i]), next, table, old(slots[..]), inRange);
      table := table[key(xs[i]) := next];
      if !stored {
        return Failure(IndexOutOfRange);
      }
    }
    if inRange {
      ProfileInSlots(xs, key, val, n as real, table, cumulative, old(slots[..]), slots[..]);
    }
    return Success(());
  }

  /** At the end of the walk the array holds the profile. */
  lemma ProfileInSlots<T>(xs: seq<T>, key: T -> int, val: T -> real, n: real, table: map<int, real>,
                          cumulative: real, before: seq<real>, after: seq<real>)
    requires |xs| > 0 ==> n != 0.0
    requires RunningProfile(xs, key, Shares(val, n), |xs|, table, cumulative)
    requires SlotsHold(after, before, table)
    ensures SlotProfile(xs, key, val, n, before, after)
  {
    assert xs[..|xs|] == xs;
    forall s | 0 <= s < |after| && s in KeySet(xs, key)
      ensures after[s] * n == RealFilterSum(xs, key, val, s)
    {
      SharesScale(xs, key, val, n, s);
    }
  }

  /** `slots[k] = v` in numpy: whether the index was valid, and with an
      in-range key the array holds the recorded values with `v` under `k`. */
  method StoreSlot(slots: array<real>, k: int, v: real, ghost table: map<int, real>,
                   ghost before: seq<real>, ghost inRange: bool) returns (stored: bool)
    requires inRange ==> 0 <= k < slots.Length && SlotsHold(slots[..], before, table)
    modifies slots
    ensures stored <==> NumpyIndex(k, slots.Length).Some?
    ensures inRange ==> SlotsHold(slots[..], before, table[k := v])
  {
    var at := NumpyIndex(k, slots.Length);
    if at.None? {
      return false;
    }
    slots[at.value] := v;
    return true;
  }

  /** `(c + v / n) * n == c * n + v`. */
  lemma QuotientStep(c: real, v: real, n: real)
    requires n != 0.0
    ensures (c + v / n) * n == c * n + v
  {
  }

  // ---------------------------------------------------------------------
  // The saturation scans
  // ---------------------------------------------------------------------

  /** The load reaches capacity: innocent traffic at rate `rI` in packets of
      average size `avgP`, each bringing the work `expectation`, plus the
      adversary's work. */
  predicate Saturates(rI: real, avgP: int, expectation: real, adversarialWork: real)
    requires avgP != 0
  {
    (rI / avgP as real) * expectation + adversarialWork >= 1.0
  }

  /** The adversary's work at rate `rA` with minimum-size packets of job size
      `max(0, jsize - 1)`, as in the SJF scans. */
  function KeyWork(rA: real, jsize: int): real {
    (rA / 512.0) * MaxInt(0, jsize - 1) as real
  }

  /** The load of key `k` in the SJF scans saturates. */
  predicate KeySaturates(k: int, expectations: map<int, real>, rI: real, rA: real, avgP: int)
    requires avgP != 0 && k in expectations
  {
    Saturates(rI, avgP, expectations[k], KeyWork(rA, k))
  }

  /** The optimum of the SJF scans, whatever the order the keys are visited
      in: the least key whose load saturates, minus one; or `initial` when
      no key saturates. */
  ghost predicate KeyOptimum(expectations: map<int, real>, rI: real, rA: real, avgP: int,
                             initial: real, opt: real)
    requires avgP != 0
  {
    || (&& (forall k :: k in expectations ==> !KeySaturates(k, expectations, rI, rA, avgP))
        && opt == initial)
    || (exists k :: && k in expectations && KeySaturates(k, expectations, rI, rA, avgP)
                    && (forall j :: j in expectations && j < k ==> !KeySaturates(j, expectations, rI, rA, avgP))
                    && opt == (k - 1) as real)
  }

  /** The position of a key in a sequence that holds it. */
  lemma IndexOf(ks: seq<int>, k: int) returns (m: nat)
    requires k in ks
    ensures m < |ks| && ks[m] == k
  {
    m :| m < |ks| && ks[m] == k;
  }

  /** The threshold scan of the SJF analyzers over `sorted(expectations.items())`:
      the keys are visited in ascending order and the first whose load
      saturates ends the scan, which is what `KeyOptimum` describes.  The
      rate per packet `rI / avgP` is computed in the loop, so it divides by
      zero only when there is a key to look at. */
  method KeyScan(ks: seq<int>, expectations: map<int, real>, rI: real, rA: real, avgP: int, initial: real)
    returns (r: Result<real>)
    requires StrictlyIncreasing(ks) && forall k :: k in ks <==> k in expectations
    ensures r.Failure? <==> |ks| > 0 && avgP == 0
    ensures r.Failure? ==> r.error == ZeroDivision
    ensures r.Success? && avgP != 0 ==> KeyOptimum(expectations, rI, rA, avgP, initial, r.value)
    ensures r.Success? && |ks| == 0 ==> r.value == initial
  {
    var optimal := initial;
    var i := 0;
    while i < |ks|
      invariant 0 <= i <= |ks|
      invariant i > 0 ==> avgP != 0
      invariant i > 0 ==> forall j :: 0 <= j < i ==> !KeySaturates(ks[j], expectations, rI, rA, avgP)
      invariant optimal == initial
    {
      if avgP == 0 {
        return Failure(ZeroDivision);
      }
      var k := ks[i];
      var adversarialWork := KeyWork(rA, k);
      var innocentWork := (rI / avgP as real) * expectations[k];
      if innocentWork + adversarialWork >= 1.0 {
        optimal := (k - 1) as real;
        assert KeySaturates(k, expectations, rI, rA, avgP);
        FirstSaturating(ks, expectations, rI, rA, avgP, initial, i);
        return Success(optimal);
      }
      i := i + 1;
    }
    if avgP != 0 {
      NoneSaturating(ks, expectations, rI, rA, avgP, initial);
    }
    return Success(optimal);
  }

  /** The scan stops at the first key in ascending order whose load
      saturates: that key is the least such key. */
  lemma FirstSaturating(ks: seq<int>, expectations: map<int, real>, rI: real, rA: real, avgP: int,
                        initial: real, i: nat)
    requires StrictlyIncreasing(ks) && (forall k :: k in ks <==> k in expectations)
    requires avgP != 0 && i < |ks|
    requires forall j :: 0 <= j < i ==> !KeySaturates(ks[j], expectations, rI, rA, avgP)
    requires KeySaturates(ks[i], expectations, rI, rA, avgP)
    ensures KeyOptimum(expectations, rI, rA, avgP, initial, (ks[i] - 1) as real)
  {
    forall j | j in expectations && j < ks[i]
      ensures !KeySaturates(j, expectations, rI, rA, avgP)
    {
      var m := IndexOf(ks, j);
      assert m < i;
    }
  }

  /** A scan over every key without a saturating one leaves the initial
      value, and no key saturates. */
  lemma NoneSaturating(ks: seq<int>, expectations: map<int, real>, rI: real, rA: real, avgP: int,
                       initial: real)
    requires (forall k :: k in ks <==> k in expectations) && avgP != 0
    requires forall j :: 0 <= j < |ks| ==> !KeySaturates(ks[j], expectations, rI, rA, avgP)
    ensures KeyOptimum(expectations, rI, rA, avgP, initial, initial)
  {
    forall k | k in expectations
      ensures !KeySaturates(k, expectations, rI, rA, avgP)
    {
      var m := IndexOf(ks, k);
    }
  }

  /** The adversary's work at rate `rA` in slot `i`: ratio `i / 4096`. */
  function SlotWork(rA: real, i: int): real {
    rA * (i as real / ScalingFactor as real)
  }

  /** The load of slot `i` in the WSJF scans saturates. */
  predicate SlotSaturates(slots: seq<real>, i: int, rI: real, rA: real, avgP: int)
    requires avgP != 0 && 0 <= i < |slots|
  {
    Saturates(rI, avgP, slots[i], SlotWork(rA, i))
  }

  /** The optimum the WSJF scan settles on when it stops before slot `i`:
      the ratio of the slot before, or `initial` if there is none. */
  function SlotBefore(i: int, initial: real): real {
    if i == 0 then initial else (i - 1) as real / ScalingFactor as real
  }

  /** The optimum of the WSJF scans: the ratio of the slot before the first
      one whose load saturates, or of the last slot when none does (which
      is `initial` when there are no slots). */
  ghost predicate SlotOptimum(slots: seq<real>, rI: real, rA: real, avgP: int, initial: real, opt: real)
    requires avgP != 0
  {
    || (&& (forall i :: 0 <= i < |slots| ==> !SlotSaturates(slots, i, rI, rA, avgP))
        && opt == SlotBefore(|slots|, initial))
    || (exists i :: && 0 <= i < |slots| && SlotSaturates(slots, i, rI, rA, avgP)
                    && (forall j :: 0 <= j < i ==> !SlotSaturates(slots, j, rI, rA, avgP))
                    && opt == SlotBefore(i, initial))
  }

  /** The ratio scan of the WSJF analyzers over the slots: the optimum is the
      ratio of the last slot before the first one whose load saturates, or
      `initial` (the largest innocent job size per minimum packet) when the
      very first slot saturates or there are no slots. */
  method SlotScan(slots: array<real>, rI: real, rA: real, avgP: int, initial: real) returns (r: Result<real>)
    ensures r.Failure? <==> slots.Length > 0 && avgP == 0
    ensures r.Failure? ==> r.error == ZeroDivision
    ensures r.Success? && avgP != 0 ==> SlotOptimum(slots[..], rI, rA, avgP, initial, r.value)
    ensures r.Success? && slots.Length == 0 ==> r.value == initial
  {
    var optimal := initial;
    var currentZ := 0.0;
    var i := 0;
    while i < slots.Length
      invariant 0 <= i <= slots.Length
      invariant currentZ == i as real / ScalingFactor as real
      invariant optimal == SlotBefore(i, initial)
      invariant i > 0 ==> avgP != 0
      invariant i > 0 ==> forall j :: 0 <= j < i ==> !SlotSaturates(slots[..], j, rI, rA, avgP)
    {
      if avgP == 0 {
        return Failure(ZeroDivision);
      }
      var adversarialWork := rA * currentZ;
      var innocentWork := (rI / avgP as real) * slots[i];
      if innocentWork + adversarialWork >= 1.0 {
        assert SlotSaturates(slots[..], i, rI, rA, avgP);
        return Success(optimal);
      }
      optimal := currentZ;
      currentZ := currentZ + 1.0 / ScalingFactor as real;
      i := i + 1;
    }
    return Success(optimal);
  }

  // ---------------------------------------------------------------------
  // Sums over a set of keys (the cumulative expectations)
  // ---------------------------------------------------------------------

  /** Some element of a non-empty set. */
  ghost function Pick<T>(s: set<T>): (k: T)
    requires s != {}
    ensures k in s
  {
    var k :| k in s; k
  }

  /** The sum of `f` over the ints of `s`. */
  ghost function SetSum(s: set<int>, f: int -> real): real
    decreases |s|
  {
    if s == {} then 0.0
    else
      var k := Pick(s);
      f(k) + SetSum(s - {k}, f)
  }

  /** Any element can be taken out of the sum first. */
  lemma {:induction false} SetSumRemove(s: set<int>, f: int -> real, k: int)
    requires k in s
    ensures SetSum(s, f) == f(k) + SetSum(s - {k}, f)
    decreases |s|
  {
    var j := Pick(s);
    if j != k {
      SetSumRemove(s - {j}, f, k);
      SetSumRemove(s - {k}, f, j);
      assert s - {j} - {k} == s - {k} - {j};
    }
  }

  /** Sums compare as their terms do. */
  lemma {:induction false} SetSumLe(s: set<int>, f: int -> real, g: int -> real)
    requires forall k :: k in s ==> f(k) <= g(k)
    ensures SetSum(s, f) <= SetSum(s, g)
    decreases |s|
  {
    if s != {} {
      var k := Pick(s);
      SetSumRemove(s, g, k);
      SetSumLe(s - {k}, f, g);
    }
  }

  /** Sums whose terms agree are equal. */
  lemma SetSumEqual(s: set<int>, f: int -> real, g: int -> real)
    requires forall k :: k in s ==> f(k) == g(k)
    ensures SetSum(s, f) == SetSum(s, g)
  {
    SetSumLe(s, f, g);
    SetSumLe(s, g, f);
  }

  /** Adding a new element adds its term. */
  lemma SetSumInsert(s: set<int>, f: int -> real, g: int -> real, t: int)
    requires t !in s && forall k :: k in s ==> f(k) == g(k)
    ensures SetSum(s + {t}, g) == SetSum(s, f) + g(t)
  {
    SetSumRemove(s + {t}, g, t);
    assert s + {t} - {t} == s;
    SetSumEqual(s, g, f);
  }

  /** Changing the term of one element changes the sum by the difference. */
  lemma SetSumChangeOne(s: set<int>, f: int -> real, g: int -> real, k: int)
    requires k in s && forall j :: j in s && j != k ==> f(j) == g(j)
    ensures SetSum(s, g) == SetSum(s, f) + (g(k) - f(k))
  {
    SetSumRemove(s, f, k);
    SetSumRemove(s, g, k);
    SetSumEqual(s - {k}, f, g);
  }

  /** A sum of zeros is zero. */
  lemma {:induction false} SetSumZero(s: set<int>, f: int -> real)
    requires forall k :: k in s ==> f(k) == 0.0
    ensures SetSum(s, f) == 0.0
    decreases |s|
  {
    if s != {} {
      SetSumZero(s - {Pick(s)}, f);
    }
  }

  /** `f` on the keys up to `t`, 0 above. */
  function UpTo(f: int -> real, t: int): int -> real {
    k => if k <= t then f(k) else 0.0
  }

  /** A cumulative sum does not decrease with its threshold when the terms
      are not negative. */
  lemma CumulativeMonotone(s: set<int>, f: int -> real, t1: int, t2: int)
    requires t1 <= t2 && forall k :: k in s ==> f(k) >= 0.0
    ensures SetSum(s, UpTo(f, t1)) <= SetSum(s, UpTo(f, t2))
  {
    SetSumLe(s, UpTo(f, t1), UpTo(f, t2));
  }

  /** A threshold at or above every key sums every term. */
  lemma CumulativeAll(s: set<int>, f: int -> real, t: int)
    requires forall k :: k in s ==> k <= t
    ensures SetSum(s, UpTo(f, t)) == SetSum(s, f)
  {
    SetSumEqual(s, UpTo(f, t), f);
  }
}
