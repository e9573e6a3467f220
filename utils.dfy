/** The string helpers of common/utils.cpp (`endsWith`, `split`) and the
    priority-queue entry of common/utils.h (`MinHeapEntry`). */
module Utils {
  import opened Wrappers

  // ---------------------------------------------------------------------
  // endsWith
  // ---------------------------------------------------------------------

  predicate EndsWith(s: string, suffix: string) {
    |s| >= |suffix| && s[|s| - |suffix|..] == suffix
  }

  /** `endsWith(s, x)` holds exactly when `s` is some string followed by `x`. */
  lemma EndsWithIffConcat(s: string, x: string)
    ensures EndsWith(s, x) <==> exists p :: s == p + x
  {
    if EndsWith(s, x) {
      assert s == s[..|s| - |x|] + x;
    }
    if exists p :: s == p + x {
      var p :| s == p + x;
      assert s[|s| - |x|..] == x;
    }
  }

  // ---------------------------------------------------------------------
  // Occurrences of a delimiter (std::string::find)
  // ---------------------------------------------------------------------

  /** `d` occurs in `s` at index `k`. */
  predicate OccursAt(s: string, d: string, k: int) {
    0 <= k && k + |d| <= |s| && s[k..k + |d|] == d
  }

  /** `s.find(d, start)`: the first index at or after `start` where `d`
      occurs, or `None` for `std::string::npos`. */
  function FindFrom(s: string, d: string, start: nat): (r: Option<nat>)
    decreases |s| - start
    ensures r.Some? ==> start <= r.value && r.value + |d| <= |s|
  {
    if start + |d| > |s| then None
    else if s[start..start + |d|] == d then Some(start)
    else FindFrom(s, d, start + 1)
  }

  /** `FindFrom` finds the first occurrence at or after `start`, and `None`
      means there is none. */
  lemma {:induction false} FindFromFirst(s: string, d: string, start: nat)
    decreases |s| - start
    ensures var r := FindFrom(s, d, start);
      (r.Some? ==> OccursAt(s, d, r.value) && forall k :: start <= k < r.value ==> !OccursAt(s, d, k)) &&
      (r.None? ==> forall k :: start <= k ==> !OccursAt(s, d, k))
  {
    if start + |d| <= |s| && s[start..start + |d|] != d {
      FindFromFirst(s, d, start + 1);
    }
  }

  /** `d` occurs somewhere in `t`. */
  ghost predicate Contains(t: string, d: string) {
    exists k :: OccursAt(t, d, k)
  }

  // ---------------------------------------------------------------------
  // Python's str.split(d), the behaviour `split` emulates
  // ---------------------------------------------------------------------

  /** The tokens of `s[start..]` between the non-overlapping occurrences of
      `d` found from left to right. */
  function SplitFrom(s: string, d: string, start: nat): (tokens: seq<string>)
    requires |d| > 0 && start <= |s|
    decreases |s| - start
    ensures |tokens| >= 1
  {
    match FindFrom(s, d, start)
    case None => [s[start..]]
    case Some(k) => [s[start..k]] + SplitFrom(s, d, k + |d|)
  }

  /** Python `s.split(d)` for a non-empty separator. */
  function SplitSpec(s: string, d: string): (tokens: seq<string>)
    requires |d| > 0
    ensures |tokens| >= 1
  {
    SplitFrom(s, d, 0)
  }

  /** Python `d.join(tokens)`. */
  function Join(tokens: seq<string>, d: string): string {
    if |tokens| == 0 then ""
    else if |tokens| == 1 then tokens[0]
    else tokens[0] + d + Join(tokens[1..], d)
  }

  /** Number of non-overlapping occurrences of `d` in `s[start..]`, counted
      left to right. */
  function OccurrencesFrom(s: string, d: string, start: nat): nat
    requires |d| > 0 && start <= |s|
    decreases |s| - start
  {
    match FindFrom(s, d, start)
    case None => 0
    case Some(k) => 1 + OccurrencesFrom(s, d, k + |d|)
  }

  /** Joining the tokens with the delimiter gives back the string. */
  lemma {:induction false} JoinSplitFrom(s: string, d: string, start: nat)
    requires |d| > 0 && start <= |s|
    decreases |s| - start
    ensures Join(SplitFrom(s, d, start), d) == s[start..]
  {
    match FindFrom(s, d, start)
    case None =>
    case Some(k) =>
      FindFromFirst(s, d, start);
      JoinSplitFrom(s, d, k + |d|);
      var rest := SplitFrom(s, d, k + |d|);
      assert SplitFrom(s, d, start)[1..] == rest;
      assert s[start..] == s[start..k] + d + s[k + |d|..];
  }

  lemma JoinSplit(s: string, d: string)
    requires |d| > 0
    ensures Join(SplitSpec(s, d), d) == s
  {
    JoinSplitFrom(s, d, 0);
  }

  /** `c` does not occur in `t`. */
  predicate Free(t: string, c: char) {
    forall j :: 0 <= j < |t| ==> t[j] != c
  }

  /** Splitting on a one-character delimiter undoes joining tokens that do
      not contain it. */
  lemma SplitJoin(tokens: seq<string>, c: char)
    requires |tokens| >= 1 && forall i :: 0 <= i < |tokens| ==> Free(tokens[i], c)
    ensures SplitSpec(Join(tokens, [c]), [c]) == tokens
  {
    SplitFromJoin([], tokens, c);
    assert [] + Join(tokens, [c]) == Join(tokens, [c]);
  }

  lemma {:induction false} SplitFromJoin(prefix: string, tokens: seq<string>, c: char)
    requires |tokens| >= 1 && forall i :: 0 <= i < |tokens| ==> Free(tokens[i], c)
    decreases |tokens|
    ensures SplitFrom(prefix + Join(tokens, [c]), [c], |prefix|) == tokens
  {
    var d := [c];
    var t0 := tokens[0];
    var s := prefix + Join(tokens, d);
    if |tokens| == 1 {
      assert s == prefix + t0;
      assert s[|prefix|..] == t0;
      LastToken(s, |prefix|, c);
    } else {
      var rest := tokens[1..];
      var r := Join(rest, d);
      var k := |prefix| + |t0|;
      assert s == (prefix + t0 + d) + r;
      assert s[|prefix|..k] == t0;
      assert s[k] == c;
      FirstToken(s, |prefix|, t0, c);
      SplitFromJoin(prefix + t0 + d, rest, c);
    }
  }

  /** A token free of `c` followed by `c` is cut at that `c`. */
  lemma FirstToken(s: string, i: nat, t: string, c: char)
    requires i + |t| < |s| && s[i..i + |t|] == t && s[i + |t|] == c && Free(t, c)
    ensures FindFrom(s, [c], i) == Some(i + |t|)
  {
    forall x | i <= x < i + |t|
      ensures s[x] != c
    {
      assert s[x] == t[x - i];
    }
    FindCharAt(s, c, i, i + |t|);
  }

  /** A last token free of `c` is not cut at all. */
  lemma LastToken(s: string, i: nat, c: char)
    requires i <= |s| && Free(s[i..], c)
    ensures FindFrom(s, [c], i) == None
  {
    forall x | i <= x < |s|
      ensures s[x] != c
    {
      assert s[x] == s[i..][x - i];
    }
    FindCharNone(s, c, i);
  }

  /** The search for a one-character delimiter stops at its first
      occurrence. */
  lemma {:induction false} FindCharAt(s: string, c: char, i: nat, k: nat)
    requires i <= k < |s| && s[k] == c && forall x :: i <= x < k ==> s[x] != c
    decreases k - i
    ensures FindFrom(s, [c], i) == Some(k)
  {
    if i < k {
      assert s[i..i + 1] != [c] by { assert s[i..i + 1][0] == s[i]; }
      FindCharAt(s, c, i + 1, k);
    } else {
      assert s[k..k + 1] == [c];
    }
  }

  /** The search for a one-character delimiter that does not occur fails. */
  lemma {:induction false} FindCharNone(s: string, c: char, i: nat)
    requires forall x :: i <= x < |s| ==> s[x] != c
    decreases |s| - i
    ensures FindFrom(s, [c], i) == None
  {
    if i < |s| {
      assert s[i..i + 1] != [c] by { assert s[i..i + 1][0] == s[i]; }
      FindCharNone(s, c, i + 1);
    }
  }

  /** A stretch of `s` free of `c` holds no occurrence of `[c]`. */
  lemma FreeSpan(s: string, c: char, i: nat, j: nat)
    requires i <= j <= |s| && Free(s[i..j], c)
    ensures forall x :: i <= x < j ==> !OccursAt(s, [c], x)
  {
    forall x | i <= x < j
      ensures !OccursAt(s, [c], x)
    {
      assert s[x] == s[i..j][x - i];
    }
  }

  /** No token contains the delimiter. */
  lemma {:induction false} SplitFromNoDelimiter(s: string, d: string, start: nat)
    requires |d| > 0 && start <= |s|
    decreases |s| - start
    ensures forall t :: t in SplitFrom(s, d, start) ==> !Contains(t, d)
  {
    FindFromFirst(s, d, start);
    match FindFrom(s, d, start)
    case None =>
      SliceOccurrences(s, d, start, |s|);
      assert SplitFrom(s, d, start) == [s[start..]];
      assert s[start..|s|] == s[start..];
      assert !Contains(s[start..], d);
    case Some(k) =>
      SplitFromNoDelimiter(s, d, k + |d|);
      SliceOccurrences(s, d, start, k);
      assert SplitFrom(s, d, start) == [s[start..k]] + SplitFrom(s, d, k + |d|);
  }

  /** An occurrence inside a slice is an occurrence in the whole string. */
  lemma SliceOccurrences(s: string, d: string, i: nat, j: nat)
    requires i <= j <= |s|
    ensures forall k :: OccursAt(s[i..j], d, k) ==> OccursAt(s, d, i + k) && i + k + |d| <= j
  {
    forall k | OccursAt(s[i..j], d, k)
      ensures OccursAt(s, d, i + k) && i + k + |d| <= j
    {
      forall m | 0 <= m < |d| ensures s[i + k + m] == d[m] {
        assert s[i..j][k..k + |d|][m] == d[m];
      }
      assert s[i + k..i + k + |d|] == d;
    }
  }

  lemma SplitNoDelimiter(s: string, d: string)
    requires |d| > 0
    ensures forall t :: t in SplitSpec(s, d) ==> !Contains(t, d)
  {
    SplitFromNoDelimiter(s, d, 0);
  }

  /** There is one more token than there are delimiter occurrences. */
  lemma {:induction false} SplitFromCount(s: string, d: string, start: nat)
    requires |d| > 0 && start <= |s|
    decreases |s| - start
    ensures |SplitFrom(s, d, start)| == OccurrencesFrom(s, d, start) + 1
  {
    match FindFrom(s, d, start)
    case None =>
    case Some(k) => SplitFromCount(s, d, k + |d|);
  }

  lemma SplitCount(s: string, d: string)
    requires |d| > 0
    ensures |SplitSpec(s, d)| == OccurrencesFrom(s, d, 0) + 1
  {
    SplitFromCount(s, d, 0);
  }

  /** `split("", d) == [""]`, and for a one-character delimiter a trailing
      delimiter yields a trailing "" token.  (For longer delimiters Python's
      rule is subtler: "aaa".split("aa") is ["", "a"].) */
  lemma SplitEdgeCases(s: string, d: string)
    requires |d| == 1
    ensures SplitSpec("", d) == [""]
    ensures SplitSpec(s + d, d)[|SplitSpec(s + d, d)| - 1] == ""
  {
    var t := s + d;
    JoinSplit(t, d);
    SplitNoDelimiter(t, d);
    var tokens := SplitSpec(t, d);
    var last := tokens[|tokens| - 1];
    assert last in tokens;
    JoinEndsWithLast(tokens, d);
    assert EndsWith(t, d);
    LastCharOccurs(t, last, d);
  }

  /** A non-empty suffix of a string that ends with the one-character `d`
      contains `d` at its end. */
  lemma LastCharOccurs(t: string, last: string, d: string)
    requires |d| == 1 && EndsWith(t, d) && EndsWith(t, last)
    ensures |last| > 0 ==> OccursAt(last, d, |last| - 1)
  {
    if |last| > 0 {
      assert last[|last| - 1] == t[|t| - 1] == d[0];
      assert last[|last| - 1..|last|] == d;
    }
  }

  lemma {:induction false} JoinEndsWithLast(tokens: seq<string>, d: string)
    requires |tokens| >= 1
    ensures EndsWith(Join(tokens, d), tokens[|tokens| - 1])
  {
    var j := Join(tokens, d);
    var last := tokens[|tokens| - 1];
    if |tokens| >= 2 {
      JoinEndsWithLast(tokens[1..], d);
      var r := Join(tokens[1..], d);
      assert j == (tokens[0] + d) + r;
      assert last == tokens[1..][|tokens[1..]| - 1];
      assert j[|j| - |last|..] == r[|r| - |last|..];
    } else {
      assert j[|j| - |j|..] == j;
    }
  }

  // ---------------------------------------------------------------------
  // The `split` loop of common/utils.cpp
  // ---------------------------------------------------------------------

  /** The tokens the loop of `split` pushes when it starts at `start`: one per
      step, each running up to the next occurrence of `d` (or to the end). */
  function LoopTokens(s: string, d: string, start: nat): seq<string>
    requires |d| > 0
    decreases |s| - start
  {
    if start >= |s| then []
    else match FindFrom(s, d, start)
      case None => [s[start..]]
      case Some(k) => [s[start..k]] + LoopTokens(s, d, k + |d|)
  }

  /** The value of `start` when the loop of `split` exits. */
  function LoopFinal(s: string, d: string, start: nat): (r: nat)
    requires |d| > 0
    decreases |s| - start
    ensures r >= |s| && (start >= |s| ==> r == start)
  {
    if start >= |s| then start
    else match FindFrom(s, d, start)
      case None => |s| + |d|
      case Some(k) => LoopFinal(s, d, k + |d|)
  }

  /** Python's split is the loop's tokens, plus a final "" exactly when the
      loop stopped right at the end of the string (after a delimiter, or on
      the empty string). */
  lemma {:induction false} SplitFromLoop(s: string, d: string, start: nat)
    requires |d| > 0 && start <= |s|
    decreases |s| - start
    ensures SplitFrom(s, d, start) ==
            LoopTokens(s, d, start) + (if LoopFinal(s, d, start) == |s| then [""] else [])
  {
    if start < |s| {
      match FindFrom(s, d, start)
      case None =>
      case Some(k) =>
        SplitFromLoop(s, d, k + |d|);
    } else {
      assert FindFrom(s, d, start).None?;
      assert |s[start..]| == 0;
      assert SplitFrom(s, d, start) == [s[start..]];
    }
  }

  /** One step of the loop of `split`. */
  lemma LoopStep(s: string, d: string, start: nat, end: nat, next: nat)
    requires |d| > 0 && start < |s|
    requires end == TokenEnd(s, d, start) && next == end + |d|
    ensures start <= end <= |s|
    ensures LoopTokens(s, d, start) == [s[start..end]] + LoopTokens(s, d, next)
    ensures LoopFinal(s, d, start) == LoopFinal(s, d, next)
  {
    if FindFrom(s, d, start).None? {
      assert s[start..|s|] == s[start..];
    }
  }

  /** One pass of the loop of `split`: find the delimiter from `start`,
      push the token before it and move past it.  The tokens pushed so far
      and the tokens still to come stay in step. */
  method PushToken(s: string, d: string, start: nat, tokens: seq<string>)
    returns (tokens': seq<string>, start': nat)
    requires |d| > 0 && start < |s|
    requires tokens + LoopTokens(s, d, start) == LoopTokens(s, d, 0)
    ensures start' > start
    ensures tokens' + LoopTokens(s, d, start') == LoopTokens(s, d, 0)
    ensures LoopFinal(s, d, start') == LoopFinal(s, d, start)
  {
    var end := TokenEnd(s, d, start);
    start' := end + |d|;
    LoopStep(s, d, start, end, start');
    Advance(tokens, s[start..end], LoopTokens(s, d, start), LoopTokens(s, d, start'), LoopTokens(s, d, 0));
    tokens' := tokens + [s[start..end]];
  }

  /** Where the token at `start` ends: at the next delimiter, or at the end
      of the string when `find` returns `npos`. */
  function TokenEnd(s: string, d: string, start: nat): (end: nat)
    requires start <= |s|
    ensures start <= end <= |s|
  {
    match FindFrom(s, d, start)
    case Some(k) => k
    case None => |s|
  }

  /** Moving the next item from what is still to come onto what is done
      keeps the whole. */
  lemma Advance<T>(done: seq<T>, x: T, rest: seq<T>, later: seq<T>, all: seq<T>)
    requires done + rest == all && rest == [x] + later
    ensures (done + [x]) + later == all
  {
    assert (done + [x]) + later == done + ([x] + later);
  }

  /** `split` as written: the loop, then a trailing "" when the string is
      empty or ends with the delimiter. */
  function SplitAsWrittenSpec(s: string, d: string): seq<string>
    requires |d| > 0
  {
    LoopTokens(s, d, 0) + (if s == [] || EndsWith(s, d) then [""] else [])
  }

  /** `split(s, delimiter)` as written in common/utils.cpp. */
  method SplitAsWritten(s: string, d: string) returns (tokens: seq<string>)
    requires |d| > 0
    ensures tokens == SplitAsWrittenSpec(s, d)
  {
    tokens := [];
    var start: nat := 0;
    while start < |s|
      invariant tokens + LoopTokens(s, d, start) == LoopTokens(s, d, 0)
      decreases |s| - start
    {
      tokens, start := PushToken(s, d, start, tokens);
    }
    assert tokens == LoopTokens(s, d, 0);
    if s == [] || EndsWith(s, d) {
      tokens := tokens + [""];
    }
  }

  /** `split` with the trailing-token test the Python emulation needs: the
      loop stopped exactly at the end of the string. */
  method Split(s: string, d: string) returns (tokens: seq<string>)
    requires |d| > 0
    ensures tokens == SplitSpec(s, d)
  {
    tokens := [];
    var start: nat := 0;
    while start < |s|
      invariant tokens + LoopTokens(s, d, start) == LoopTokens(s, d, 0)
      invariant LoopFinal(s, d, start) == LoopFinal(s, d, 0)
      decreases |s| - start
    {
      tokens, start := PushToken(s, d, start, tokens);
    }
    assert tokens == LoopTokens(s, d, 0);
    assert start == LoopFinal(s, d, 0);
    SplitFromLoop(s, d, 0);
    if start == |s| {
      tokens := tokens + [""];
    }
  }

  /** For a one-character delimiter (the only kind the simulator passes),
      `split` as written agrees with Python's split. */
  lemma SplitAsWrittenSingleChar(s: string, d: string)
    requires |d| == 1
    ensures SplitAsWrittenSpec(s, d) == SplitSpec(s, d)
  {
    SplitFromLoop(s, d, 0);
    LoopFinalSingleChar(s, d, 0);
    if |s| > 0 {
      assert EndsWith(s, d) <==> s[|s| - 1] == d[0] by {
        assert s[|s| - 1..] == [s[|s| - 1]];
        assert d == [d[0]];
      }
    }
  }

  lemma {:induction false} LoopFinalSingleChar(s: string, d: string, start: nat)
    requires |d| == 1 && start <= |s|
    decreases |s| - start
    ensures LoopFinal(s, d, start) == |s| <==> (start == |s| || s[|s| - 1] == d[0])
  {
    if start < |s| {
      assert OccursAt(s, d, |s| - 1) <==> s[|s| - 1] == d[0] by {
        assert s[|s| - 1..|s|] == [s[|s| - 1]];
        assert d == [d[0]];
      }
      FindFromFirst(s, d, start);
      match FindFrom(s, d, start)
      case None =>
      case Some(k) =>
        LoopFinalSingleChar(s, d, k + 1);
        assert s[k..k + 1] == d;
        assert s[k] == d[0] by { assert s[k..k + 1][0] == s[k]; }
    }
  }

  /** With an overlapping delimiter the trailing-"" test of `split` as
      written misfires: "aaa" split on "aa" gives ["", "a", ""] instead of
      Python's ["", "a"], and joining the tokens back gives "aaaaa". */
  lemma SplitAsWrittenOverlap()
    ensures SplitAsWrittenSpec("aaa", "aa") == ["", "a", ""]
    ensures SplitSpec("aaa", "aa") == ["", "a"]
    ensures Join(SplitAsWrittenSpec("aaa", "aa"), "aa") != "aaa"
  {
    var s, d := "aaa", "aa";
    assert s[0..2] == d;
    assert FindFrom(s, d, 0) == Some(0);
    assert FindFrom(s, d, 2) == None;
    assert LoopTokens(s, d, 2) == ["a"];
    assert LoopTokens(s, d, 0) == [""] + ["a"];
    assert EndsWith(s, d) by { assert s[1..] == d; }
    assert SplitFrom(s, d, 2) == ["a"];
    assert Join(["", "a", ""], d) == "aaaaa";
  }

  // ---------------------------------------------------------------------
  // MinHeapEntry (common/utils.h)
  // ---------------------------------------------------------------------

  /** An entry of the simulator's boost max-heaps: a tag, a primary metric and
      an insertion time (0 unless given). */
  datatype MinHeapEntry<Tag> = MinHeapEntry(tag: Tag, metric: real, insertTime: real := 0.0)

  /** `operator<` of MinHeapEntry: a larger metric is "less"; on equal metrics a
      later-or-equal insertion time is "less". */
  predicate EntryLess<Tag>(a: MinHeapEntry<Tag>, b: MinHeapEntry<Tag>) {
    if a.metric != b.metric then a.metric > b.metric else a.insertTime >= b.insertTime
  }

  /** Lexicographic order on (metric, insertion time): the order in which the
      heap is meant to release entries. */
  predicate KeyBefore<Tag>(a: MinHeapEntry<Tag>, b: MinHeapEntry<Tag>) {
    a.metric < b.metric || (a.metric == b.metric && a.insertTime <= b.insertTime)
  }

  predicate SameKey<Tag>(a: MinHeapEntry<Tag>, b: MinHeapEntry<Tag>) {
    a.metric == b.metric && a.insertTime == b.insertTime
  }

  /** The comparator is reflexive on ties, so it is no strict weak order. */
  lemma EntryLessReflexive<Tag>(e: MinHeapEntry<Tag>)
    ensures EntryLess(e, e)
  {
  }

  /** For entries with distinct (metric, time) keys the comparator is the
      reverse of the lexicographic key order: exactly one of the two
      directions holds. */
  lemma EntryLessOnDistinctKeys<Tag>(a: MinHeapEntry<Tag>, b: MinHeapEntry<Tag>)
    requires !SameKey(a, b)
    ensures EntryLess(a, b) <==> KeyBefore(b, a)
    ensures EntryLess(a, b) != EntryLess(b, a)
  {
  }

  /** The top of a max-heap under `EntryLess`: no other-keyed entry is greater. */
  predicate IsHeapTop<Tag(==)>(e: MinHeapEntry<Tag>, entries: multiset<MinHeapEntry<Tag>>) {
    e in entries && forall o :: o in entries && !SameKey(o, e) ==> !EntryLess(e, o)
  }

  /** The heap top is exactly an entry with the smallest metric, and among
      those the earliest insertion time. */
  lemma HeapTopIsKeyMinimum<Tag>(e: MinHeapEntry<Tag>, entries: multiset<MinHeapEntry<Tag>>)
    ensures IsHeapTop(e, entries) <==> (e in entries && forall o :: o in entries ==> KeyBefore(e, o))
  {
  }

  /** A non-empty heap has a top: the key order is total, so a finite
      multiset of entries has a key-minimal element. */
  lemma {:induction false} HeapTopExists<Tag>(entries: multiset<MinHeapEntry<Tag>>)
    requires |entries| > 0
    ensures exists e :: IsHeapTop(e, entries)
    decreases |entries|
  {
    var x :| x in entries;
    var rest := entries - multiset{x};
    if |rest| == 0 {
      assert entries == multiset{x};
      HeapTopIsKeyMinimum(x, entries);
    } else {
      HeapTopExists(rest);
      var y :| IsHeapTop(y, rest);
      HeapTopOfAddition(y, rest, x);
      assert rest + multiset{x} == entries;
    }
  }

  /** Adding entry `x` to a heap with top `y` gives a heap whose top is the
      key-earlier of the two. */
  lemma HeapTopOfAddition<Tag>(y: MinHeapEntry<Tag>, rest: multiset<MinHeapEntry<Tag>>, x: MinHeapEntry<Tag>)
    requires IsHeapTop(y, rest)
    ensures IsHeapTop(if KeyBefore(x, y) then x else y, rest + multiset{x})
  {
    HeapTopIsKeyMinimum(y, rest);
    HeapTopIsKeyMinimum(if KeyBefore(x, y) then x else y, rest + multiset{x});
  }

  // ---------------------------------------------------------------------
  // Sums over the values of a map (per-flow counters of the queues)
  // ---------------------------------------------------------------------

  /** Some key of a non-empty map. */
  ghost function PickKey<K, V>(m: map<K, V>): (k: K)
    requires |m| > 0
    ensures k in m
  {
    var k :| k in m; k
  }

  /** The sum of `f` over the values of `m`. */
  ghost function SumOver<K, V>(m: map<K, V>, f: V -> nat): nat
    decreases |m|
  {
    if |m| == 0 then 0
    else
      var k := PickKey(m);
      f(m[k]) + SumOver(m - {k}, f)
  }

  /** Any key can be taken out of the sum first. */
  lemma {:induction false} SumOverRemove<K, V>(m: map<K, V>, f: V -> nat, k: K)
    requires k in m
    ensures SumOver(m, f) == f(m[k]) + SumOver(m - {k}, f)
    decreases |m|
  {
    var j := PickKey(m);
    if j != k {
      SumOverRemove(m - {j}, f, k);
      SumOverRemove(m - {k}, f, j);
      assert m - {j} - {k} == m - {k} - {j};
    }
  }

  /** Replacing (or adding) one value changes the sum by the difference. */
  lemma SumOverUpdate<K, V>(m: map<K, V>, f: V -> nat, k: K, v: V)
    ensures SumOver(m[k := v], f) + (if k in m then f(m[k]) else 0) == SumOver(m, f) + f(v)
  {
    var rest := m - {k};
    assert SumOver(m[k := v], f) == f(v) + SumOver(rest, f) by {
      SumOverRemove(m[k := v], f, k);
      UpdateThenRemove(m, k, v);
    }
    if k in m {
      SumOverRemove(m, f, k);
    } else {
      RemoveAbsent(m, k);
    }
  }

  /** Taking a key out after updating it forgets the update. */
  lemma UpdateThenRemove<K, V>(m: map<K, V>, k: K, v: V)
    ensures m[k := v] - {k} == m - {k}
  {
  }

  /** Taking out a key that is absent changes nothing. */
  lemma RemoveAbsent<K, V>(m: map<K, V>, k: K)
    requires k !in m
    ensures m - {k} == m
  {
  }

  /** A positive sum has a key to account for it. */
  lemma SumOverPositive<K, V>(m: map<K, V>, f: V -> nat)
    requires SumOver(m, f) > 0
    ensures |m| > 0
  {
  }
}
