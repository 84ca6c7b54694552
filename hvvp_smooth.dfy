/**
 * The three-level median smoothers applied to the HVVP layer profiles. Each
 * level whose value is above -90 is replaced by the median of the non-missing
 * values in the window of itself and its two neighbours (cut at the ends of
 * the profile). The levels are visited from the bottom up and smoothed in
 * place, so the window of a level holds the already smoothed value of the
 * level below it.
 */
module HvvpSmooth {
  import opened Sequences
  import opened Sorting

  /** The number of layers in a profile. */
  const Levels: nat := 14

  /** The missing-value marker. */
  const VelNull: real := -999.0

  predicate Valued(x: real)
  {
    x != VelNull
  }

  /** The window runs from one level below to one level above, cut at the profile's ends. */
  function WindowLo(i: int): int
  {
    if i - 1 < 0 then 0 else i - 1
  }

  function WindowHi(i: int, n: int): int
  {
    if i + 1 >= n then n - 1 else i + 1
  }

  /** The non-missing values of levels lo..hi, bottom up. */
  function ValuesIn(d: seq<real>, lo: int, hi: int): (w: seq<real>)
    requires 0 <= lo && hi < |d|
    decreases hi - lo
  {
    if hi < lo then [] else ValuesIn(d, lo, hi - 1) + (if Valued(d[hi]) then [d[hi]] else [])
  }

  /** A value is among the values of levels lo..hi exactly when some level there holds it and it is not missing. */
  lemma {:induction false} ValuesInMembers(d: seq<real>, lo: int, hi: int, x: real)
    requires 0 <= lo && hi < |d|
    ensures x in ValuesIn(d, lo, hi) <==> Valued(x) && exists k :: lo <= k <= hi && d[k] == x
    decreases hi - lo
  {
    if lo <= hi {
      ValuesInMembers(d, lo, hi - 1, x);
      if x in ValuesIn(d, lo, hi - 1) {
        var k :| lo <= k <= hi - 1 && d[k] == x;
        assert lo <= k <= hi && d[k] == x;
      }
      if Valued(x) && exists k :: lo <= k <= hi && d[k] == x {
        var k :| lo <= k <= hi && d[k] == x;
        if k < hi {
          assert lo <= k <= hi - 1 && d[k] == x;
        }
      }
    }
  }

  /** The non-missing values of the window around level i, bottom up. */
  function Window(d: seq<real>, i: int): (w: seq<real>)
    requires 0 <= i < |d|
  {
    ValuesIn(d, WindowLo(i), WindowHi(i, |d|))
  }

  /** A level that is not missing is in its own window. */
  lemma WindowHasLevel(d: seq<real>, i: int)
    requires 0 <= i < |d| && Valued(d[i])
    ensures d[i] in Window(d, i) && |Window(d, i)| >= 1
  {
    ValuesInMembers(d, WindowLo(i), WindowHi(i, |d|), d[i]);
  }

  /** The visit of level i: a value above -90 becomes its window's median. */
  function SmoothAt(d: seq<real>, i: int): (r: seq<real>)
    requires 0 <= i < |d|
    ensures |r| == |d| && forall k :: 0 <= k < |d| && k != i ==> r[k] == d[k]
  {
    if d[i] > -90.0 then
      WindowHasLevel(d, i);
      d[i := Median(SortReals(Window(d, i)))]
    else d
  }

  /** The visits of levels i, i + 1, ... in turn. */
  function SmoothFrom(d: seq<real>, i: int): (r: seq<real>)
    requires 0 <= i <= |d|
    ensures |r| == |d|
    decreases |d| - i
  {
    if i == |d| then d else SmoothFrom(SmoothAt(d, i), i + 1)
  }

  /** smoothHvvp on a whole profile. */
  function Smooth(d: seq<real>): (r: seq<real>)
    ensures |r| == |d|
  {
    SmoothFrom(d, 0)
  }

  /** Levels already visited are not visited again. */
  lemma {:induction false} SmoothFromKeepsPrefix(d: seq<real>, i: int, k: int)
    requires 0 <= k < i <= |d|
    ensures SmoothFrom(d, i)[k] == d[k]
    decreases |d| - i
  {
    if i < |d| {
      SmoothFromKeepsPrefix(SmoothAt(d, i), i + 1, k);
    }
  }

  /**
   * What a level becomes: at its visit the levels below it hold their smoothed
   * values and the levels above it their original ones.
   */
  lemma {:induction false} SmoothFromEntry(d: seq<real>, j: int, i: int)
    requires 0 <= j <= i < |d|
    ensures SmoothFrom(d, j)[i] == SmoothAt(SmoothFrom(d, j)[..i] + d[i..], i)[i]
    decreases i - j
  {
    if j < i {
      var d' := SmoothAt(d, j);
      SmoothFromEntry(d', j + 1, i);
      assert d'[i..] == d[i..];
    } else {
      SmoothFromVisit(d, i);
    }
  }

  /** At its own visit a level sees the profile as it stands. */
  lemma SmoothFromVisit(d: seq<real>, i: int)
    requires 0 <= i < |d|
    ensures SmoothFrom(d, i)[..i] + d[i..] == d
    ensures SmoothFrom(d, i)[i] == SmoothAt(d, i)[i]
  {
    var d' := SmoothAt(d, i);
    SmoothFromKeepsPrefix(d', i + 1, i);
    SmoothFromVisitPrefix(d, i);
    SplitJoin(d, i);
  }

  lemma SmoothFromVisitPrefix(d: seq<real>, i: int)
    requires 0 <= i < |d|
    ensures SmoothFrom(d, i)[..i] == d[..i]
  {
    var d' := SmoothAt(d, i);
    var r := SmoothFrom(d', i + 1);
    forall k | 0 <= k < i ensures r[k] == d[k] {
      SmoothFromKeepsPrefix(d', i + 1, k);
    }
  }

  lemma SplitJoin<T>(s: seq<T>, i: int)
    requires 0 <= i <= |s|
    ensures s[..i] + s[i..] == s
  {
  }

  /**
   * Each level of the smoothed profile: a value of -90 or less is kept, a
   * larger one becomes the median of the non-missing values of its window,
   * in which the level below already holds its smoothed value.
   */
  lemma SmoothedLevel(d: seq<real>, i: int)
    requires 0 <= i < |d|
    ensures var e := Smooth(d)[..i] + d[i..];
      e[i] == d[i] &&
      (d[i] <= -90.0 ==> Smooth(d)[i] == d[i]) &&
      (d[i] > -90.0 ==> |Window(e, i)| >= 1 && Smooth(d)[i] == Median(SortReals(Window(e, i))))
  {
    SmoothFromEntry(d, 0, i);
    var e := Smooth(d)[..i] + d[i..];
    assert e[i] == d[i];
    if d[i] > -90.0 {
      WindowHasLevel(e, i);
    }
  }

  /** A smoothed level lies between the least and the greatest value of its window. */
  lemma SmoothedWithinWindow(d: seq<real>, i: int)
    requires 0 <= i < |d| && d[i] > -90.0
    ensures var w := Window(Smooth(d)[..i] + d[i..], i);
      exists a, b :: a in w && b in w && a <= Smooth(d)[i] <= b
  {
    SmoothedLevel(d, i);
    var w := Window(Smooth(d)[..i] + d[i..], i);
    var s := SortReals(w);
    SortRealsSorted(w);
    MedianBounds(s);
    var a, b := s[0], s[|s| - 1];
    assert a in multiset(s) && b in multiset(s);
    assert a in w && b in w && a <= Smooth(d)[i] <= b;
  }

  // ------------------------------------------------------------- pairs

  /** The window's (vm_sin, var) pairs whose vm_sin is not missing, tagged with their level, bottom up. */
  function PairWindow(d1: seq<real>, d2: seq<real>, lo: int, hi: int): (w: seq<Entry>)
    requires |d1| == |d2| && 0 <= lo && hi < |d1|
    ensures forall k :: 0 <= k < |w| ==> lo <= w[k].level <= hi
    ensures forall p, q :: 0 <= p < q < |w| ==> w[p].level < w[q].level
    decreases hi - lo
  {
    if hi < lo then []
    else PairWindow(d1, d2, lo, hi - 1) + (if Valued(d1[hi]) then [Entry(d1[hi], d2[hi], hi)] else [])
  }

  /** Each pair of the window is the (vm_sin, var) of the level it is tagged with. */
  lemma {:induction false} PairWindowEntries(d1: seq<real>, d2: seq<real>, lo: int, hi: int)
    requires |d1| == |d2| && 0 <= lo && hi < |d1|
    ensures forall e :: e in PairWindow(d1, d2, lo, hi) ==>
      0 <= e.level < |d1| && e.key == d1[e.level] && e.partner == d2[e.level] && Valued(e.key)
    decreases hi - lo
  {
    if lo <= hi {
      PairWindowEntries(d1, d2, lo, hi - 1);
    }
  }

  /** The keys of the pair window are the single-profile window. */
  lemma {:induction false} PairWindowKeys(d1: seq<real>, d2: seq<real>, lo: int, hi: int)
    requires |d1| == |d2| && 0 <= lo && hi < |d1|
    ensures Keys(PairWindow(d1, d2, lo, hi)) == ValuesIn(d1, lo, hi)
    decreases hi - lo
  {
    if lo <= hi {
      PairWindowKeys(d1, d2, lo, hi - 1);
      var w := PairWindow(d1, d2, lo, hi - 1);
      var t: seq<Entry> := if Valued(d1[hi]) then [Entry(d1[hi], d2[hi], hi)] else [];
      assert Keys(w + t) == Keys(w) + Keys(t);
    }
  }

  function PairWindowAt(d1: seq<real>, d2: seq<real>, i: int): (w: seq<Entry>)
    requires |d1| == |d2| && 0 <= i < |d1|
    ensures DistinctLevels(w)
  {
    PairWindow(d1, d2, WindowLo(i), WindowHi(i, |d1|))
  }

  /** The window of a level whose vm_sin is not missing holds at least that level's pair. */
  lemma PairWindowNonEmpty(d1: seq<real>, d2: seq<real>, i: int)
    requires |d1| == |d2| && 0 <= i < |d1| && Valued(d1[i])
    ensures |PairWindowAt(d1, d2, i)| >= 1
  {
    var w := PairWindowAt(d1, d2, i);
    PairWindowKeys(d1, d2, WindowLo(i), WindowHi(i, |d1|));
    WindowHasLevel(d1, i);
    assert |Keys(w)| == |w|;
  }

  /** The visit of level i: the vm_sin median, and the var partnered with it in the same order. */
  function SmoothPairAt(d1: seq<real>, d2: seq<real>, i: int): (r: (seq<real>, seq<real>))
    requires |d1| == |d2| && 0 <= i < |d1|
    ensures |r.0| == |r.1| == |d1|
    ensures forall k :: 0 <= k < |d1| && k != i ==> r.0[k] == d1[k] && r.1[k] == d2[k]
  {
    if d1[i] > -90.0 then
      var w := PairWindowAt(d1, d2, i);
      PairWindowNonEmpty(d1, d2, i);
      var s := SortLex(w);
      (d1[i := Median(Keys(s))], d2[i := Median(Partners(s))])
    else (d1, d2)
  }

  function SmoothPairsFrom(d1: seq<real>, d2: seq<real>, i: int): (r: (seq<real>, seq<real>))
    requires |d1| == |d2| && 0 <= i <= |d1|
    ensures |r.0| == |r.1| == |d1|
    decreases |d1| - i
  {
    if i == |d1| then (d1, d2)
    else
      var p := SmoothPairAt(d1, d2, i);
      SmoothPairsFrom(p.0, p.1, i + 1)
  }

  /** smoothHvvpVmSin on a vm_sin profile and its var profile. */
  function SmoothPairs(d1: seq<real>, d2: seq<real>): (r: (seq<real>, seq<real>))
    requires |d1| == |d2|
    ensures |r.0| == |r.1| == |d1|
  {
    SmoothPairsFrom(d1, d2, 0)
  }

  /** The vm_sin profile is smoothed exactly as smoothHvvp smooths a profile. */
  lemma {:induction false} SmoothPairsFirst(d1: seq<real>, d2: seq<real>, i: int)
    requires |d1| == |d2| && 0 <= i <= |d1|
    ensures SmoothPairsFrom(d1, d2, i).0 == SmoothFrom(d1, i)
    decreases |d1| - i
  {
    if i < |d1| {
      var p := SmoothPairAt(d1, d2, i);
      if d1[i] > -90.0 {
        var w := PairWindowAt(d1, d2, i);
        PairWindowKeys(d1, d2, WindowLo(i), WindowHi(i, |d1|));
        KeysOfSortLex(w);
        assert p.0 == SmoothAt(d1, i);
      }
      SmoothPairsFirst(p.0, p.1, i + 1);
    }
  }

  /** A level whose vm_sin is -90 or less keeps both its vm_sin and its var. */
  lemma {:induction false} SmoothPairsKeepsInvalid(d1: seq<real>, d2: seq<real>, i: int, k: int)
    requires |d1| == |d2| && 0 <= i <= k < |d1| && d1[k] <= -90.0
    ensures SmoothPairsFrom(d1, d2, i).0[k] == d1[k] && SmoothPairsFrom(d1, d2, i).1[k] == d2[k]
    decreases |d1| - i
  {
    var p := SmoothPairAt(d1, d2, i);
    if k == i {
      SmoothPairsKeepsPrefix(p.0, p.1, i + 1, k);
    } else {
      SmoothPairsKeepsInvalid(p.0, p.1, i + 1, k);
    }
  }

  lemma {:induction false} SmoothPairsKeepsPrefix(d1: seq<real>, d2: seq<real>, i: int, k: int)
    requires |d1| == |d2| && 0 <= k < i <= |d1|
    ensures SmoothPairsFrom(d1, d2, i).0[k] == d1[k] && SmoothPairsFrom(d1, d2, i).1[k] == d2[k]
    decreases |d1| - i
  {
    if i < |d1| {
      var p := SmoothPairAt(d1, d2, i);
      SmoothPairsKeepsPrefix(p.0, p.1, i + 1, k);
    }
  }

  /**
   * With an odd number of values in the window, the smoothed vm_sin and var
   * of a level are the two halves of one pair read at a single level.
   */
  lemma SmoothedPairIsAPair(d1: seq<real>, d2: seq<real>, i: int)
    requires |d1| == |d2| && 0 <= i < |d1| && d1[i] > -90.0
    requires |PairWindowAt(d1, d2, i)| % 2 == 1
    ensures exists e :: (e in PairWindowAt(d1, d2, i) &&
      SmoothPairAt(d1, d2, i).0[i] == e.key && SmoothPairAt(d1, d2, i).1[i] == e.partner)
  {
    var w := PairWindowAt(d1, d2, i);
    var s := SortLex(w);
    SortLexSorted(w);
    var e := s[|s| / 2];
    assert e in multiset(w);
  }

  // ------------------------------------------------------------ methods

  /** Exchanging two neighbours below n keeps the values below n and those from n on. */
  lemma SwapKeepsMultiset<T>(s: seq<T>, w: int, n: int)
    requires 0 <= w && w + 1 < n <= |s|
    ensures var s' := s[w := s[w + 1]][w + 1 := s[w]];
      multiset(s'[..n]) == multiset(s[..n]) && s'[n..] == s[n..]
  {
    var s' := s[w := s[w + 1]][w + 1 := s[w]];
    assert s[..n] == s[..w] + [s[w], s[w + 1]] + s[w + 2..n];
    assert s'[..n] == s[..w] + [s[w + 1], s[w]] + s[w + 2..n];
  }

  /** The values above k are in their final places. */
  ghost predicate SettledAbove(s: seq<real>, k: int)
  {
    (forall p, q :: 0 <= k < p <= q < |s| ==> s[p] <= s[q]) &&
    (forall p, q :: 0 <= p <= k < q < |s| ==> s[p] <= s[q])
  }

  /** One pass of the inner loop: the largest of the first k + 1 values moves to place k. */
  method BubblePass(temp: array<real>, n: int, k: int)
    requires 0 < k < n <= temp.Length && SettledAbove(temp[..n], k)
    modifies temp
    ensures multiset(temp[..n]) == multiset(old(temp[..n])) && temp[n..] == old(temp[n..])
    ensures SettledAbove(temp[..n], k - 1)
  {
    var w := 0;
    while w < k
      invariant 0 <= w <= k
      invariant multiset(temp[..n]) == multiset(old(temp[..n])) && temp[n..] == old(temp[n..])
      invariant SettledAbove(temp[..n], k)
      invariant forall p :: 0 <= p < w ==> temp[p] <= temp[w]
    {
      BubbleStep(temp, n, k, w);
      w := w + 1;
    }
  }

  /** One comparison of the inner loop: the larger of places w and w + 1 ends at w + 1. */
  method BubbleStep(temp: array<real>, n: int, k: int, w: int)
    requires 0 <= w < k < n <= temp.Length && SettledAbove(temp[..n], k)
    requires forall p :: 0 <= p < w ==> temp[p] <= temp[w]
    modifies temp
    ensures multiset(temp[..n]) == multiset(old(temp[..n])) && temp[n..] == old(temp[n..])
    ensures SettledAbove(temp[..n], k)
    ensures forall p :: 0 <= p <= w ==> temp[p] <= temp[w + 1]
  {
    if temp[w] > temp[w + 1] {
      SwapKeepsMultiset(temp[..], w, n);
      SwapSettledReals(temp[..n], k, w);
      assert temp[..][w := temp[w + 1]][w + 1 := temp[w]][..n] == temp[..n][w := temp[w + 1]][w + 1 := temp[w]];
      temp[w], temp[w + 1] := temp[w + 1], temp[w];
    }
  }

  /** Exchanging neighbours out of order keeps the pass's invariant. */
  lemma SwapSettledReals(s: seq<real>, k: int, w: int)
    requires 0 <= w < k < |s| && SettledAbove(s, k)
    requires (forall p :: 0 <= p < w ==> s[p] <= s[w]) && s[w] > s[w + 1]
    ensures var s' := s[w := s[w + 1]][w + 1 := s[w]];
      SettledAbove(s', k) && forall p :: 0 <= p <= w ==> s'[p] <= s'[w + 1]
  {
  }

  /** The bubble sort of smoothHvvp on the first n values of temp. */
  method BubbleSort(temp: array<real>, n: int)
    requires 2 <= n <= temp.Length
    modifies temp
    ensures temp[..n] == SortReals(old(temp[..n]))
    ensures temp[n..] == old(temp[n..])
  {
    var k := n - 1;
    while k > 0
      invariant 0 <= k < n
      invariant multiset(temp[..n]) == multiset(old(temp[..n])) && temp[n..] == old(temp[n..])
      invariant SettledAbove(temp[..n], k)
    {
      BubblePass(temp, n, k);
      k := k - 1;
    }
    SortRealsSorted(old(temp[..n]));
    SortedUnique(temp[..n], SortReals(old(temp[..n])));
  }

  /** Entries whose keys and partners are the first n values of two arrays. */
  ghost predicate Holds(t1: array<real>, t2: array<real>, e: seq<Entry>, n: int)
    reads t1, t2
    requires 0 <= n <= t1.Length && n <= t2.Length
  {
    |e| == n && forall p :: 0 <= p < n ==> e[p].key == t1[p] && e[p].partner == t2[p]
  }

  /**
   * The entries above k are in their final places, and among the first k + 1
   * equal keys still stand in the order of their levels.
   */
  ghost predicate LexSettledAbove(e: seq<Entry>, k: int)
  {
    (forall p, q :: 0 <= k < p < q < |e| ==> LexLess(e[p], e[q])) &&
    (forall p, q :: 0 <= p <= k < q < |e| ==> LexLess(e[p], e[q])) &&
    (forall p, q :: 0 <= p < q <= k && q < |e| && e[p].key == e[q].key ==> e[p].level < e[q].level)
  }

  /** One pass of the inner loop over pairs; only unequal neighbours are exchanged. */
  method BubblePassPairs(t1: array<real>, t2: array<real>, n: int, k: int, ghost e0: seq<Entry>)
    returns (ghost e: seq<Entry>)
    requires t1 != t2 && 0 < k < n <= t1.Length && n <= t2.Length
    requires Holds(t1, t2, e0, n) && LexSettledAbove(e0, k)
    modifies t1, t2
    ensures Holds(t1, t2, e, n) && multiset(e) == multiset(e0) && LexSettledAbove(e, k - 1)
  {
    e := e0;
    var w := 0;
    while w < k
      invariant 0 <= w <= k
      invariant Holds(t1, t2, e, n) && multiset(e) == multiset(e0) && LexSettledAbove(e, k)
      invariant forall p :: 0 <= p < w ==> LexLess(e[p], e[w])
    {
      e := BubbleStepPairs(t1, t2, n, k, w, e);
      w := w + 1;
    }
  }

  /** One comparison of the inner loop over pairs. */
  method BubbleStepPairs(t1: array<real>, t2: array<real>, n: int, k: int, w: int, ghost e0: seq<Entry>)
    returns (ghost e: seq<Entry>)
    requires t1 != t2 && 0 <= w < k < n <= t1.Length && n <= t2.Length
    requires Holds(t1, t2, e0, n) && LexSettledAbove(e0, k)
    requires forall p :: 0 <= p < w ==> LexLess(e0[p], e0[w])
    modifies t1, t2
    ensures Holds(t1, t2, e, n) && multiset(e) == multiset(e0) && LexSettledAbove(e, k)
    ensures forall p :: 0 <= p <= w ==> LexLess(e[p], e[w + 1])
  {
    e := e0;
    if t1[w] > t1[w + 1] {
      SwapSettled(e, k, w);
      e := e[w := e[w + 1]][w + 1 := e[w]];
      t1[w], t1[w + 1] := t1[w + 1], t1[w];
      t2[w], t2[w + 1] := t2[w + 1], t2[w];
    } else {
      KeepSettled(e, k, w);
    }
  }

  /** Exchanging neighbours whose keys are out of order keeps the pass's invariant. */
  lemma SwapSettled(e: seq<Entry>, k: int, w: int)
    requires 0 <= w < k < |e| && LexSettledAbove(e, k)
    requires (forall p :: 0 <= p < w ==> LexLess(e[p], e[w])) && e[w].key > e[w + 1].key
    ensures var e' := e[w := e[w + 1]][w + 1 := e[w]];
      multiset(e') == multiset(e) && LexSettledAbove(e', k) &&
      forall p :: 0 <= p <= w ==> LexLess(e'[p], e'[w + 1])
  {
    SwapKeepsMultiset(e, w, |e|);
    assert e[..|e|] == e;
    var e' := e[w := e[w + 1]][w + 1 := e[w]];
    assert e'[..|e|] == e';
  }

  /** Neighbours already in key order: the larger is the greatest of the first w + 2 entries. */
  lemma KeepSettled(e: seq<Entry>, k: int, w: int)
    requires 0 <= w < k < |e| && LexSettledAbove(e, k)
    requires (forall p :: 0 <= p < w ==> LexLess(e[p], e[w])) && e[w].key <= e[w + 1].key
    ensures forall p :: 0 <= p <= w ==> LexLess(e[p], e[w + 1])
  {
    assert LexLess(e[w], e[w + 1]);
  }

  /**
   * The bubble sort of smoothHvvpVmSin: the pairs are ordered by their first
   * value, each second value moving with its first; as only unequal
   * neighbours are exchanged, equal first values keep their level order.
   */
  method BubbleSortPairs(t1: array<real>, t2: array<real>, n: int, ghost e0: seq<Entry>) returns (ghost e: seq<Entry>)
    requires t1 != t2 && 2 <= n <= t1.Length && n <= t2.Length
    requires Holds(t1, t2, e0, n)
    requires forall p, q :: 0 <= p < q < n ==> e0[p].level < e0[q].level
    modifies t1, t2
    ensures Holds(t1, t2, e, n) && e == SortLex(e0)
  {
    e := e0;
    var k := n - 1;
    while k > 0
      invariant 0 <= k < n
      invariant Holds(t1, t2, e, n) && multiset(e) == multiset(e0) && LexSettledAbove(e, k)
    {
      e := BubblePassPairs(t1, t2, n, k, e);
      k := k - 1;
    }
    assert DistinctLevels(e0);
    SortLexSorted(e0);
    LexSortedUnique(e, SortLex(e0));
  }

  /** The non-missing values of data[i1..i2], bottom up, gathered into temp. */
  method CollectValues(data: array<real>, i1: int, i2: int, temp: array<real>) returns (numPoints: int)
    requires 0 <= i1 <= i2 < data.Length && i2 - i1 < temp.Length && data != temp
    modifies temp
    ensures 0 <= numPoints <= i2 - i1 + 1
    ensures temp[..numPoints] == ValuesIn(data[..], i1, i2)
  {
    numPoints := 0;
    var j := i1;
    while j <= i2
      invariant i1 <= j <= i2 + 1 && 0 <= numPoints <= j - i1
      invariant temp[..numPoints] == ValuesIn(data[..], i1, j - 1)
    {
      ghost var before := temp[..numPoints];
      if data[j] != VelNull {
        temp[numPoints] := data[j];
        assert temp[..numPoints + 1] == before + [data[j]];
        numPoints := numPoints + 1;
      }
      j := j + 1;
    }
  }

  /** The (vm_sin, var) pairs of levels i1..i2 whose vm_sin is not missing, gathered into temp1 and temp2. */
  method CollectPairs(data1: array<real>, data2: array<real>, i1: int, i2: int, temp1: array<real>, temp2: array<real>)
    returns (numPoints: int)
    requires data1.Length == data2.Length && 0 <= i1 <= i2 < data1.Length
    requires i2 - i1 < temp1.Length && i2 - i1 < temp2.Length
    requires temp1 != temp2 && data1 != temp1 && data1 != temp2 && data2 != temp1 && data2 != temp2
    modifies temp1, temp2
    ensures 0 <= numPoints <= i2 - i1 + 1
    ensures Holds(temp1, temp2, PairWindow(data1[..], data2[..], i1, i2), numPoints)
  {
    ghost var d1, d2 := data1[..], data2[..];
    numPoints := 0;
    var j := i1;
    while j <= i2
      invariant i1 <= j <= i2 + 1 && 0 <= numPoints <= j - i1
      invariant Holds(temp1, temp2, PairWindow(d1, d2, i1, j - 1), numPoints)
    {
      ghost var w := PairWindow(d1, d2, i1, j - 1);
      assert PairWindow(d1, d2, i1, j) == w + (if Valued(d1[j]) then [Entry(d1[j], d2[j], j)] else []);
      if data1[j] != VelNull {
        temp1[numPoints] := data1[j];
        temp2[numPoints] := data2[j];
        numPoints := numPoints + 1;
      }
      j := j + 1;
    }
  }

  lemma SortSingle(x: real)
    ensures SortReals([x]) == [x]
  {
    assert [x][1..] == [];
  }

  lemma SortLexSingle(e: Entry)
    ensures DistinctLevels([e]) && SortLex([e]) == [e]
  {
    assert [e][1..] == [];
  }

  lemma SmoothAtMedian(d: seq<real>, i: int)
    requires 0 <= i < |d| && d[i] > -90.0
    ensures |Window(d, i)| >= 1 && SmoothAt(d, i) == d[i := Median(SortReals(Window(d, i)))]
  {
    WindowHasLevel(d, i);
  }

  lemma SmoothPairAtMedian(d1: seq<real>, d2: seq<real>, i: int)
    requires |d1| == |d2| && 0 <= i < |d1| && d1[i] > -90.0
    ensures var s := SortLex(PairWindowAt(d1, d2, i));
      |s| >= 1 && SmoothPairAt(d1, d2, i) == (d1[i := Median(Keys(s))], d2[i := Median(Partners(s))])
  {
    var w := PairWindowAt(d1, d2, i);
    PairWindowNonEmpty(d1, d2, i);
    var s := SortLex(w);
  }

  /** The middle value of the first n sorted values, or the mean of the two middle ones. */
  method MiddleOf(temp: array<real>, n: int) returns (m: real)
    requires 1 <= n <= temp.Length
    ensures m == Median(temp[..n])
  {
    if n > 1 {
      var mid := n / 2;
      if n % 2 != 0 {
        m := temp[mid];
      } else {
        m := (temp[mid] + temp[mid - 1]) / 2.0;
      }
    } else {
      m := temp[0];
    }
  }

  /** The window's non-missing values around a level above -90, gathered into temp and sorted. */
  method SortedWindow(data: array<real>, i: int, temp: array<real>) returns (numPoints: int)
    requires data.Length == temp.Length == Levels && data != temp && 0 <= i < Levels
    requires data[i] > -90.0
    modifies temp
    ensures 1 <= numPoints <= temp.Length
    ensures temp[..numPoints] == SortReals(Window(data[..], i))
  {
    var igrid := 3 / 2;
    var i1 := i - igrid;
    var i2 := i + igrid;
    if i1 < 0 {
      i1 := 0;
    }
    if i2 >= Levels {
      i2 := Levels - 1;
    }
    numPoints := CollectValues(data, i1, i2, temp);
    WindowHasLevel(data[..], i);
    SortValues(temp, numPoints);
  }

  /** The sort step of smoothHvvp: more than one value is bubble sorted, a single value is left as it is. */
  method SortValues(temp: array<real>, n: int)
    requires 1 <= n <= temp.Length
    modifies temp
    ensures temp[..n] == SortReals(old(temp[..n]))
  {
    if n > 1 {
      BubbleSort(temp, n);
    } else {
      SortSingle(temp[0]);
      assert temp[..1] == [temp[0]];
    }
  }

  /** The visit of level i by smoothHvvp, with temp as the work array. */
  method SmoothLevel(data: array<real>, i: int, temp: array<real>)
    requires data.Length == temp.Length == Levels && data != temp && 0 <= i < Levels
    modifies data, temp
    ensures data[..] == SmoothAt(old(data[..]), i)
  {
    ghost var d := data[..];
    if data[i] > -90.0 {
      var numPoints := SortedWindow(data, i, temp);
      var m := MiddleOf(temp, numPoints);
      data[i] := m;
      SmoothAtMedian(d, i);
    }
  }

  /** smoothHvvp: each level above -90, bottom up, replaced by its window's median. */
  method SmoothHvvp(data: array<real>)
    requires data.Length == Levels
    modifies data
    ensures data[..] == Smooth(old(data[..]))
  {
    var temp := new real[Levels];
    var i := 0;
    while i < Levels
      invariant 0 <= i <= Levels
      invariant SmoothFrom(data[..], i) == Smooth(old(data[..]))
    {
      SmoothLevel(data, i, temp);
      i := i + 1;
    }
  }

  /** The window's pairs around a level whose vm_sin is above -90, gathered into temp1 and temp2 and sorted. */
  method SortedPairWindow(data1: array<real>, data2: array<real>, i: int, temp1: array<real>, temp2: array<real>)
    returns (numPoints: int, ghost s: seq<Entry>)
    requires data1.Length == data2.Length == temp1.Length == temp2.Length == Levels && 0 <= i < Levels
    requires data1 != data2 && temp1 != temp2 && data1 != temp1 && data1 != temp2 && data2 != temp1 && data2 != temp2
    requires data1[i] > -90.0
    modifies temp1, temp2
    ensures 1 <= numPoints <= Levels && |s| == numPoints
    ensures temp1[..numPoints] == Keys(s) && temp2[..numPoints] == Partners(s)
    ensures s == SortLex(PairWindowAt(data1[..], data2[..], i))
  {
    var igrid := 3 / 2;
    var i1 := i - igrid;
    var i2 := i + igrid;
    if i1 < 0 {
      i1 := 0;
    }
    if i2 >= Levels {
      i2 := Levels - 1;
    }
    ghost var d1, d2 := data1[..], data2[..];
    assert i1 == WindowLo(i) && i2 == WindowHi(i, |d1|);
    numPoints := CollectPairs(data1, data2, i1, i2, temp1, temp2);
    PairWindowNonEmpty(d1, d2, i);
    s := SortPairs(temp1, temp2, numPoints, PairWindowAt(d1, d2, i));
  }

  /** The sort step of smoothHvvpVmSin: more than one pair is bubble sorted, a single pair is left as it is. */
  method SortPairs(t1: array<real>, t2: array<real>, n: int, ghost w: seq<Entry>) returns (ghost s: seq<Entry>)
    requires t1 != t2 && 1 <= n <= t1.Length && n <= t2.Length
    requires Holds(t1, t2, w, n) && forall p, q :: 0 <= p < q < n ==> w[p].level < w[q].level
    modifies t1, t2
    ensures |s| == n && s == SortLex(w)
    ensures t1[..n] == Keys(s) && t2[..n] == Partners(s)
  {
    if n > 1 {
      s := BubbleSortPairs(t1, t2, n, w);
    } else {
      SortLexSingle(w[0]);
      assert w == [w[0]];
      s := w;
    }
    assert t1[..n] == Keys(s) && t2[..n] == Partners(s);
  }

  /** The visit of level i by smoothHvvpVmSin, with temp1 and temp2 as the work arrays. */
  method SmoothPairLevel(data1: array<real>, data2: array<real>, i: int, temp1: array<real>, temp2: array<real>)
    requires data1.Length == data2.Length == temp1.Length == temp2.Length == Levels && 0 <= i < Levels
    requires data1 != data2 && temp1 != temp2 && data1 != temp1 && data1 != temp2 && data2 != temp1 && data2 != temp2
    modifies data1, data2, temp1, temp2
    ensures (data1[..], data2[..]) == SmoothPairAt(old(data1[..]), old(data2[..]), i)
  {
    ghost var d1, d2 := data1[..], data2[..];
    if data1[i] > -90.0 {
      var numPoints, s := SortedPairWindow(data1, data2, i, temp1, temp2);
      var m1 := MiddleOf(temp1, numPoints);
      var m2 := MiddleOf(temp2, numPoints);
      data1[i] := m1;
      data2[i] := m2;
      SmoothPairAtMedian(d1, d2, i);
    }
  }

  /** smoothHvvpVmSin: the vm_sin profile smoothed with each var moved together with its vm_sin. */
  method SmoothHvvpVmSin(data1: array<real>, data2: array<real>)
    requires data1.Length == Levels && data2.Length == Levels && data1 != data2
    modifies data1, data2
    ensures (data1[..], data2[..]) == SmoothPairs(old(data1[..]), old(data2[..]))
  {
    var temp1 := new real[Levels];
    var temp2 := new real[Levels];
    var i := 0;
    while i < Levels
      invariant 0 <= i <= Levels
      invariant SmoothPairsFrom(data1[..], data2[..], i) == SmoothPairs(old(data1[..]), old(data2[..]))
    {
      SmoothPairLevel(data1, data2, i, temp1, temp2);
      i := i + 1;
    }
  }
}
