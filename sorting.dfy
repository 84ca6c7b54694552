/**
 * Reference sorts and the median, used to specify the HVVP smoothers: an
 * insertion sort of numbers, and an insertion sort of (key, partner) entries
 * ordered by key and, among equal keys, by the level they came from.
 */
module Sorting {

  predicate Sorted(s: seq<real>)
  {
    forall i, j :: 0 <= i < j < |s| ==> s[i] <= s[j]
  }

  /** Insertion of one number: in front of the first number not below it. */
  function InsertReal(x: real, s: seq<real>): (r: seq<real>)
    ensures |r| == |s| + 1
  {
    if s == [] || x <= s[0] then [x] + s else [s[0]] + InsertReal(x, s[1..])
  }

  /** Inserting into a sorted sequence keeps it sorted and adds exactly the number. */
  lemma {:induction false} InsertRealSorted(x: real, s: seq<real>)
    requires Sorted(s)
    ensures Sorted(InsertReal(x, s)) && multiset(InsertReal(x, s)) == multiset(s) + multiset{x}
  {
    if s != [] && !(x <= s[0]) {
      assert s == [s[0]] + s[1..];
      InsertRealSorted(x, s[1..]);
      InsertRealStep(x, s[0], s[1..], InsertReal(x, s[1..]));
    }
  }

  /** Putting the first number back in front of the rest with x inserted. */
  lemma InsertRealStep(x: real, a: real, t: seq<real>, rest: seq<real>)
    requires Sorted([a] + t) && a < x
    requires Sorted(rest) && multiset(rest) == multiset(t) + multiset{x}
    ensures Sorted([a] + rest) && multiset([a] + rest) == multiset([a] + t) + multiset{x}
  {
    HeadBelowRest(a, t);
    forall k | 0 <= k < |rest| ensures a <= rest[k] {
      assert rest[k] in multiset(rest);
      if rest[k] != x {
        assert rest[k] in multiset(t);
      }
    }
    ConsSorted(a, rest);
  }

  /** The first of a sorted sequence is no greater than any of the rest. */
  lemma HeadBelowRest(a: real, t: seq<real>)
    requires Sorted([a] + t)
    ensures forall y :: y in multiset(t) ==> a <= y
  {
    forall y | y in multiset(t) ensures a <= y {
      var u := [a] + t;
      var m :| 0 <= m < |t| && t[m] == y;
      assert u[0] == a && u[m + 1] == y;
    }
  }

  /** A number no greater than any of a sorted sequence can go in front. */
  lemma ConsSorted(a: real, t: seq<real>)
    requires Sorted(t) && forall k :: 0 <= k < |t| ==> a <= t[k]
    ensures Sorted([a] + t)
  {
    var r := [a] + t;
    forall i, j | 0 <= i < j < |r| ensures r[i] <= r[j] {
      assert r[j] == t[j - 1];
      if i > 0 {
        assert r[i] == t[i - 1];
      }
    }
  }

  /** The numbers in ascending order, by insertion. */
  function SortReals(s: seq<real>): (r: seq<real>)
    ensures |r| == |s|
  {
    if s == [] then [] else InsertReal(s[0], SortReals(s[1..]))
  }

  /** Sorting yields a sorted arrangement of the same numbers. */
  lemma {:induction false} SortRealsSorted(s: seq<real>)
    ensures Sorted(SortReals(s)) && multiset(SortReals(s)) == multiset(s)
  {
    if s != [] {
      assert s == [s[0]] + s[1..];
      SortRealsSorted(s[1..]);
      InsertRealSorted(s[0], SortReals(s[1..]));
    }
  }

  /** A sorted arrangement of given numbers is unique. */
  lemma {:induction false} SortedUnique(a: seq<real>, b: seq<real>)
    requires Sorted(a) && Sorted(b) && multiset(a) == multiset(b)
    ensures a == b
  {
    if a == [] {
      assert |b| == |multiset(b)| == 0;
    } else {
      assert |b| == |multiset(b)| == |multiset(a)| == |a|;
      assert a[0] in multiset(b) && b[0] in multiset(a);
      var i :| 0 <= i < |b| && b[i] == a[0];
      var j :| 0 <= j < |a| && a[j] == b[0];
      assert b[0] <= b[i] && a[0] <= a[j];
      DropFirst(a, b);
      SortedUnique(a[1..], b[1..]);
    }
  }

  /** Equal first elements leave equal multisets behind. */
  lemma DropFirst<T>(a: seq<T>, b: seq<T>)
    requires |a| > 0 && |b| > 0 && a[0] == b[0] && multiset(a) == multiset(b)
    ensures multiset(a[1..]) == multiset(b[1..])
  {
    assert a == [a[0]] + a[1..] && b == [b[0]] + b[1..];
    assert multiset(a) == multiset{a[0]} + multiset(a[1..]);
    assert multiset(b) == multiset{b[0]} + multiset(b[1..]);
    assert multiset(a[1..]) == multiset(a) - multiset{a[0]};
    assert multiset(b[1..]) == multiset(b) - multiset{b[0]};
  }

  /** The middle value, or the mean of the two middle values, of a sorted sequence. */
  function Median(s: seq<real>): real
    requires |s| >= 1
  {
    var mid := |s| / 2;
    if |s| % 2 != 0 then s[mid] else (s[mid] + s[mid - 1]) / 2.0
  }

  /** The median of sorted values lies between the least and the greatest of them. */
  lemma MedianBounds(s: seq<real>)
    requires |s| >= 1 && Sorted(s)
    ensures s[0] <= Median(s) <= s[|s| - 1]
  {
  }

  /** A value with its partner and the level it was read from. */
  datatype Entry = Entry(key: real, partner: real, level: int)

  /** Order by key; among equal keys, the lower level first. */
  predicate LexLess(a: Entry, b: Entry)
  {
    a.key < b.key || (a.key == b.key && a.level < b.level)
  }

  predicate LexSorted(s: seq<Entry>)
  {
    forall i, j :: 0 <= i < j < |s| ==> LexLess(s[i], s[j])
  }

  predicate DistinctLevels(s: seq<Entry>)
  {
    forall i, j :: 0 <= i < j < |s| ==> s[i].level != s[j].level
  }

  /** Insertion of one entry: in front of the first entry it is ordered before. */
  function InsertLex(e: Entry, s: seq<Entry>): (r: seq<Entry>)
    ensures |r| == |s| + 1
  {
    if s == [] || LexLess(e, s[0]) then [e] + s else [s[0]] + InsertLex(e, s[1..])
  }

  /** Inserting an entry of a new level keeps the order and adds exactly the entry. */
  lemma {:induction false} InsertLexSorted(e: Entry, s: seq<Entry>)
    requires LexSorted(s) && forall x :: x in s ==> x.level != e.level
    ensures LexSorted(InsertLex(e, s)) && multiset(InsertLex(e, s)) == multiset(s) + multiset{e}
  {
    if s != [] && !LexLess(e, s[0]) {
      assert s == [s[0]] + s[1..];
      assert LexLess(s[0], e);
      InsertLexSorted(e, s[1..]);
      var rest := InsertLex(e, s[1..]);
      forall k | 0 <= k < |rest| ensures LexLess(s[0], rest[k]) {
        assert rest[k] in multiset(rest);
      }
      ConsLexSorted(s[0], rest);
    }
  }

  /** An entry ordered before all of an ordered sequence can go in front. */
  lemma ConsLexSorted(a: Entry, t: seq<Entry>)
    requires LexSorted(t) && forall k :: 0 <= k < |t| ==> LexLess(a, t[k])
    ensures LexSorted([a] + t)
  {
    var r := [a] + t;
    forall i, j | 0 <= i < j < |r| ensures LexLess(r[i], r[j]) {
      assert r[j] == t[j - 1];
      if i > 0 {
        assert r[i] == t[i - 1];
      }
    }
  }

  /** The entries ordered by key and level, by insertion. */
  function SortLex(s: seq<Entry>): (r: seq<Entry>)
    ensures |r| == |s|
  {
    if s == [] then [] else InsertLex(s[0], SortLex(s[1..]))
  }

  /** Sorting entries of distinct levels yields an ordered arrangement of the same entries. */
  lemma {:induction false} SortLexSorted(s: seq<Entry>)
    requires DistinctLevels(s)
    ensures LexSorted(SortLex(s)) && multiset(SortLex(s)) == multiset(s)
  {
    if s != [] {
      assert s == [s[0]] + s[1..];
      SortLexSorted(s[1..]);
      var rest := SortLex(s[1..]);
      forall x | x in rest ensures x.level != s[0].level {
        assert x in multiset(s[1..]);
      }
      InsertLexSorted(s[0], rest);
    }
  }

  /** An arrangement of given entries ordered by key and level is unique. */
  lemma {:induction false} LexSortedUnique(a: seq<Entry>, b: seq<Entry>)
    requires LexSorted(a) && LexSorted(b) && multiset(a) == multiset(b)
    ensures a == b
  {
    if a == [] {
      assert |b| == |multiset(b)| == 0;
    } else {
      assert |b| == |multiset(b)| == |multiset(a)| == |a|;
      assert a[0] in multiset(b) && b[0] in multiset(a);
      var i :| 0 <= i < |b| && b[i] == a[0];
      var j :| 0 <= j < |a| && a[j] == b[0];
      if a[0] != b[0] {
        assert false;
      }
      DropFirst(a, b);
      LexSortedUnique(a[1..], b[1..]);
    }
  }

  function Keys(s: seq<Entry>): (r: seq<real>)
    ensures |r| == |s| && forall i :: 0 <= i < |s| ==> r[i] == s[i].key
  {
    seq(|s|, i requires 0 <= i < |s| => s[i].key)
  }

  function Partners(s: seq<Entry>): (r: seq<real>)
    ensures |r| == |s| && forall i :: 0 <= i < |s| ==> r[i] == s[i].partner
  {
    seq(|s|, i requires 0 <= i < |s| => s[i].partner)
  }

  lemma KeysSorted(s: seq<Entry>)
    requires LexSorted(s)
    ensures Sorted(Keys(s))
  {
    var ks := Keys(s);
    forall i, j | 0 <= i < j < |ks| ensures ks[i] <= ks[j] {
      assert LexLess(s[i], s[j]);
    }
  }

  /** Keys distribute over putting an entry in front. */
  lemma KeysCons(x: Entry, s: seq<Entry>)
    ensures Keys([x] + s) == [x.key] + Keys(s)
  {
    assert Keys([x] + s)[1..] == Keys(s);
  }

  /** A number no greater than the first of a sorted sequence goes in front. */
  lemma InsertInFront(x: real, s: seq<real>)
    requires Sorted(s) && (s == [] || x <= s[0])
    ensures InsertReal(x, s) == [x] + s
  {
  }

  /** Inserting into a sorted sequence with a known first number. */
  lemma InsertRealCons(x: real, a: real, t: seq<real>)
    requires Sorted([a] + t) && a <= x
    ensures Sorted(t)
    ensures InsertReal(x, [a] + t) == [a] + InsertReal(x, t)
  {
    var u := [a] + t;
    assert u[1..] == t;
    forall i, j | 0 <= i < j < |t| ensures t[i] <= t[j] {
      assert t[i] == u[i + 1] && t[j] == u[j + 1];
    }
    if x == a {
      if t != [] {
        assert u[0] <= u[1];
      }
      InsertInFront(x, t);
    }
  }

  /** An entry ordered before the first goes in front, and so does its key. */
  lemma KeysOfInsertFront(e: Entry, s: seq<Entry>)
    requires Sorted(Keys(s)) && (s == [] || LexLess(e, s[0]))
    ensures Keys(InsertLex(e, s)) == InsertReal(e.key, Keys(s))
  {
    KeysCons(e, s);
    InsertInFront(e.key, Keys(s));
  }

  /** An entry ordered after the first goes into the rest, and its key after the first key. */
  lemma KeysOfInsertLater(e: Entry, s: seq<Entry>)
    requires Sorted(Keys(s)) && s != [] && !LexLess(e, s[0])
    requires Keys(InsertLex(e, s[1..])) == InsertReal(e.key, Keys(s[1..]))
    ensures Keys(InsertLex(e, s)) == InsertReal(e.key, Keys(s))
  {
    assert s == [s[0]] + s[1..];
    KeysCons(s[0], s[1..]);
    KeysCons(s[0], InsertLex(e, s[1..]));
    InsertRealCons(e.key, s[0].key, Keys(s[1..]));
  }

  /**
   * Inserting an entry places its key where inserting the key alone would:
   * the levels only break ties between equal keys.
   */
  lemma {:induction false} KeysOfInsertLex(e: Entry, s: seq<Entry>)
    requires Sorted(Keys(s))
    ensures Keys(InsertLex(e, s)) == InsertReal(e.key, Keys(s))
  {
    if s == [] || LexLess(e, s[0]) {
      KeysOfInsertFront(e, s);
    } else {
      KeysTail(s);
      KeysOfInsertLex(e, s[1..]);
      KeysOfInsertLater(e, s);
    }
  }

  /** The keys of the rest are the rest of the keys. */
  lemma KeysTail(s: seq<Entry>)
    requires s != [] && Sorted(Keys(s))
    ensures Keys(s[1..]) == Keys(s)[1..] && Sorted(Keys(s[1..]))
  {
  }

  /** The keys of the entries in key-and-level order are the keys in ascending order. */
  lemma {:induction false} KeysOfSortLex(s: seq<Entry>)
    ensures Keys(SortLex(s)) == SortReals(Keys(s))
  {
    if s != [] {
      KeysOfSortLex(s[1..]);
      var rest := SortLex(s[1..]);
      var ks := Keys(s);
      assert ks[1..] == Keys(s[1..]);
      SortRealsSorted(ks[1..]);
      KeysOfInsertLex(s[0], rest);
    }
  }
}
