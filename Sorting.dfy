/**
 * The column sort of the feedback table: the comparator `handleSort` hands to
 * `Array.prototype.sort`, a stable insertion sort (generic in the comparator)
 * that the in-place array sort is proved to compute, and the facts that make the
 * choice of algorithm irrelevant: every stable sort by this comparator yields
 * the same list.
 */
module Sorting {
  import opened Feedback

  datatype Order = Asc | Desc

  /**
   * The comparator `handleSort` passes to `sort`: a negative result puts `a`
   * first, a positive one puts `b` first. The record with the smaller key comes
   * first in ascending order and last in descending order; equal keys give 0.
   */
  function Compare(f: Field, o: Order, a: FeedbackRecord, b: FeedbackRecord): int {
    var x, y := FieldValue(f, a), FieldValue(f, b);
    if Less(x, y) then (if o == Asc then -1 else 1)
    else if Less(y, x) then (if o == Asc then 1 else -1)
    else 0
  }

  /** The comparator returns 0 exactly for records whose sort keys are equal. */
  lemma CompareZero(f: Field, o: Order, a: FeedbackRecord, b: FeedbackRecord)
    ensures Compare(f, o, a, b) == 0 <==> FieldValue(f, a) == FieldValue(f, b)
  {
    LessIrreflexive(FieldValue(f, a));
    LessTotal(FieldValue(f, a), FieldValue(f, b));
  }

  lemma CompareAntisymmetric(f: Field, o: Order, a: FeedbackRecord, b: FeedbackRecord)
    ensures Compare(f, o, a, b) == -Compare(f, o, b, a)
  {
    LessAsymmetric(FieldValue(f, a), FieldValue(f, b));
  }

  /** "Sorts no later than" is transitive. */
  lemma CompareTransitive(f: Field, o: Order, a: FeedbackRecord, b: FeedbackRecord, c: FeedbackRecord)
    requires Compare(f, o, a, b) <= 0 && Compare(f, o, b, c) <= 0
    ensures Compare(f, o, a, c) <= 0
  {
    var x, y, z := FieldValue(f, a), FieldValue(f, b), FieldValue(f, c);
    LessAsymmetric(x, y);
    LessAsymmetric(y, z);
    LessAsymmetric(x, z);
    LessTotal(x, y);
    LessTotal(y, z);
    LessTransitive(x, y, z);
    LessTransitive(z, y, x);
    LessTransitive(y, z, x);
    LessTransitive(z, x, y);
    LessTransitive(x, z, y);
    LessTransitive(y, x, z);
  }

  /** Descending order is ascending order with the arguments swapped. */
  lemma CompareFlip(f: Field, a: FeedbackRecord, b: FeedbackRecord)
    ensures Compare(f, Desc, a, b) == Compare(f, Asc, b, a)
  {
    LessAsymmetric(FieldValue(f, a), FieldValue(f, b));
  }

  /** The comparator as the function value passed to `sort`. */
  function KeyOrder(f: Field, o: Order): (cmp: (FeedbackRecord, FeedbackRecord) -> int)
    ensures forall a, b :: cmp(a, b) == Compare(f, o, a, b)
  {
    (a, b) => Compare(f, o, a, b)
  }

  // ---------------------------------------------------------------------------
  // Sorting by an arbitrary comparator
  // ---------------------------------------------------------------------------

  /** What `sort` expects of a comparator: antisymmetric, and "not after" is transitive. */
  ghost predicate IsComparator<T(!new)>(cmp: (T, T) -> int) {
    (forall a, b :: cmp(a, b) == -cmp(b, a)) &&
    (forall a, b, c :: cmp(a, b) <= 0 && cmp(b, c) <= 0 ==> cmp(a, c) <= 0)
  }

  lemma KeyOrderIsComparator(f: Field, o: Order)
    ensures IsComparator(KeyOrder(f, o))
  {
    var cmp := KeyOrder(f, o);
    forall a, b
      ensures cmp(a, b) == -cmp(b, a)
    {
      CompareAntisymmetric(f, o, a, b);
    }
    forall a, b, c | cmp(a, b) <= 0 && cmp(b, c) <= 0
      ensures cmp(a, c) <= 0
    {
      CompareTransitive(f, o, a, b, c);
    }
  }

  /** No element sorts after a later one. */
  ghost predicate Sorted<T>(s: seq<T>, cmp: (T, T) -> int) {
    forall i, j :: 0 <= i < j < |s| ==> cmp(s[i], s[j]) <= 0
  }

  /**
   * Insert `x` into `s` behind every element that does not sort after it,
   * scanning from the back.
   */
  function Insert<T>(s: seq<T>, x: T, cmp: (T, T) -> int): (r: seq<T>)
    ensures |r| == |s| + 1
    decreases |s|
  {
    if |s| == 0 || cmp(s[|s| - 1], x) <= 0 then s + [x]
    else Insert(s[..|s| - 1], x, cmp) + [s[|s| - 1]]
  }

  /** Insertion adds `x` and keeps every other element. */
  lemma {:induction false} InsertPermutes<T>(s: seq<T>, x: T, cmp: (T, T) -> int)
    ensures multiset(Insert(s, x, cmp)) == multiset(s) + multiset{x}
    decreases |s|
  {
    if |s| > 0 && cmp(s[|s| - 1], x) > 0 {
      InsertPermutes(s[..|s| - 1], x, cmp);
      assert s == s[..|s| - 1] + [s[|s| - 1]];
    }
  }

  /** Stable insertion sort: insert the elements one after another, in list order. */
  function SortedBy<T>(s: seq<T>, cmp: (T, T) -> int): (r: seq<T>)
    ensures |r| == |s|
    decreases |s|
  {
    if |s| == 0 then []
    else Insert(SortedBy(s[..|s| - 1], cmp), s[|s| - 1], cmp)
  }

  /** Sorting keeps every element, each as often as before. */
  lemma {:induction false} SortedByPermutes<T>(s: seq<T>, cmp: (T, T) -> int)
    ensures multiset(SortedBy(s, cmp)) == multiset(s)
    decreases |s|
  {
    if |s| > 0 {
      SortedByPermutes(s[..|s| - 1], cmp);
      InsertPermutes(SortedBy(s[..|s| - 1], cmp), s[|s| - 1], cmp);
      assert s == s[..|s| - 1] + [s[|s| - 1]];
    }
  }

  /** Appending an element that sorts no earlier than the last keeps a list sorted. */
  lemma AppendSorted<T(!new)>(s: seq<T>, x: T, cmp: (T, T) -> int)
    requires IsComparator(cmp) && Sorted(s, cmp)
    requires |s| == 0 || cmp(s[|s| - 1], x) <= 0
    ensures Sorted(s + [x], cmp)
  {
    var n := |s|;
    var r := s + [x];
    forall i, j | 0 <= i < j < |r|
      ensures cmp(r[i], r[j]) <= 0
    {
      if j == n && i < n - 1 {
        assert cmp(s[i], s[n - 1]) <= 0;
      }
    }
  }

  lemma {:induction false} InsertSorted<T(!new)>(s: seq<T>, x: T, cmp: (T, T) -> int)
    requires IsComparator(cmp) && Sorted(s, cmp)
    ensures Sorted(Insert(s, x, cmp), cmp)
    decreases |s|
  {
    var n := |s|;
    if n == 0 || cmp(s[n - 1], x) <= 0 {
      AppendSorted(s, x, cmp);
    } else {
      var init, last := s[..n - 1], s[n - 1];
      InsertSorted(init, x, cmp);
      InsertPermutes(init, x, cmp);
      var ins := Insert(init, x, cmp);
      forall k | 0 <= k < |ins|
        ensures cmp(ins[k], last) <= 0
      {
        assert ins[k] in multiset(ins);
        if ins[k] != x {
          assert ins[k] in init;
          var m :| 0 <= m < |init| && init[m] == ins[k];
          assert s[m] == ins[k];
        }
      }
      AppendLargest(ins, last, cmp);
    }
  }

  /** Appending an element that no element sorts after keeps a list sorted. */
  lemma AppendLargest<T>(s: seq<T>, x: T, cmp: (T, T) -> int)
    requires Sorted(s, cmp)
    requires forall k :: 0 <= k < |s| ==> cmp(s[k], x) <= 0
    ensures Sorted(s + [x], cmp)
  {
    var r := s + [x];
    forall i, j | 0 <= i < j < |r|
      ensures cmp(r[i], r[j]) <= 0
    {
      if j == |s| {
        assert r[i] == s[i];
      }
    }
  }

  lemma {:induction false} SortedBySorted<T(!new)>(s: seq<T>, cmp: (T, T) -> int)
    requires IsComparator(cmp)
    ensures Sorted(SortedBy(s, cmp), cmp)
    decreases |s|
  {
    if |s| > 0 {
      SortedBySorted(s[..|s| - 1], cmp);
      InsertSorted(SortedBy(s[..|s| - 1], cmp), s[|s| - 1], cmp);
    }
  }

  // ---------------------------------------------------------------------------
  // The in-place sort
  // ---------------------------------------------------------------------------

  /**
   * If every element of `p` from position `j` on sorts after `x` and the one
   * before does not, `x` is inserted at position `j`.
   */
  lemma {:induction false} InsertAtGap<T>(p: seq<T>, x: T, cmp: (T, T) -> int, j: nat)
    requires j <= |p|
    requires j == 0 || cmp(p[j - 1], x) <= 0
    requires forall k :: j <= k < |p| ==> cmp(p[k], x) > 0
    ensures Insert(p, x, cmp) == p[..j] + [x] + p[j..]
    decreases |p|
  {
    if j < |p| {
      var init := p[..|p| - 1];
      InsertAtGap(init, x, cmp, j);
      assert init[..j] == p[..j];
      assert init[j..] + [p[|p| - 1]] == p[j..];
    }
  }

  lemma SortedBySnoc<T>(s: seq<T>, i: nat, cmp: (T, T) -> int)
    requires i < |s|
    ensures SortedBy(s[..i + 1], cmp) == Insert(SortedBy(s[..i], cmp), s[i], cmp)
  {
    assert s[..i + 1][..i] == s[..i];
  }

  /**
   * Moves `a[i]` backwards past every element of the prefix `a[..i]` that
   * sorts after it.
   */
  method InsertInPlace<T>(a: array<T>, i: nat, cmp: (T, T) -> int)
    requires i < a.Length
    modifies a
    ensures a[..i + 1] == Insert(old(a[..i]), old(a[i]), cmp)
    ensures a[i + 1..] == old(a[i + 1..])
  {
    var x := a[i];
    ghost var pre := a[..i];
    var j := i;
    while j > 0 && cmp(a[j - 1], x) > 0
      invariant 0 <= j <= i
      invariant a[..j] == pre[..j]
      invariant a[j + 1..i + 1] == pre[j..i]
      invariant a[i + 1..] == old(a[i + 1..])
      invariant forall k :: j <= k < i ==> cmp(pre[k], x) > 0
    {
      a[j] := a[j - 1];
      j := j - 1;
    }
    a[j] := x;
    assert a[..i + 1] == pre[..j] + [x] + pre[j..i];
    InsertAtGap(pre, x, cmp, j);
  }

  /** Sorts `a` in place by insertion; the result is `SortedBy` of the old contents. */
  method SortInPlace<T>(a: array<T>, cmp: (T, T) -> int)
    modifies a
    ensures a[..] == SortedBy(old(a[..]), cmp)
  {
    ghost var input := a[..];
    var i := 0;
    while i < a.Length
      invariant 0 <= i <= a.Length
      invariant a[..i] == SortedBy(input[..i], cmp)
      invariant a[i..] == input[i..]
    {
      InsertInPlace(a, i, cmp);
      SortedBySnoc(input, i, cmp);
      assert a[i + 1..] == input[i + 1..];
      i := i + 1;
    }
    assert input[..a.Length] == input;
  }

  /** `[...rows].sort(cmp)`: sort a fresh copy of `rows` in place and return it. */
  method SortCopy<T>(rows: seq<T>, cmp: (T, T) -> int) returns (sorted: seq<T>)
    ensures sorted == SortedBy(rows, cmp)
  {
    var copy := new T[|rows|](i requires 0 <= i < |rows| => rows[i]);
    assert copy[..] == rows;
    SortInPlace(copy, cmp);
    sorted := copy[..];
  }

  // ---------------------------------------------------------------------------
  // Sorting by a column
  // ---------------------------------------------------------------------------

  /**
   * Sorted ascending means the keys never decrease; sorted descending means
   * they never increase.
   */
  lemma SortedMeaning(s: seq<FeedbackRecord>, f: Field)
    ensures Sorted(s, KeyOrder(f, Asc)) <==>
      forall i, j :: 0 <= i < j < |s| ==> !Less(FieldValue(f, s[j]), FieldValue(f, s[i]))
    ensures Sorted(s, KeyOrder(f, Desc)) <==>
      forall i, j :: 0 <= i < j < |s| ==> !Less(FieldValue(f, s[i]), FieldValue(f, s[j]))
  {
    forall i, j | 0 <= i < j < |s| {
      LessAsymmetric(FieldValue(f, s[i]), FieldValue(f, s[j]));
    }
  }

  /** Records with equal keys appear in `t` in the same relative order as in `s`. */
  ghost predicate Stable(t: seq<FeedbackRecord>, s: seq<FeedbackRecord>, f: Field) {
    forall v :: Filter(t, HasValue(f, v)) == Filter(s, HasValue(f, v))
  }

  /** Insertion never moves `x` past a record with the same key. */
  lemma {:induction false} InsertStable(s: seq<FeedbackRecord>, x: FeedbackRecord, f: Field, o: Order, v: Value)
    ensures Filter(Insert(s, x, KeyOrder(f, o)), HasValue(f, v)) == Filter(s + [x], HasValue(f, v))
    decreases |s|
  {
    var n := |s|;
    if n > 0 && Compare(f, o, s[n - 1], x) > 0 {
      var c := HasValue(f, v);
      var init, last := s[..n - 1], s[n - 1];
      CompareZero(f, o, last, x);
      InsertStable(init, x, f, o, v);
      FilterAppend(Insert(init, x, KeyOrder(f, o)), [last], c);
      FilterAppend(init, [x], c);
      FilterAppend(init, [last], c);
      FilterAppend(init + [last], [x], c);
      FilterAppend(init + [x], [last], c);
      assert s == init + [last];
    }
  }

  lemma {:induction false} SortedByStableAt(s: seq<FeedbackRecord>, f: Field, o: Order, v: Value)
    ensures Filter(SortedBy(s, KeyOrder(f, o)), HasValue(f, v)) == Filter(s, HasValue(f, v))
    decreases |s|
  {
    if |s| > 0 {
      var init, last := s[..|s| - 1], s[|s| - 1];
      SortedByStableAt(init, f, o, v);
      var sorted := SortedBy(init, KeyOrder(f, o));
      InsertStable(sorted, last, f, o, v);
      FilterSnoc(sorted, last, HasValue(f, v));
      FilterSnoc(init, last, HasValue(f, v));
      assert s == init + [last];
    }
  }

  /** Sorting by a column is stable. */
  lemma SortedByStable(s: seq<FeedbackRecord>, f: Field, o: Order)
    ensures Stable(SortedBy(s, KeyOrder(f, o)), s, f)
  {
    forall v {
      SortedByStableAt(s, f, o, v);
    }
  }

  /** Sorting by a column puts the records in key order and keeps each of them. */
  lemma SortedByColumn(s: seq<FeedbackRecord>, f: Field, o: Order)
    ensures Sorted(SortedBy(s, KeyOrder(f, o)), KeyOrder(f, o))
    ensures multiset(SortedBy(s, KeyOrder(f, o))) == multiset(s)
  {
    KeyOrderIsComparator(f, o);
    SortedBySorted(s, KeyOrder(f, o));
    SortedByPermutes(s, KeyOrder(f, o));
  }

  // ---------------------------------------------------------------------------
  // Every stable sort gives the same list
  // ---------------------------------------------------------------------------

  lemma SortedPrefix<T>(s: seq<T>, n: nat, cmp: (T, T) -> int)
    requires Sorted(s, cmp) && n <= |s|
    ensures Sorted(s[..n], cmp)
  {
  }

  /** Filtering a list with one more element at the end. */
  lemma FilterSnoc(s: seq<FeedbackRecord>, x: FeedbackRecord, c: Criterion)
    ensures Filter(s + [x], c) == Filter(s, c) + (if Holds(c, x) then [x] else [])
  {
    FilterAppend(s, [x], c);
    assert Filter([x], c) == (if Holds(c, x) then [x] else []) by {
      assert [x][1..] == [];
    }
  }

  /** Two lists that agree on every key class after the same last record agree before it. */
  lemma DropLastStable(s1: seq<FeedbackRecord>, s2: seq<FeedbackRecord>, x: FeedbackRecord, f: Field, w: Value)
    requires Filter(s1 + [x], HasValue(f, w)) == Filter(s2 + [x], HasValue(f, w))
    ensures Filter(s1, HasValue(f, w)) == Filter(s2, HasValue(f, w))
  {
    var c := HasValue(f, w);
    FilterSnoc(s1, x, c);
    FilterSnoc(s2, x, c);
    var p1, p2 := Filter(s1, c), Filter(s2, c);
    if Holds(c, x) {
      assert p1 == (p1 + [x])[..|p1|];
      assert p2 == (p2 + [x])[..|p2|];
    } else {
      assert p1 + [] == p1 && p2 + [] == p2;
    }
  }

  /**
   * In two sorted lists with the same elements, the last records have equal keys:
   * neither can sort before the other.
   */
  lemma LastKeysAgree(t1: seq<FeedbackRecord>, t2: seq<FeedbackRecord>, f: Field, o: Order)
    requires Sorted(t1, KeyOrder(f, o)) && Sorted(t2, KeyOrder(f, o))
    requires multiset(t1) == multiset(t2) && |t1| > 0
    ensures |t2| == |t1|
    ensures FieldValue(f, t1[|t1| - 1]) == FieldValue(f, t2[|t2| - 1])
  {
    assert |t1| == |multiset(t1)| == |multiset(t2)| == |t2|;
    var n := |t1| - 1;
    var x1, x2 := t1[n], t2[n];
    assert x1 in multiset(t2);
    var k2 :| 0 <= k2 < |t2| && t2[k2] == x1;
    assert x2 in multiset(t1);
    var k1 :| 0 <= k1 < |t1| && t1[k1] == x2;
    CompareZero(f, o, x1, x1);
    CompareZero(f, o, x2, x2);
    assert Compare(f, o, x1, x2) <= 0;
    assert Compare(f, o, x2, x1) <= 0;
    CompareAntisymmetric(f, o, x1, x2);
    CompareZero(f, o, x1, x2);
  }

  /** Two stable arrangements that end in the same record are stable without it. */
  lemma StableDropLast(t1: seq<FeedbackRecord>, t2: seq<FeedbackRecord>, f: Field)
    requires Stable(t1, t2, f)
    requires |t1| == |t2| > 0 && t1[|t1| - 1] == t2[|t2| - 1]
    ensures Stable(t1[..|t1| - 1], t2[..|t2| - 1], f)
  {
    var n := |t1| - 1;
    assert t1 == t1[..n] + [t1[n]] && t2 == t2[..n] + [t1[n]];
    forall w
      ensures Filter(t1[..n], HasValue(f, w)) == Filter(t2[..n], HasValue(f, w))
    {
      DropLastStable(t1[..n], t2[..n], t1[n], f, w);
    }
  }

  /** Two lists with the same elements and the same last element agree on the rest. */
  lemma MultisetDropLast<T>(t1: seq<T>, t2: seq<T>)
    requires multiset(t1) == multiset(t2)
    requires |t1| == |t2| > 0 && t1[|t1| - 1] == t2[|t2| - 1]
    ensures multiset(t1[..|t1| - 1]) == multiset(t2[..|t2| - 1])
  {
    var n := |t1| - 1;
    assert t1 == t1[..n] + [t1[n]] && t2 == t2[..n] + [t2[n]];
    assert multiset(t1[..n]) == multiset(t1) - multiset{t1[n]};
    assert multiset(t2[..n]) == multiset(t2) - multiset{t2[n]};
  }

  /** In two stable arrangements whose last records have equal keys, the last records coincide. */
  lemma LastRecordsAgree(t1: seq<FeedbackRecord>, t2: seq<FeedbackRecord>, f: Field)
    requires Stable(t1, t2, f)
    requires |t1| == |t2| > 0
    requires FieldValue(f, t1[|t1| - 1]) == FieldValue(f, t2[|t2| - 1])
    ensures t1[|t1| - 1] == t2[|t2| - 1]
  {
    var n := |t1| - 1;
    var x1, x2 := t1[n], t2[n];
    var init1, init2 := t1[..n], t2[..n];
    assert t1 == init1 + [x1] && t2 == init2 + [x2];
    var c := HasValue(f, FieldValue(f, x1));
    // The last record with this key is x1 in one list and x2 in the other.
    FilterSnoc(init1, x1, c);
    FilterSnoc(init2, x2, c);
    var p1, p2 := Filter(init1, c), Filter(init2, c);
    assert Filter(t1, c) == Filter(t2, c);
    assert p1 + [x1] == p2 + [x2];
    assert x1 == (p1 + [x1])[|p1|] == (p2 + [x2])[|p2|] == x2;
  }

  /**
   * Two sorted lists with the same elements and the same order among equal keys
   * are the same list.
   */
  lemma {:induction false} SortedStableUnique(t1: seq<FeedbackRecord>, t2: seq<FeedbackRecord>, f: Field, o: Order)
    requires Sorted(t1, KeyOrder(f, o)) && Sorted(t2, KeyOrder(f, o))
    requires multiset(t1) == multiset(t2)
    requires Stable(t1, t2, f)
    ensures t1 == t2
    decreases |t1|
  {
    if |t1| == 0 {
      assert |multiset(t2)| == 0;
    } else {
      LastKeysAgree(t1, t2, f, o);
      LastRecordsAgree(t1, t2, f);
      var n := |t1| - 1;
      var x := t1[n];
      var init1, init2 := t1[..n], t2[..n];
      assert t1 == init1 + [x] && t2 == init2 + [x];
      StableDropLast(t1, t2, f);
      MultisetDropLast(t1, t2);
      SortedPrefix(t1, n, KeyOrder(f, o));
      SortedPrefix(t2, n, KeyOrder(f, o));
      SortedStableUnique(init1, init2, f, o);
    }
  }

  /**
   * Any list that is sorted, a permutation of `s` and stable with respect to `s`
   * is the insertion sort of `s`: the stable `Array.prototype.sort` computes exactly it.
   */
  lemma SortedByCharacterized(s: seq<FeedbackRecord>, t: seq<FeedbackRecord>, f: Field, o: Order)
    requires Sorted(t, KeyOrder(f, o))
    requires multiset(t) == multiset(s)
    requires Stable(t, s, f)
    ensures t == SortedBy(s, KeyOrder(f, o))
  {
    var r := SortedBy(s, KeyOrder(f, o));
    SortedByColumn(s, f, o);
    SortedByStable(s, f, o);
    SortedStableUnique(t, r, f, o);
  }

  /** Sorting again by the same field forgets the earlier order completely. */
  lemma ResortForgetsEarlierOrder(s: seq<FeedbackRecord>, f: Field, o1: Order, o2: Order)
    ensures SortedBy(SortedBy(s, KeyOrder(f, o1)), KeyOrder(f, o2)) == SortedBy(s, KeyOrder(f, o2))
  {
    var a := SortedBy(s, KeyOrder(f, o1));
    var b := SortedBy(a, KeyOrder(f, o2));
    SortedByColumn(s, f, o1);
    SortedByColumn(a, f, o2);
    SortedByStable(s, f, o1);
    SortedByStable(a, f, o2);
    SortedByCharacterized(s, b, f, o2);
  }

  // ---------------------------------------------------------------------------
  // Reversal
  // ---------------------------------------------------------------------------

  function Reverse<T>(s: seq<T>): (r: seq<T>)
    ensures |r| == |s|
    ensures forall i :: 0 <= i < |s| ==> r[i] == s[|s| - 1 - i]
  {
    seq(|s|, i requires 0 <= i < |s| => s[|s| - 1 - i])
  }

  lemma ReverseCons<T>(x: T, s: seq<T>)
    ensures Reverse([x] + s) == Reverse(s) + [x]
  {
  }

  lemma {:induction false} ReverseMultiset<T>(s: seq<T>)
    ensures multiset(Reverse(s)) == multiset(s)
    decreases |s|
  {
    if s != [] {
      ReverseMultiset(s[1..]);
      ReverseCons(s[0], s[1..]);
      assert s == [s[0]] + s[1..];
    }
  }

  lemma {:induction false} FilterReverse(s: seq<FeedbackRecord>, c: Criterion)
    ensures Filter(Reverse(s), c) == Reverse(Filter(s, c))
    decreases |s|
  {
    if s != [] {
      FilterReverse(s[1..], c);
      ReverseCons(s[0], s[1..]);
      assert s == [s[0]] + s[1..];
      FilterAppend(Reverse(s[1..]), [s[0]], c);
      if Holds(c, s[0]) {
        ReverseCons(s[0], Filter(s[1..], c));
      }
    }
  }

  /** Reversing an ascending list gives a descending one. */
  lemma ReverseSortedDescending(a: seq<FeedbackRecord>, f: Field)
    requires Sorted(a, KeyOrder(f, Asc))
    ensures Sorted(Reverse(a), KeyOrder(f, Desc))
  {
    var t := Reverse(a);
    forall i, j | 0 <= i < j < |t|
      ensures Compare(f, Desc, t[i], t[j]) <= 0
    {
      CompareFlip(f, t[i], t[j]);
      assert t[j] == a[|a| - 1 - j] && t[i] == a[|a| - 1 - i];
    }
  }

  /** With at most one record per key, reversal keeps the order among equal keys. */
  lemma ReverseStableWhenKeysDistinct(a: seq<FeedbackRecord>, f: Field)
    requires forall v :: |Filter(a, HasValue(f, v))| <= 1
    ensures Stable(Reverse(a), a, f)
  {
    forall v
      ensures Filter(Reverse(a), HasValue(f, v)) == Filter(a, HasValue(f, v))
    {
      FilterReverse(a, HasValue(f, v));
      var p := Filter(a, HasValue(f, v));
      assert |p| <= 1;
      assert Reverse(p) == p;
    }
  }

  /**
   * With no two records sharing a key, sorting the ascending list descending
   * yields exactly its reverse.
   */
  lemma DescendingIsReverseWhenKeysDistinct(s: seq<FeedbackRecord>, f: Field)
    requires forall v :: |Filter(s, HasValue(f, v))| <= 1
    ensures SortedBy(SortedBy(s, KeyOrder(f, Asc)), KeyOrder(f, Desc)) == Reverse(SortedBy(s, KeyOrder(f, Asc)))
  {
    var a := SortedBy(s, KeyOrder(f, Asc));
    SortedByColumn(s, f, Asc);
    ReverseSortedDescending(a, f);
    ReverseMultiset(a);
    SortedByStable(s, f, Asc);
    assert forall v :: Filter(a, HasValue(f, v)) == Filter(s, HasValue(f, v));
    ReverseStableWhenKeysDistinct(a, f);
    SortedByCharacterized(a, Reverse(a), f, Desc);
  }
}
