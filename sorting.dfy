/** Python's `sorted`, `set` and list comprehensions, over any strict total order. */
module Sorting {
  import opened Orders

  /** No later element is smaller than an earlier one. */
  predicate Sorted<T>(s: seq<T>, lt: (T, T) -> bool) {
    forall i, j :: 0 <= i < j < |s| ==> !lt(s[j], s[i])
  }

  predicate StrictlySorted<T>(s: seq<T>, lt: (T, T) -> bool) {
    forall i, j :: 0 <= i < j < |s| ==> lt(s[i], s[j])
  }

  predicate Distinct<T(==)>(s: seq<T>) {
    forall i, j :: 0 <= i < j < |s| ==> s[i] != s[j]
  }

  /** The elements of a list: Python's `set(s)`. */
  function SetOf<T>(s: seq<T>): set<T> {
    set x | x in s
  }

  /** Places `x` before the first element that is not smaller than it. */
  function Insert<T(==)>(x: T, s: seq<T>, lt: (T, T) -> bool): (r: seq<T>)
    ensures multiset(r) == multiset(s) + multiset{x}
  {
    if |s| == 0 || !lt(s[0], x) then [x] + s
    else
      assert s == [s[0]] + s[1..];
      [s[0]] + Insert(x, s[1..], lt)
  }

  /** Insertion sort; the model of Python's `sorted`. */
  function Sort<T(==)>(s: seq<T>, lt: (T, T) -> bool): (r: seq<T>)
    ensures multiset(r) == multiset(s)
    ensures |r| == |s|
  {
    if |s| == 0 then []
    else
      assert s == [s[0]] + s[1..];
      Insert(s[0], Sort(s[1..], lt), lt)
  }

  lemma {:induction false} InsertSorted<T(!new)>(x: T, s: seq<T>, lt: (T, T) -> bool)
    requires StrictTotalOrder(lt)
    requires Sorted(s, lt)
    ensures Sorted(Insert(x, s, lt), lt)
  {
    if |s| == 0 || !lt(s[0], x) {
      forall j | 0 <= j < |s| ensures !lt(s[j], x) {
        if j > 0 && s[j] != s[0] {
          assert lt(s[0], s[j]);
        }
      }
    } else {
      var tail := Insert(x, s[1..], lt);
      InsertSorted(x, s[1..], lt);
      forall j | 0 <= j < |tail| ensures !lt(tail[j], s[0]) {
        assert tail[j] in multiset(tail);
        if tail[j] != x {
          assert tail[j] in multiset(s[1..]);
          var k :| 0 <= k < |s[1..]| && s[1..][k] == tail[j];
          assert s[k + 1] == tail[j];
        }
      }
    }
  }

  lemma {:induction false} SortSorted<T(!new)>(s: seq<T>, lt: (T, T) -> bool)
    requires StrictTotalOrder(lt)
    ensures Sorted(Sort(s, lt), lt)
  {
    if |s| != 0 {
      SortSorted(s[1..], lt);
      InsertSorted(s[0], Sort(s[1..], lt), lt);
    }
  }

  lemma SortedHeadsEqual<T(!new)>(a: seq<T>, b: seq<T>, lt: (T, T) -> bool)
    requires StrictTotalOrder(lt)
    requires Sorted(a, lt) && Sorted(b, lt)
    requires multiset(a) == multiset(b) && |a| != 0
    ensures |b| != 0 && a[0] == b[0]
  {
    assert a[0] in multiset(b);
    var j :| 0 <= j < |b| && b[j] == a[0];
    assert b[0] in multiset(a);
    var i :| 0 <= i < |a| && a[i] == b[0];
    if a[0] != b[0] {
      assert false;
    }
  }

  /** Under a strict total order a multiset has exactly one sorted arrangement. */
  lemma {:induction false} SortedUnique<T(!new)>(a: seq<T>, b: seq<T>, lt: (T, T) -> bool)
    requires StrictTotalOrder(lt)
    requires Sorted(a, lt) && Sorted(b, lt)
    requires multiset(a) == multiset(b)
    ensures a == b
  {
    if |a| == 0 {
      assert |b| == |multiset(b)| == 0;
    } else {
      SortedHeadsEqual(a, b, lt);
      SortedTail(a, lt);
      SortedTail(b, lt);
      SortedUnique(a[1..], b[1..], lt);
    }
  }

  /** Dropping the head keeps a list sorted and removes one copy of the head. */
  lemma SortedTail<T>(a: seq<T>, lt: (T, T) -> bool)
    requires Sorted(a, lt) && |a| != 0
    ensures Sorted(a[1..], lt)
    ensures a == [a[0]] + a[1..]
    ensures multiset(a[1..]) == multiset(a) - multiset{a[0]}
  {
    assert a == [a[0]] + a[1..];
  }

  /** `sorted` does not depend on the order of its input. */
  lemma SortPermutationInvariant<T(!new)>(s: seq<T>, t: seq<T>, lt: (T, T) -> bool)
    requires StrictTotalOrder(lt)
    requires multiset(s) == multiset(t)
    ensures Sort(s, lt) == Sort(t, lt)
  {
    SortSorted(s, lt);
    SortSorted(t, lt);
    SortedUnique(Sort(s, lt), Sort(t, lt), lt);
  }

  lemma {:induction false} DistinctMultiplicity<T>(s: seq<T>, x: T)
    requires Distinct(s)
    ensures multiset(s)[x] == if x in s then 1 else 0
  {
    if |s| != 0 {
      var n := |s| - 1;
      assert s == s[..n] + [s[n]];
      DistinctMultiplicity(s[..n], x);
      assert s[n] !in s[..n];
    }
  }

  lemma {:induction false} MultiplicityDistinct<T>(s: seq<T>)
    requires forall x :: multiset(s)[x] <= 1
    ensures Distinct(s)
  {
    forall i, j | 0 <= i < j < |s| ensures s[i] != s[j] {
      var prefix, rest := s[..j], s[j..];
      assert s == prefix + rest;
      assert multiset(s) == multiset(prefix) + multiset(rest);
      assert s[i] == prefix[i] && s[j] == rest[0];
      assert multiset(rest)[s[j]] >= 1;
      assert multiset(prefix)[s[i]] >= 1;
      assert multiset(s)[s[j]] <= 1;
    }
  }

  /** Two duplicate-free lists with the same elements are permutations of each other. */
  lemma SameElementsPermutation<T>(a: seq<T>, b: seq<T>)
    requires Distinct(a) && Distinct(b)
    requires forall x :: x in a <==> x in b
    ensures multiset(a) == multiset(b)
  {
    forall x ensures multiset(a)[x] == multiset(b)[x] {
      DistinctMultiplicity(a, x);
      DistinctMultiplicity(b, x);
    }
  }

  /** A duplicate-free list sorts strictly. */
  lemma SortDistinctStrict<T(!new)>(s: seq<T>, lt: (T, T) -> bool)
    requires StrictTotalOrder(lt)
    requires Distinct(s)
    ensures StrictlySorted(Sort(s, lt), lt) && Distinct(Sort(s, lt))
  {
    var r := Sort(s, lt);
    SortSorted(s, lt);
    forall x ensures multiset(r)[x] <= 1 {
      DistinctMultiplicity(s, x);
    }
    MultiplicityDistinct(r);
  }

  /** Keeps the first occurrence of every element. */
  function Dedup<T(==, !new)>(s: seq<T>): (r: seq<T>)
    ensures forall x :: x in r <==> x in s
    ensures Distinct(r)
  {
    if |s| == 0 then []
    else
      var n := |s| - 1;
      var prefix := Dedup(s[..n]);
      assert forall x :: x in s <==> x in s[..n] || x == s[n] by {
        assert s == s[..n] + [s[n]];
      }
      if s[n] in prefix then prefix else prefix + [s[n]]
  }

  /** Python's `sorted(set(s))`. */
  function SortedDistinct<T(==, !new)>(s: seq<T>, lt: (T, T) -> bool): seq<T> {
    Sort(Dedup(s), lt)
  }

  /** `sorted(set(s))` is strictly increasing, lists exactly the elements of `s`,
      has one entry per distinct element, and depends only on that set. */
  lemma SortedDistinctFacts<T(!new)>(s: seq<T>, lt: (T, T) -> bool)
    requires StrictTotalOrder(lt)
    ensures StrictlySorted(SortedDistinct(s, lt), lt)
    ensures forall x :: x in SortedDistinct(s, lt) <==> x in s
    ensures |SortedDistinct(s, lt)| == |SetOf(s)|
  {
    var r := SortedDistinct(s, lt);
    SortDistinctStrict(Dedup(s), lt);
    forall x ensures x in r <==> x in s {
      assert x in r <==> x in multiset(r);
    }
    DistinctCardinality(r);
    assert SetOf(r) == SetOf(s);
  }

  lemma SortedDistinctSameSet<T(!new)>(s: seq<T>, t: seq<T>, lt: (T, T) -> bool)
    requires StrictTotalOrder(lt)
    requires forall x :: x in s <==> x in t
    ensures SortedDistinct(s, lt) == SortedDistinct(t, lt)
  {
    SameElementsPermutation(Dedup(s), Dedup(t));
    SortPermutationInvariant(Dedup(s), Dedup(t), lt);
  }

  lemma {:induction false} DistinctCardinality<T>(s: seq<T>)
    requires Distinct(s)
    ensures |SetOf(s)| == |s|
  {
    if |s| != 0 {
      var n := |s| - 1;
      assert s == s[..n] + [s[n]];
      DistinctCardinality(s[..n]);
      assert SetOf(s) == SetOf(s[..n]) + {s[n]};
      assert s[n] !in SetOf(s[..n]);
    }
  }

  lemma {:induction false} DedupOfDistinct<T(!new)>(s: seq<T>)
    requires Distinct(s)
    ensures Dedup(s) == s
  {
    if |s| != 0 {
      var n := |s| - 1;
      assert Distinct(s[..n]);
      DedupOfDistinct(s[..n]);
      assert s[n] !in s[..n];
      assert s == s[..n] + [s[n]];
    }
  }

  /** `sorted(set(s))` of a strictly increasing list is the list itself. */
  lemma SortedDistinctOfIncreasing<T(!new)>(s: seq<T>, lt: (T, T) -> bool)
    requires StrictTotalOrder(lt) && StrictlySorted(s, lt)
    ensures SortedDistinct(s, lt) == s
  {
    assert Distinct(s);
    DedupOfDistinct(s);
    SortSorted(s, lt);
    SortedUnique(Sort(s, lt), s, lt);
  }

  /** In a strictly increasing list every value sits at one position only. */
  lemma StrictlySortedInjective<T(!new)>(s: seq<T>, lt: (T, T) -> bool)
    requires StrictTotalOrder(lt) && StrictlySorted(s, lt)
    ensures forall i, j :: 0 <= i < |s| && 0 <= j < |s| && s[i] == s[j] ==> i == j
  {
  }

  /** Python's `[f(x) for x in s]`. */
  function Map<A, B>(f: A -> B, s: seq<A>): (r: seq<B>)
    ensures |r| == |s|
    ensures forall i :: 0 <= i < |s| ==> r[i] == f(s[i])
  {
    if |s| == 0 then [] else [f(s[0])] + Map(f, s[1..])
  }

  /** Python's `[x for x in s if p(x)]`. */
  function Filter<A(!new)>(p: A -> bool, s: seq<A>): (r: seq<A>)
    ensures forall x :: x in r <==> x in s && p(x)
    ensures forall x :: multiset(r)[x] == if p(x) then multiset(s)[x] else 0
    ensures |r| <= |s|
  {
    if |s| == 0 then []
    else
      assert s == [s[0]] + s[1..];
      assert multiset(s) == multiset{s[0]} + multiset(s[1..]);
      assert forall x :: x in s <==> x == s[0] || x in s[1..];
      if p(s[0]) then [s[0]] + Filter(p, s[1..]) else Filter(p, s[1..])
  }

  lemma MapAppend<A, B>(f: A -> B, a: seq<A>, b: seq<A>)
    ensures Map(f, a + b) == Map(f, a) + Map(f, b)
  {
  }

  /** Mapping a permutation yields a permutation. */
  lemma {:induction false} MapPermutation<A, B>(f: A -> B, s: seq<A>, t: seq<A>)
    requires multiset(s) == multiset(t)
    ensures multiset(Map(f, s)) == multiset(Map(f, t))
  {
    if |s| == 0 {
      assert |t| == |multiset(t)| == 0;
    } else {
      assert s[0] in multiset(t);
      var j :| 0 <= j < |t| && t[j] == s[0];
      var rest := t[..j] + t[j + 1..];
      assert s == [s[0]] + s[1..];
      calc {
        multiset(Map(f, s));
        { MapCons(f, s[0], s[1..]); }
        multiset{f(s[0])} + multiset(Map(f, s[1..]));
        { RemovedPermutation(s, t, j); MapPermutation(f, s[1..], rest); }
        multiset{f(t[j])} + multiset(Map(f, rest));
        { MapRemove(f, t, j); }
        multiset(Map(f, t));
      }
    }
  }

  /** Taking out element `j` takes its image out of the mapped list. */
  lemma {:induction false} MapRemove<A, B>(f: A -> B, t: seq<A>, j: nat)
    requires j < |t|
    ensures multiset(Map(f, t)) == multiset{f(t[j])} + multiset(Map(f, t[..j] + t[j + 1..]))
  {
    var head, tail := t[0], t[1..];
    assert t == [head] + tail;
    if j == 0 {
      assert t[..j] + t[j + 1..] == tail;
      MapCons(f, head, tail);
    } else {
      var rest := tail[..j - 1] + tail[j..];
      assert t[..j] + t[j + 1..] == [head] + rest;
      calc {
        multiset(Map(f, t));
        { MapCons(f, head, tail); }
        multiset{f(head)} + multiset(Map(f, tail));
        { MapRemove(f, tail, j - 1); assert tail[j - 1] == t[j]; }
        multiset{f(head)} + (multiset{f(t[j])} + multiset(Map(f, rest)));
        { MultisetSwap(f(head), f(t[j]), multiset(Map(f, rest))); }
        multiset{f(t[j])} + (multiset{f(head)} + multiset(Map(f, rest)));
        { MapCons(f, head, rest); }
        multiset{f(t[j])} + multiset(Map(f, [head] + rest));
      }
    }
  }

  lemma MapCons<A, B>(f: A -> B, x: A, s: seq<A>)
    ensures Map(f, [x] + s) == [f(x)] + Map(f, s)
    ensures multiset(Map(f, [x] + s)) == multiset{f(x)} + multiset(Map(f, s))
  {
    assert ([x] + s)[1..] == s;
  }

  lemma MultisetSwap<T>(x: T, y: T, m: multiset<T>)
    ensures multiset{x} + (multiset{y} + m) == multiset{y} + (multiset{x} + m)
  {
  }

  lemma RemovedPermutation<T>(a: seq<T>, b: seq<T>, j: nat)
    requires multiset(a) == multiset(b) && |a| != 0 && j < |b| && b[j] == a[0]
    ensures multiset(a[1..]) == multiset(b[..j] + b[j + 1..])
  {
    assert b == b[..j] + [b[j]] + b[j + 1..];
    assert a == [a[0]] + a[1..];
    assert multiset(b) == multiset(b[..j]) + multiset{b[j]} + multiset(b[j + 1..]);
    assert multiset(a[1..]) == multiset(a) - multiset{a[0]};
    assert multiset(b[..j] + b[j + 1..]) == multiset(b[..j]) + multiset(b[j + 1..]);
  }
}
