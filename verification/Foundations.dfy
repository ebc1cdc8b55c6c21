/** Sequence, set and option vocabulary shared by the other modules. */
module Foundations {
  datatype Option<+T> = None | Some(value: T)

  newtype Byte = x: int | 0 <= x < 256
  type Bytes = seq<Byte>

  // ---- keys of the Bolt database ----

  const MAX_KEY_BYTES := 32768

  /** A put under any other key fails; a string stands for its bytes. */
  predicate StorableKey(key: string) {
    0 < |key| <= MAX_KEY_BYTES
  }

  // ---- keeping the elements that satisfy a test, in order ----

  function Filter<T>(keep: T -> bool, s: seq<T>): seq<T> {
    if s == [] then []
    else if keep(s[|s| - 1]) then Filter(keep, s[..|s| - 1]) + [s[|s| - 1]]
    else Filter(keep, s[..|s| - 1])
  }

  lemma {:induction false} FilterLength<T>(keep: T -> bool, s: seq<T>)
    ensures |Filter(keep, s)| <= |s|
    ensures |Filter(keep, s)| == |s| ==> Filter(keep, s) == s
  {
    if s != [] {
      FilterLength(keep, s[..|s| - 1]);
      assert s == s[..|s| - 1] + [s[|s| - 1]];
    }
  }

  lemma {:induction false} FilterMembers<T>(keep: T -> bool, s: seq<T>)
    ensures forall x :: x in Filter(keep, s) <==> x in s && keep(x)
  {
    if s != [] {
      FilterMembers(keep, s[..|s| - 1]);
      assert s == s[..|s| - 1] + [s[|s| - 1]];
    }
  }

  lemma {:induction false} FilterConcat<T>(keep: T -> bool, a: seq<T>, b: seq<T>)
    ensures Filter(keep, a + b) == Filter(keep, a) + Filter(keep, b)
  {
    if b == [] {
      assert a + b == a;
    } else {
      FilterConcat(keep, a, b[..|b| - 1]);
      assert (a + b)[..|a + b| - 1] == a + b[..|b| - 1];
    }
  }

  /** Filtering twice is filtering once with the stronger test. */
  lemma {:induction false} FilterFilter<T>(weak: T -> bool, strong: T -> bool, s: seq<T>)
    requires forall x :: x in s && strong(x) ==> weak(x)
    ensures Filter(strong, Filter(weak, s)) == Filter(strong, s)
  {
    if s != [] {
      var front, last := s[..|s| - 1], s[|s| - 1];
      assert s == front + [last];
      FilterFilter(weak, strong, front);
      FilterConcat(strong, Filter(weak, front), [last]);
    }
  }

  lemma {:induction false} FilterMultiset<T>(keep: T -> bool, s: seq<T>)
    ensures forall x :: multiset(Filter(keep, s))[x] == if keep(x) then multiset(s)[x] else 0
  {
    if s != [] {
      FilterMultiset(keep, s[..|s| - 1]);
      assert s == s[..|s| - 1] + [s[|s| - 1]];
    }
  }

  lemma {:induction false} FilterAll<T>(keep: T -> bool, s: seq<T>)
    requires forall x :: x in s ==> keep(x)
    ensures Filter(keep, s) == s
  {
    if s != [] {
      FilterAll(keep, s[..|s| - 1]);
      assert s == s[..|s| - 1] + [s[|s| - 1]];
    }
  }

  lemma {:induction false} FilterNone<T>(keep: T -> bool, s: seq<T>)
    requires forall x :: x in s ==> !keep(x)
    ensures Filter(keep, s) == []
  {
    if s != [] {
      FilterNone(keep, s[..|s| - 1]);
    }
  }

  // ---- cardinalities ----

  function Upto(n: nat): (s: set<nat>)
    ensures |s| == n
    ensures forall i: nat :: i in s <==> i < n
  {
    if n == 0 then {} else Upto(n - 1) + {n - 1}
  }

  lemma {:induction false} SubsetSize<T>(a: set<T>, b: set<T>)
    requires a <= b
    ensures |a| <= |b|
    ensures |a| == |b| ==> a == b
  {
    if a != {} {
      var x :| x in a;
      SubsetSize(a - {x}, b - {x});
    }
  }

  lemma {:induction false} PutSize<K, V>(m: map<K, V>, k: K, v: V)
    ensures |m[k := v]| == if k in m then |m| else |m| + 1
  {
    assert m[k := v].Keys == m.Keys + {k};
    if k in m { assert m.Keys + {k} == m.Keys; }
  }

  lemma {:induction false} TwiceCounted<T>(s: seq<T>, i: nat, j: nat)
    requires i < j < |s| && s[i] == s[j]
    ensures multiset(s)[s[i]] >= 2
  {
    assert s == s[..j] + [s[j]] + s[j + 1..];
    assert s[i] in s[..j] by { assert s[..j][i] == s[i]; }
  }

  lemma PutAfterMerge<K, V>(a: map<K, V>, b: map<K, V>, k: K, v: V)
    ensures (a + b)[k := v] == a + b[k := v]
  {
  }
}

/** Go's order on strings: lexicographic, a proper prefix first. */
module StringOrder {
  predicate Less(a: string, b: string) {
    b != [] && (a == [] || a[0] < b[0] || (a[0] == b[0] && Less(a[1..], b[1..])))
  }

  /** The smaller string ends first or has the smaller character where the two first differ. */
  lemma {:induction false} LessIff(a: string, b: string)
    ensures Less(a, b) <==> exists k :: 0 <= k <= |a| && k < |b| && a[..k] == b[..k] && (k == |a| || a[k] < b[k])
  {
    if b != [] && a != [] && a[0] == b[0] {
      LessIff(a[1..], b[1..]);
      if k :| 0 <= k <= |a[1..]| && k < |b[1..]| && a[1..][..k] == b[1..][..k] && (k == |a[1..]| || a[1..][k] < b[1..][k]) {
        assert a[..k + 1] == [a[0]] + a[1..][..k] && b[..k + 1] == [b[0]] + b[1..][..k];
      }
      if k :| 0 <= k <= |a| && k < |b| && a[..k] == b[..k] && (k == |a| || a[k] < b[k]) {
        assert k > 0;
        assert a[1..][..k - 1] == a[..k][1..] && b[1..][..k - 1] == b[..k][1..];
      }
    } else if b != [] && (a == [] || a[0] < b[0]) {
      assert a[..0] == b[..0];
    } else if k :| 0 <= k <= |a| && k < |b| && a[..k] == b[..k] && (k == |a| || a[k] < b[k]) {
      assert k > 0 ==> a[..k][0] == b[..k][0];
    }
  }

  lemma {:induction false} Irreflexive(a: string)
    ensures !Less(a, a)
  {
    if a != [] { Irreflexive(a[1..]); }
  }

  lemma {:induction false} Asymmetric(a: string, b: string)
    requires Less(a, b)
    ensures !Less(b, a)
  {
    if a != [] && a[0] == b[0] { Asymmetric(a[1..], b[1..]); }
  }

  lemma {:induction false} Connected(a: string, b: string)
    requires !Less(a, b) && !Less(b, a)
    ensures a == b
  {
    if a != [] && b != [] {
      Connected(a[1..], b[1..]);
      assert a == [a[0]] + a[1..] && b == [b[0]] + b[1..];
    }
  }

  lemma {:induction false} NegativelyTransitive(a: string, b: string, c: string)
    requires !Less(a, b) && !Less(b, c)
    ensures !Less(a, c)
  {
    if a != [] && b != [] && c != [] && a[0] == b[0] == c[0] {
      NegativelyTransitive(a[1..], b[1..], c[1..]);
    }
  }

  /** Less is a strict total order. */
  lemma {:induction false} Total()
    ensures forall a, b :: Less(a, b) ==> !Less(b, a)
    ensures forall a, b :: !Less(a, b) && !Less(b, a) ==> a == b
    ensures forall a, b, c :: !Less(a, b) && !Less(b, c) ==> !Less(a, c)
  {
    forall a, b | Less(a, b) ensures !Less(b, a) { Asymmetric(a, b); }
    forall a, b | !Less(a, b) && !Less(b, a) ensures a == b { Connected(a, b); }
    forall a, b, c | !Less(a, b) && !Less(b, c) ensures !Less(a, c) { NegativelyTransitive(a, b, c); }
  }
}

/**
 What Go's sort.Slice promises: some sorted permutation of its argument.
 It is not stable, so a result may depend on the algorithm exactly where
 two different elements compare equal.
 */
module Sorting {
  ghost predicate StrictWeakOrder<T(!new)>(less: (T, T) -> bool) {
    && (forall a, b :: less(a, b) ==> !less(b, a))
    && (forall a, b, c :: !less(a, b) && !less(b, c) ==> !less(a, c))
  }

  ghost predicate Sorted<T>(less: (T, T) -> bool, s: seq<T>) {
    forall i, j :: 0 <= i < j < |s| ==> !less(s[j], s[i])
  }

  ghost predicate SortedPermutation<T>(less: (T, T) -> bool, s: seq<T>, r: seq<T>) {
    Sorted(less, r) && multiset(r) == multiset(s)
  }

  /** No two different elements of s compare equal. */
  ghost predicate Separates<T>(less: (T, T) -> bool, s: seq<T>) {
    forall x, y :: x in s && y in s && !less(x, y) && !less(y, x) ==> x == y
  }

  function Insert<T>(less: (T, T) -> bool, x: T, s: seq<T>): seq<T> {
    if s == [] then [x]
    else if less(x, s[|s| - 1]) then Insert(less, x, s[..|s| - 1]) + [s[|s| - 1]]
    else s + [x]
  }

  function Sort<T>(less: (T, T) -> bool, s: seq<T>): seq<T> {
    if s == [] then [] else Insert(less, s[|s| - 1], Sort(less, s[..|s| - 1]))
  }

  lemma {:induction false} InsertPermutes<T>(less: (T, T) -> bool, x: T, s: seq<T>)
    ensures multiset(Insert(less, x, s)) == multiset(s) + multiset{x}
  {
    if s != [] {
      var front, last := s[..|s| - 1], s[|s| - 1];
      assert s == front + [last];
      InsertPermutes(less, x, front);
    }
  }

  lemma {:induction false} InsertSorted<T(!new)>(less: (T, T) -> bool, x: T, s: seq<T>)
    requires StrictWeakOrder(less) && Sorted(less, s)
    ensures Sorted(less, Insert(less, x, s))
  {
    if s != [] {
      var front, last := s[..|s| - 1], s[|s| - 1];
      if less(x, last) {
        InsertSorted(less, x, front);
        var r := Insert(less, x, front);
        InsertPermutes(less, x, front);
        forall i | 0 <= i < |r| ensures !less(last, r[i]) {
          assert r[i] in multiset(r);
          assert r[i] == x || r[i] in front;
        }
      } else {
        forall i | 0 <= i < |s| ensures !less(x, s[i]) {
          assert i < |s| - 1 ==> !less(last, s[i]);
        }
      }
    }
  }

  lemma {:induction false} SortSorts<T(!new)>(less: (T, T) -> bool, s: seq<T>)
    requires StrictWeakOrder(less)
    ensures SortedPermutation(less, s, Sort(less, s))
  {
    if s != [] {
      SortSorts(less, s[..|s| - 1]);
      InsertSorted(less, s[|s| - 1], Sort(less, s[..|s| - 1]));
      InsertPermutes(less, s[|s| - 1], Sort(less, s[..|s| - 1]));
      assert s == s[..|s| - 1] + [s[|s| - 1]];
    }
  }

  lemma {:induction false} PermutationMembers<T>(a: seq<T>, b: seq<T>)
    requires multiset(a) == multiset(b)
    ensures |a| == |b|
    ensures forall x :: x in a <==> x in b
  {
    assert |multiset(a)| == |multiset(b)|;
    forall x ensures x in a <==> x in b {
      assert x in multiset(a) <==> x in multiset(b);
    }
  }

  lemma {:induction false} SortedLastAgree<T(!new)>(less: (T, T) -> bool, a: seq<T>, b: seq<T>)
    requires Sorted(less, a) && Sorted(less, b) && Separates(less, a)
    requires |a| == |b| > 0 && forall x :: x in a <==> x in b
    ensures a[|a| - 1] == b[|b| - 1]
  {
    var n := |a| - 1;
    assert b[n] in a && a[n] in b;
    var i :| 0 <= i <= n && a[i] == b[n];
    var j :| 0 <= j <= n && b[j] == a[n];
    assert i == n || !less(a[n], a[i]);
    assert j == n || !less(b[n], b[j]);
  }

  lemma {:induction false} FrontMultiset<T>(s: seq<T>)
    requires s != []
    ensures multiset(s[..|s| - 1]) == multiset(s) - multiset{s[|s| - 1]}
  {
    assert s == s[..|s| - 1] + [s[|s| - 1]];
  }

  /** Where no two different elements tie, a list has one sorted permutation. */
  lemma {:induction false} SortedUnique<T(!new)>(less: (T, T) -> bool, a: seq<T>, b: seq<T>)
    requires Sorted(less, a) && Sorted(less, b) && multiset(a) == multiset(b)
    requires Separates(less, a)
    ensures a == b
  {
    PermutationMembers(a, b);
    if a != [] {
      SortedLastAgree(less, a, b);
      FrontMultiset(a);
      FrontMultiset(b);
      SortedUnique(less, a[..|a| - 1], b[..|b| - 1]);
      assert a == a[..|a| - 1] + [a[|a| - 1]] && b == b[..|b| - 1] + [b[|b| - 1]];
    }
  }

  /** Equal elements may trade places in a sorted list. */
  lemma SwapStaysSorted<T(!new)>(less: (T, T) -> bool, r: seq<T>, i: nat, j: nat)
    requires StrictWeakOrder(less) && Sorted(less, r)
    requires i < j < |r| && !less(r[i], r[j])
    ensures SortedPermutation(less, r, r[i := r[j]][j := r[i]])
  {
  }

  lemma {:induction false} SeparatedSortings<T(!new)>(less: (T, T) -> bool, s: seq<T>, a: seq<T>, b: seq<T>)
    requires Separates(less, s) && SortedPermutation(less, s, a) && SortedPermutation(less, s, b)
    ensures a == b
  {
    PermutationMembers(a, s);
    SortedUnique(less, a, b);
  }

  lemma {:induction false} TiedSortings<T(!new)>(less: (T, T) -> bool, s: seq<T>) returns (a: seq<T>, b: seq<T>)
    requires StrictWeakOrder(less) && !Separates(less, s)
    ensures SortedPermutation(less, s, a) && SortedPermutation(less, s, b) && a != b
  {
    var x, y :| x in s && y in s && !less(x, y) && !less(y, x) && x != y;
    a := Sort(less, s);
    SortSorts(less, s);
    PermutationMembers(a, s);
    assert x in a && y in a;
    var i :| 0 <= i < |a| && a[i] == x;
    var j :| 0 <= j < |a| && a[j] == y;
    var lo, hi := if i < j then i else j, if i < j then j else i;
    SwapStaysSorted(less, a, lo, hi);
    b := a[lo := a[hi]][hi := a[lo]];
    assert b[lo] != a[lo];
  }
}

/** The filter loops that reuse their argument's storage. */
module InPlace {
  import opened Foundations

  /** Keeps the elements that pass at the front of the array; the tail is left as it was. */
  method FilterInPlace<T>(values: array<T>, keep: T -> bool) returns (n: nat)
    modifies values
    ensures n == |Filter(keep, old(values[..]))| <= values.Length
    ensures values[..n] == Filter(keep, old(values[..]))
    ensures values[n..] == old(values[..])[n..]
  {
    n := 0;
    ghost var before := values[..];
    var i := 0;
    while i < values.Length
      invariant 0 <= n <= i <= values.Length
      invariant values[..n] == Filter(keep, before[..i])
      invariant values[n..] == before[n..]
    {
      assert before[..i + 1][..i] == before[..i];
      var value := values[i];
      assert value == values[n..][i - n] == before[i];
      if keep(value) {
        ghost var tail := values[n + 1..];
        values[n] := value;
        assert values[n + 1..] == tail == before[n + 1..];
        n := n + 1;
      }
      i := i + 1;
    }
    assert before[..i] == before;
  }
}
