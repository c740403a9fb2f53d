/** Small sequence helpers shared by the model: an Option type, a stable filter,
    the minimum of a list, a sorted copy (Python's `sorted`) and rank counts. */
module Util {

  datatype Option<T> = None | Some(value: T)

  /** The elements of `s` that satisfy `keep`, in their original order
      (a list comprehension with an `if` clause). */
  function Filter<T>(s: seq<T>, keep: T -> bool): (r: seq<T>)
    decreases |s|
  {
    if s == [] then []
    else
      var init := Filter(s[..|s| - 1], keep);
      if keep(s[|s| - 1]) then init + [s[|s| - 1]] else init
  }

  /** The filter keeps exactly the elements that pass, and no others. */
  lemma {:induction false} FilterMembers<T>(s: seq<T>, keep: T -> bool)
    ensures |Filter(s, keep)| <= |s|
    ensures forall x :: x in Filter(s, keep) ==> x in s && keep(x)
    ensures forall i :: 0 <= i < |s| && keep(s[i]) ==> s[i] in Filter(s, keep)
    decreases |s|
  {
    if s != [] {
      var init := s[..|s| - 1];
      FilterMembers(init, keep);
      assert s == init + [s[|s| - 1]];
    }
  }

  /** Filtering a list extended by one element. */
  lemma FilterSnoc<T>(s: seq<T>, x: T, keep: T -> bool)
    ensures Filter(s + [x], keep) == Filter(s, keep) + (if keep(x) then [x] else [])
  {
    assert (s + [x])[..|s + [x]| - 1] == s;
  }

  /** Filtering distributes over concatenation. */
  lemma {:induction false} FilterAppend<T>(a: seq<T>, b: seq<T>, keep: T -> bool)
    ensures Filter(a + b, keep) == Filter(a, keep) + Filter(b, keep)
    decreases |b|
  {
    if b == [] {
      assert a + b == a;
    } else {
      var b' := b[..|b| - 1];
      assert (a + b)[..|a + b| - 1] == a + b';
      assert (a + b)[|a + b| - 1] == b[|b| - 1];
      FilterAppend(a, b', keep);
    }
  }

  /** A filter that keeps everything is the identity. */
  lemma {:induction false} FilterAll<T>(s: seq<T>, keep: T -> bool)
    requires forall i :: 0 <= i < |s| ==> keep(s[i])
    ensures Filter(s, keep) == s
    decreases |s|
  {
    if s != [] {
      FilterAll(s[..|s| - 1], keep);
      assert s == s[..|s| - 1] + [s[|s| - 1]];
    }
  }

  /** A prefix one element longer is the shorter prefix and that element. */
  lemma PrefixSnoc<T>(s: seq<T>, i: nat)
    requires i < |s|
    ensures s[..i + 1] == s[..i] + [s[i]]
  {
  }

  /** Taking out the element at `j` splits a list around it and removes one
      copy of that element. */
  lemma SplitAt<T>(q: seq<T>, j: nat)
    requires j < |q|
    ensures q == q[..j] + [q[j]] + q[j + 1..]
    ensures multiset(q[..j] + q[j + 1..]) == multiset(q) - multiset{q[j]}
  {
    assert q == q[..j] + [q[j]] + q[j + 1..];
  }

  /** The last element of a list holding the same elements as `q` occurs in `q`. */
  lemma LastOccurs<T>(p: seq<T>, q: seq<T>) returns (j: nat)
    requires |p| > 0 && multiset(p) == multiset(q)
    ensures j < |q| && q[j] == p[|p| - 1]
    ensures multiset(p[..|p| - 1]) == multiset(q) - multiset{q[j]}
  {
    assert p == p[..|p| - 1] + [p[|p| - 1]];
    assert p[|p| - 1] in multiset(q);
    j :| 0 <= j < |q| && q[j] == p[|p| - 1];
  }

  /** The lists `f` gives for the elements of `s`, concatenated in order (a
      nested list comprehension). */
  function FlatMap<T, U>(s: seq<T>, f: T -> seq<U>): (r: seq<U>)
    decreases |s|
  {
    if s == [] then [] else FlatMap(s[..|s| - 1], f) + f(s[|s| - 1])
  }

  lemma {:induction false} FlatMapAppend<T, U>(a: seq<T>, b: seq<T>, f: T -> seq<U>)
    ensures FlatMap(a + b, f) == FlatMap(a, f) + FlatMap(b, f)
    decreases |b|
  {
    if b == [] {
      assert a + b == a;
    } else {
      var b' := b[..|b| - 1];
      assert (a + b)[..|a + b| - 1] == a + b';
      assert (a + b)[|a + b| - 1] == b[|b| - 1];
      FlatMapAppend(a, b', f);
    }
  }

  /** Reordering the elements does not change which values the concatenation
      holds, counted with multiplicity. */
  lemma {:induction false} FlatMapPermutation<T, U>(p: seq<T>, q: seq<T>, f: T -> seq<U>)
    requires multiset(p) == multiset(q)
    ensures multiset(FlatMap(p, f)) == multiset(FlatMap(q, f))
    decreases |p|
  {
    if p == [] {
      assert |q| == |multiset(q)| == 0;
    } else {
      var init := p[..|p| - 1];
      var last := p[|p| - 1];
      var j := LastOccurs(p, q);
      SplitAt(q, j);
      var rest := q[..j] + q[j + 1..];
      FlatMapPermutation(init, rest, f);
      FlatMapAppend(q[..j] + [last], q[j + 1..], f);
      FlatMapAppend(q[..j], [last], f);
      FlatMapAppend(q[..j], q[j + 1..], f);
      assert [last][..0] == [];
    }
  }

  /** Python's `min` over a non-empty list. */
  function Min(s: seq<real>): (r: real)
    requires |s| > 0
    ensures r in s
    ensures forall x :: x in s ==> r <= x
  {
    if |s| == 1 then s[0]
    else
      var m := Min(s[1..]);
      assert s == [s[0]] + s[1..];
      if s[0] <= m then s[0] else m
  }

  function Smaller(a: int, b: int): (r: int) {
    if a < b then a else b
  }

  predicate Sorted(s: seq<real>) {
    forall i, j :: 0 <= i < j < |s| ==> s[i] <= s[j]
  }

  /** Inserts `x` into a sorted list at its place. */
  function Insert(x: real, s: seq<real>): (r: seq<real>)
    requires Sorted(s)
    ensures Sorted(r)
    ensures multiset(r) == multiset(s) + multiset{x}
  {
    if s == [] || x <= s[0] then
      ConsSorted(x, s);
      [x] + s
    else
      SortedTail(s);
      var rest := Insert(x, s[1..]);
      AllAbove(s[0], s[1..], rest, x);
      ConsSorted(s[0], rest);
      [s[0]] + rest
  }

  /** Putting an element in front of a sorted list whose elements are all at
      least that element keeps it sorted. */
  lemma ConsSorted(x: real, s: seq<real>)
    requires Sorted(s) && forall i :: 0 <= i < |s| ==> x <= s[i]
    ensures Sorted([x] + s)
    ensures multiset([x] + s) == multiset{x} + multiset(s)
  {
  }

  /** A list whose elements are those of `tail` plus `x` stays at or above `lo`
      when `tail` and `x` do. */
  lemma AllAbove(lo: real, tail: seq<real>, rest: seq<real>, x: real)
    requires forall i :: 0 <= i < |tail| ==> lo <= tail[i]
    requires lo <= x
    requires multiset(rest) == multiset(tail) + multiset{x}
    ensures forall i :: 0 <= i < |rest| ==> lo <= rest[i]
  {
    forall i | 0 <= i < |rest|
      ensures lo <= rest[i]
    {
      assert rest[i] in multiset(rest);
      if rest[i] != x {
        assert rest[i] in multiset(tail);
      }
    }
  }

  /** Python's `sorted` on a list of numbers: an ascending permutation. */
  function SortedCopy(s: seq<real>): (r: seq<real>)
    ensures Sorted(r)
    ensures multiset(r) == multiset(s)
  {
    if s == [] then []
    else
      assert s == [s[0]] + s[1..];
      Insert(s[0], SortedCopy(s[1..]))
  }

  /** How many elements of `s` are strictly below `v`. */
  function CountBelow(s: seq<real>, v: real): (r: nat) {
    if s == [] then 0 else (if s[0] < v then 1 else 0) + CountBelow(s[1..], v)
  }

  /** How many elements of `s` are at most `v`. */
  function CountAtMost(s: seq<real>, v: real): (r: nat) {
    if s == [] then 0 else (if s[0] <= v then 1 else 0) + CountAtMost(s[1..], v)
  }

  lemma {:induction false} CountsInsert(x: real, s: seq<real>, v: real)
    requires Sorted(s)
    ensures CountBelow(Insert(x, s), v) == CountBelow(s, v) + (if x < v then 1 else 0)
    ensures CountAtMost(Insert(x, s), v) == CountAtMost(s, v) + (if x <= v then 1 else 0)
  {
    if s == [] || x <= s[0] {
      assert ([x] + s)[1..] == s;
    } else {
      CountsInsert(x, s[1..], v);
      assert ([s[0]] + Insert(x, s[1..]))[1..] == Insert(x, s[1..]);
    }
  }

  /** Sorting does not change how many elements lie below or at a value. */
  lemma {:induction false} CountsSortedCopy(s: seq<real>, v: real)
    ensures CountBelow(SortedCopy(s), v) == CountBelow(s, v)
    ensures CountAtMost(SortedCopy(s), v) == CountAtMost(s, v)
  {
    if s != [] {
      CountsSortedCopy(s[1..], v);
      CountsInsert(s[0], SortedCopy(s[1..]), v);
    }
  }

  lemma {:induction false} NoneBelow(s: seq<real>, v: real)
    requires forall i :: 0 <= i < |s| ==> v <= s[i]
    ensures CountBelow(s, v) == 0
  {
    if s != [] {
      NoneBelow(s[1..], v);
    }
  }

  /** In a sorted list the element at index k has at most k elements strictly
      below it and at least k + 1 elements at or below it: it is the (k+1)-th smallest. */
  lemma {:induction false} SortedRank(t: seq<real>, k: nat)
    requires Sorted(t) && k < |t|
    ensures CountBelow(t, t[k]) <= k
    ensures k < CountAtMost(t, t[k])
  {
    if k == 0 {
      NoneBelow(t, t[0]);
    } else {
      SortedRank(t[1..], k - 1);
      assert t[1..][k - 1] == t[k];
    }
  }

  /** The head of a sorted list is at most every element it holds. */
  lemma SortedHeadLeast(a: seq<real>, x: real)
    requires Sorted(a) && x in multiset(a)
    ensures a[0] <= x
  {
    var i :| 0 <= i < |a| && a[i] == x;
  }

  /** Dropping the head of a sorted list keeps it sorted, removes one copy of
      the head from its elements, and leaves only elements at or above the head. */
  lemma SortedTail(a: seq<real>)
    requires |a| > 0 && Sorted(a)
    ensures Sorted(a[1..])
    ensures multiset(a[1..]) == multiset(a) - multiset{a[0]}
    ensures forall i :: 0 <= i < |a[1..]| ==> a[0] <= a[1..][i]
  {
    assert a == [a[0]] + a[1..];
  }

  lemma SameHeadAndTail(a: seq<real>, b: seq<real>)
    requires |a| > 0 && |b| > 0 && a[0] == b[0] && a[1..] == b[1..]
    ensures a == b
  {
    assert a == [a[0]] + a[1..];
    assert b == [b[0]] + b[1..];
  }

  /** Two sorted lists holding the same elements are equal. */
  lemma {:induction false} SortedUnique(a: seq<real>, b: seq<real>)
    requires Sorted(a) && Sorted(b)
    requires multiset(a) == multiset(b)
    ensures a == b
    decreases |a|
  {
    if a == [] {
      assert |b| == |multiset(b)| == 0;
    } else {
      assert |b| == |multiset(b)| == |multiset(a)| == |a|;
      assert a[0] == b[0] by {
        SortedHeadLeast(a, b[0]);
        SortedHeadLeast(b, a[0]);
      }
      assert Sorted(a[1..]) && Sorted(b[1..]) && multiset(a[1..]) == multiset(b[1..]) by {
        SortedTail(a);
        SortedTail(b);
      }
      SortedUnique(a[1..], b[1..]);
      SameHeadAndTail(a, b);
    }
  }
}
