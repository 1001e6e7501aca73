/**
 * Sequence operations that the visualisers rely on from the Java collections:
 * filtering a list, and `Vector.remove(Object)`, which removes the first element
 * that is equal (by `equals`, i.e. by content for sets) to its argument.
 */
module Seqs {

  /** The elements of `s` that satisfy `p`, in their order. */
  function Filter<T>(s: seq<T>, p: T -> bool): (r: seq<T>)
    ensures |r| <= |s|
  {
    if s == [] then []
    else
      Filter(s[..|s| - 1], p) + (if p(s[|s| - 1]) then [s[|s| - 1]] else [])
  }

  /** An element is kept exactly when it occurs in `s` and passes `p`. */
  lemma {:induction false} FilterMember<T>(s: seq<T>, p: T -> bool, x: T)
    ensures x in Filter(s, p) <==> x in s && p(x)
    decreases |s|
  {
    if s != [] {
      var n := |s| - 1;
      assert s == s[..n] + [s[n]];
      FilterMember(s[..n], p, x);
    }
  }

  lemma {:induction false} FilterConcat<T>(a: seq<T>, b: seq<T>, p: T -> bool)
    ensures Filter(a + b, p) == Filter(a, p) + Filter(b, p)
    decreases |b|
  {
    if b != [] {
      var n := |b| - 1;
      assert (a + b)[..|a + b| - 1] == a + b[..n];
      FilterConcat(a, b[..n], p);
    } else {
      assert a + b == a;
    }
  }

  /** Filtering keeps every copy of a kept element and no copy of the others. */
  lemma {:induction false} FilterCount<T>(s: seq<T>, p: T -> bool, x: T)
    ensures multiset(Filter(s, p))[x] == if p(x) then multiset(s)[x] else 0
    decreases |s|
  {
    if s != [] {
      var n := |s| - 1;
      assert s == s[..n] + [s[n]];
      FilterCount(s[..n], p, x);
    }
  }

  /** Filtering a sequence whose elements all pass gives the sequence back. */
  lemma {:induction false} FilterAllPass<T>(s: seq<T>, p: T -> bool)
    requires forall x :: x in s ==> p(x)
    ensures Filter(s, p) == s
    decreases |s|
  {
    if s != [] {
      var n := |s| - 1;
      assert s == s[..n] + [s[n]];
      FilterAllPass(s[..n], p);
    }
  }

  /** Filtering a sequence whose elements all fail gives the empty sequence. */
  lemma FilterNonePass<T>(s: seq<T>, p: T -> bool)
    requires forall x :: x in s ==> !p(x)
    ensures Filter(s, p) == []
  {
    if Filter(s, p) != [] {
      FilterMember(s, p, Filter(s, p)[0]);
    }
  }

  /** The lists `f(x)` of the elements `x` of `s`, one after the other. */
  function Concat<T, U>(s: seq<T>, f: T -> seq<U>): seq<U>
    decreases |s|
  {
    if s == [] then [] else Concat(s[..|s| - 1], f) + f(s[|s| - 1])
  }

  /** An element of the concatenation comes from the list of some element of `s`. */
  lemma {:induction false} ConcatMember<T, U>(s: seq<T>, f: T -> seq<U>, u: U)
    ensures u in Concat(s, f) <==> exists x :: x in s && u in f(x)
    decreases |s|
  {
    if s != [] {
      var n := |s| - 1;
      ConcatMember(s[..n], f, u);
      assert s == s[..n] + [s[n]];
      if exists x :: x in s && u in f(x) {
        var x :| x in s && u in f(x);
        if x != s[n] {
          assert x in s[..n];
        }
      }
    }
  }

  /** The position of an element of `s` whose list holds `u`. */
  lemma ConcatSource<T, U>(s: seq<T>, f: T -> seq<U>, u: U) returns (j: nat)
    requires u in Concat(s, f)
    ensures j < |s| && u in f(s[j])
  {
    ConcatMember(s, f, u);
    var x :| x in s && u in f(x);
    j :| 0 <= j < |s| && s[j] == x;
  }

  /** The list of each element of `s` is part of the concatenation. */
  lemma ConcatInclude<T, U>(s: seq<T>, f: T -> seq<U>, j: nat, u: U)
    requires j < |s| && u in f(s[j])
    ensures u in Concat(s, f)
  {
    ConcatMember(s, f, u);
  }

  lemma ConcatSnoc<T, U>(s: seq<T>, x: T, f: T -> seq<U>)
    ensures Concat(s + [x], f) == Concat(s, f) + f(x)
  {
    assert (s + [x])[..|s|] == s;
  }

  lemma FilterSnoc<T>(s: seq<T>, x: T, p: T -> bool)
    ensures Filter(s + [x], p) == Filter(s, p) + if p(x) then [x] else []
  {
    assert (s + [x])[..|s|] == s;
  }

  /** Appending is associative; stated once so that loops growing a log need not rediscover it. */
  lemma AppendAssoc<T>(a: seq<T>, b: seq<T>, c: seq<T>)
    ensures (a + b) + c == a + (b + c)
  {
  }

  /** A prefix one longer is the prefix and the next element. */
  lemma PrefixSnoc<T>(s: seq<T>, j: nat)
    requires j < |s|
    ensures s[..j + 1] == s[..j] + [s[j]]
  {
  }

  /** Multisets with the same count for every element are equal. */
  lemma SameCounts<T>(a: multiset<T>, b: multiset<T>)
    requires forall x :: a[x] == b[x]
    ensures a == b
  {
  }

  /** The position of the first occurrence of `x` in `s`. */
  function FirstIndex<T(==)>(s: seq<T>, x: T): (i: nat)
    requires x in s
    ensures i < |s| && s[i] == x && x !in s[..i]
  {
    if s[0] == x then 0
    else
      var i := 1 + FirstIndex(s[1..], x);
      assert s[..i] == [s[0]] + s[1..][..i - 1];
      i
  }

  /** `Vector.remove(Object)`: drop the first element equal to `x`, if there is one. */
  function RemoveFirst<T(==)>(s: seq<T>, x: T): (r: seq<T>)
    ensures multiset(r) == multiset(s) - multiset{x}
    ensures x !in s ==> r == s
  {
    if x in s then
      var i := FirstIndex(s, x);
      assert s == s[..i] + [x] + s[i + 1..];
      s[..i] + s[i + 1..]
    else s
  }

  /** Remove, one call after the other, the first element equal to each of `xs`. */
  function RemoveEach<T(==)>(s: seq<T>, xs: seq<T>): seq<T>
    decreases |xs|
  {
    if xs == [] then s else RemoveFirst(RemoveEach(s, xs[..|xs| - 1]), xs[|xs| - 1])
  }

  /** Removing elements one by one takes away exactly their multiset (as far as present). */
  lemma {:induction false} RemoveEachCount<T>(s: seq<T>, xs: seq<T>)
    ensures multiset(RemoveEach(s, xs)) == multiset(s) - multiset(xs)
    decreases |xs|
  {
    if xs != [] {
      var n := |xs| - 1;
      assert xs == xs[..n] + [xs[n]];
      RemoveEachCount(s, xs[..n]);
      var before := RemoveEach(s, xs[..n]);
      forall y
        ensures multiset(RemoveEach(s, xs))[y] == (multiset(s) - multiset(xs))[y]
      {
        assert multiset(RemoveEach(s, xs))[y] == (multiset(before) - multiset{xs[n]})[y];
      }
    }
  }

  /** Removing an element that fails `p` leaves the elements that pass `p` as they were. */
  lemma FilterRemoveFirst<T>(s: seq<T>, x: T, p: T -> bool)
    requires !p(x)
    ensures Filter(RemoveFirst(s, x), p) == Filter(s, p)
  {
    if x in s {
      var i := FirstIndex(s, x);
      var a, b := s[..i], s[i + 1..];
      assert s == (a + [x]) + b;
      FilterConcat(a + [x], b, p);
      FilterConcat(a, [x], p);
      FilterConcat(a, b, p);
      assert [x][..0] == [];
      assert Filter([x], p) == [];
    }
  }

  /** Removing elements that fail `p` leaves the elements that pass `p` as they were. */
  lemma {:induction false} FilterRemoveEach<T>(s: seq<T>, xs: seq<T>, p: T -> bool)
    requires forall x :: x in xs ==> !p(x)
    ensures Filter(RemoveEach(s, xs), p) == Filter(s, p)
    decreases |xs|
  {
    if xs != [] {
      var n := |xs| - 1;
      assert xs[n] in xs;
      FilterRemoveEach(s, xs[..n], p);
      FilterRemoveFirst(RemoveEach(s, xs[..n]), xs[n], p);
    }
  }
}
