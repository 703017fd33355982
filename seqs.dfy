/** Order-preserving sub-sequences and filters, the shape every query result takes. */
module Seqs {

  /** `a` can be obtained from `b` by deleting elements. */
  predicate IsSubseq<T(==)>(a: seq<T>, b: seq<T>)
    decreases |b|
  {
    if a == [] then true
    else if b == [] then false
    else (a[0] == b[0] && IsSubseq(a[1..], b[1..])) || IsSubseq(a, b[1..])
  }

  /** No element occurs twice. */
  predicate NoDuplicates<T(==)>(s: seq<T>)
  {
    forall i, j :: 0 <= i < j < |s| ==> s[i] != s[j]
  }

  /** The elements of `s` that satisfy `p`, in the order of `s`: a Python list comprehension with a condition. */
  function Filter<T(==,!new)>(s: seq<T>, p: T -> bool): (r: seq<T>)
    ensures |r| <= |s|
    ensures forall x :: x in r <==> x in s && p(x)
    ensures IsSubseq(r, s)
  {
    if s == [] then []
    else if p(s[0]) then [s[0]] + Filter(s[1..], p)
    else Filter(s[1..], p)
  }

  /** `s` is what filtering `u` by membership in `s` gives back. */
  predicate IsFilterOf<T(==,!new)>(s: seq<T>, u: seq<T>)
  {
    s == Filter(u, x => x in s)
  }

  lemma {:induction false} SubseqReflexive<T>(s: seq<T>)
    ensures IsSubseq(s, s)
  {
    if s != [] {
      SubseqReflexive(s[1..]);
    }
  }

  lemma {:induction false} SubseqMembers<T>(a: seq<T>, b: seq<T>)
    requires IsSubseq(a, b)
    ensures forall x :: x in a ==> x in b
  {
    if a != [] {
      if a[0] == b[0] && IsSubseq(a[1..], b[1..]) {
        SubseqMembers(a[1..], b[1..]);
        assert forall x :: x in a ==> x == a[0] || x in a[1..];
      } else {
        SubseqMembers(a, b[1..]);
      }
    }
  }

  lemma {:induction false} SubseqTransitive<T>(a: seq<T>, b: seq<T>, c: seq<T>)
    requires IsSubseq(a, b) && IsSubseq(b, c)
    ensures IsSubseq(a, c)
    decreases |c|
  {
    if a != [] {
      if b[0] == c[0] && IsSubseq(b[1..], c[1..]) {
        if a[0] == b[0] && IsSubseq(a[1..], b[1..]) {
          SubseqTransitive(a[1..], b[1..], c[1..]);
        } else {
          SubseqTransitive(a, b[1..], c[1..]);
        }
      } else {
        SubseqTransitive(a, b, c[1..]);
      }
    }
  }

  /** Filtering depends only on the predicate's values on the sequence's own elements. */
  lemma {:induction false} FilterCongruent<T(!new)>(s: seq<T>, p: T -> bool, q: T -> bool)
    requires forall x :: x in s ==> p(x) == q(x)
    ensures Filter(s, p) == Filter(s, q)
  {
    if s != [] {
      FilterCongruent(s[1..], p, q);
    }
  }

  lemma {:induction false} FilterAppend<T(!new)>(a: seq<T>, b: seq<T>, p: T -> bool)
    ensures Filter(a + b, p) == Filter(a, p) + Filter(b, p)
  {
    if a == [] {
      assert a + b == b;
    } else {
      assert (a + b)[1..] == a[1..] + b;
      FilterAppend(a[1..], b, p);
    }
  }

  /** The multiset of a non-empty sequence is its head and the multiset of its tail. */
  lemma MultisetOfCons<T>(s: seq<T>)
    requires s != []
    ensures multiset(s) == multiset{s[0]} + multiset(s[1..])
  {
    assert s == [s[0]] + s[1..];
  }

  /** Filtering keeps every occurrence of an element that satisfies `p` and none of one that does not. */
  lemma {:induction false} FilterCount<T(!new)>(s: seq<T>, p: T -> bool)
    ensures forall x :: multiset(Filter(s, p))[x] == if p(x) then multiset(s)[x] else 0
  {
    if s != [] {
      FilterCount(s[1..], p);
      assert s == [s[0]] + s[1..];
    }
  }

  lemma {:induction false} FilterNone<T(!new)>(s: seq<T>, p: T -> bool)
    requires forall x :: x in s ==> !p(x)
    ensures Filter(s, p) == []
  {
    if s != [] {
      FilterNone(s[1..], p);
    }
  }

  lemma {:induction false} FilterAll<T(!new)>(s: seq<T>, p: T -> bool)
    requires forall x :: x in s ==> p(x)
    ensures Filter(s, p) == s
  {
    if s != [] {
      FilterAll(s[1..], p);
    }
  }

  /** A sub-sequence of a duplicate-free sequence is determined by its members. */
  lemma {:induction false} SubseqIsFilter<T(!new)>(s: seq<T>, u: seq<T>)
    requires NoDuplicates(u) && IsSubseq(s, u)
    ensures IsFilterOf(s, u)
    decreases |u|
  {
    if u == [] {
    } else if s == [] {
      FilterNone(u, x => x in s);
    } else {
      assert NoDuplicates(u[1..]) by {
        forall i, j | 0 <= i < j < |u[1..]| ensures u[1..][i] != u[1..][j] {
          assert u[1..][i] == u[i + 1] && u[1..][j] == u[j + 1];
        }
      }
      assert u[0] !in u[1..] by {
        forall k | 0 <= k < |u[1..]| ensures u[1..][k] != u[0] {
          assert u[1..][k] == u[k + 1];
        }
      }
      if s[0] == u[0] && IsSubseq(s[1..], u[1..]) {
        SubseqIsFilter(s[1..], u[1..]);
        SubseqMembers(s[1..], u[1..]);
        FilterCongruent(u[1..], x => x in s, x => x in s[1..]);
        assert Filter(u, x => x in s) == [u[0]] + Filter(u[1..], x => x in s);
      } else {
        SubseqIsFilter(s, u[1..]);
        SubseqMembers(s, u[1..]);
        assert Filter(u, x => x in s) == Filter(u[1..], x => x in s);
      }
    }
  }
}
