/** Order-preserving selection on sequences, shared by the cache list and the hash ring. */
module Sequences {

  /** The elements of `s` that satisfy `p`, in order. */
  function Filter<T(!new)>(s: seq<T>, p: T -> bool): (r: seq<T>)
    ensures |r| <= |s|
    ensures forall x :: x in r <==> x in s && p(x)
  {
    if s == [] then []
    else if p(s[0]) then [s[0]] + Filter(s[1..], p)
    else Filter(s[1..], p)
  }

  /** `s` without position `i`. */
  function Cut<T>(s: seq<T>, i: nat): (r: seq<T>)
    requires i < |s|
    ensures |r| == |s| - 1
    ensures forall j {:trigger r[j]} :: 0 <= j < |r| ==> r[j] == s[if j < i then j else j + 1]
  {
    s[..i] + s[i + 1..]
  }

  /** `s` with `x` put at position `i`. */
  function Plug<T>(s: seq<T>, i: nat, x: T): (r: seq<T>)
    requires i <= |s|
    ensures |r| == |s| + 1
    ensures forall j {:trigger r[j]} :: 0 <= j < |r| ==> r[j] == if j < i then s[j] else if j == i then x else s[j - 1]
  {
    s[..i] + [x] + s[i..]
  }

  function Min(a: nat, b: nat): nat {
    if a < b then a else b
  }

  /** The last index below `n` at which `p` holds, or -1. */
  function LastTrue(p: nat -> bool, n: nat): (t: int)
    ensures -1 <= t < n
    ensures t >= 0 ==> p(t)
    ensures forall j :: t < j < n && j >= 0 ==> !p(j)
  {
    if n == 0 then -1 else if p(n - 1) then n - 1 else LastTrue(p, n - 1)
  }

  lemma {:induction false} SameLastTrue(p: nat -> bool, q: nat -> bool, n: nat)
    requires forall t: nat :: t < n ==> (p(t) <==> q(t))
    ensures LastTrue(p, n) == LastTrue(q, n)
  {
    if n > 0 {
      SameLastTrue(p, q, n - 1);
    }
  }

  ghost predicate NoDuplicates<T>(s: seq<T>) {
    forall i, j :: 0 <= i < j < |s| ==> s[i] != s[j]
  }

  lemma SubsetSize<T>(a: set<T>, b: set<T>)
    requires a <= b
    ensures |a| <= |b|
    ensures |a| == |b| ==> a == b
  {
    assert b == a + (b - a);
    assert |b| == |a| + |b - a|;
  }

  lemma AnyOf<T>(s: set<T>) returns (x: T)
    requires s != {}
    ensures x in s
  {
    x :| x in s;
  }

  lemma FirstOf<T>(s: seq<T>) returns (x: T)
    requires s != []
    ensures x in s && x == s[0]
  {
    x := s[0];
  }

  lemma CommonTo<T>(a: set<T>, b: set<T>) returns (x: T)
    requires !(a !! b)
    ensures x in a && x in b
  {
    x :| x in a && x in b;
  }

  /** `a` can be obtained from `b` by deleting elements. */
  ghost predicate Subsequence<T>(a: seq<T>, b: seq<T>) {
    if a == [] then true
    else if b == [] then false
    else if a[0] == b[0] then Subsequence(a[1..], b[1..])
    else Subsequence(a, b[1..])
  }

  lemma {:induction false} FilterAppend<T(!new)>(a: seq<T>, b: seq<T>, p: T -> bool)
    ensures Filter(a + b, p) == Filter(a, p) + Filter(b, p)
  {
    if a == [] {
      assert a + b == b;
    } else {
      assert (a + b)[0] == a[0] && (a + b)[1..] == a[1..] + b;
      FilterAppend(a[1..], b, p);
    }
  }

  lemma FilterSnoc<T(!new)>(s: seq<T>, x: T, p: T -> bool)
    ensures Filter(s + [x], p) == if p(x) then Filter(s, p) + [x] else Filter(s, p)
  {
    FilterAppend(s, [x], p);
  }

  lemma FilterTake<T(!new)>(s: seq<T>, i: nat, p: T -> bool)
    requires i < |s|
    ensures Filter(s[..i + 1], p) == Filter(s[..i], p) + if p(s[i]) then [s[i]] else []
  {
    assert s[..i + 1] == s[..i] + [s[i]];
    FilterAppend(s[..i], [s[i]], p);
  }

  lemma {:induction false} FilterAll<T(!new)>(s: seq<T>, p: T -> bool)
    requires forall x :: x in s ==> p(x)
    ensures Filter(s, p) == s
  {
    if s != [] {
      FilterAll(s[1..], p);
    }
  }

  lemma {:induction false} FilterNone<T(!new)>(s: seq<T>, p: T -> bool)
    requires forall x :: x in s ==> !p(x)
    ensures Filter(s, p) == []
  {
    if s != [] {
      FilterNone(s[1..], p);
    }
  }

  /** A sequence whose halves answer the predicate uniformly keeps one half, or all, or nothing. */
  lemma FilterHalves<T(!new)>(low: seq<T>, high: seq<T>, p: T -> bool)
    requires (forall x :: x in low ==> p(x)) || (forall x :: x in low ==> !p(x))
    requires (forall x :: x in high ==> p(x)) || (forall x :: x in high ==> !p(x))
    ensures (forall x :: x in low ==> !p(x)) && (forall x :: x in high ==> p(x)) ==> Filter(low + high, p) == high
    ensures (forall x :: x in low ==> p(x)) && (forall x :: x in high ==> !p(x)) ==> Filter(low + high, p) == low
  {
    FilterAppend(low, high, p);
    if forall x :: x in low ==> p(x) {
      FilterAll(low, p);
    } else {
      FilterNone(low, p);
    }
    if forall x :: x in high ==> p(x) {
      FilterAll(high, p);
    } else {
      FilterNone(high, p);
    }
  }

  lemma {:induction false} FilterCommutes<T(!new)>(s: seq<T>, p: T -> bool, q: T -> bool)
    ensures Filter(Filter(s, p), q) == Filter(Filter(s, q), p)
  {
    if s != [] {
      FilterCommutes(s[1..], p, q);
    }
  }

  /** Filtering depends only on the predicate's answers for the members of the sequence. */
  lemma {:induction false} FilterAgrees<T(!new)>(s: seq<T>, p: T -> bool, q: T -> bool)
    requires forall x :: x in s ==> (p(x) <==> q(x))
    ensures Filter(s, p) == Filter(s, q)
  {
    if s != [] {
      FilterAgrees(s[1..], p, q);
    }
  }

  lemma {:induction false} FilterNoDuplicates<T(!new)>(s: seq<T>, p: T -> bool)
    requires NoDuplicates(s)
    ensures NoDuplicates(Filter(s, p))
  {
    if s != [] {
      FilterNoDuplicates(s[1..], p);
    }
  }

  /** Deleting one position is filtering, when only that position fails the predicate. */
  lemma {:induction false} FilterDropsOne<T(!new)>(s: seq<T>, i: nat, p: T -> bool)
    requires i < |s| && !p(s[i])
    requires forall j :: 0 <= j < |s| && j != i ==> p(s[j])
    ensures Filter(s, p) == Cut(s, i)
  {
    if i == 0 {
      FilterAll(s[1..], p);
    } else {
      FilterDropsOne(s[1..], i - 1, p);
      assert Cut(s, i) == [s[0]] + Cut(s[1..], i - 1);
    }
  }

  lemma {:induction false} SubsequenceMembers<T(!new)>(a: seq<T>, b: seq<T>)
    requires Subsequence(a, b)
    ensures forall x :: x in a ==> x in b
    ensures |a| <= |b|
  {
    if a != [] && b != [] {
      if a[0] == b[0] {
        SubsequenceMembers(a[1..], b[1..]);
        assert forall x :: x in a ==> x == a[0] || x in a[1..];
      } else {
        SubsequenceMembers(a, b[1..]);
      }
    }
  }

  /** Dropping the head of the shorter sequence keeps it a subsequence. */
  lemma {:induction false} SubsequenceTail<T>(a: seq<T>, b: seq<T>)
    requires a != [] && Subsequence(a, b)
    ensures b != [] && Subsequence(a[1..], b[1..])
  {
    if a[0] == b[0] {
    } else {
      SubsequenceTail(a, b[1..]);
      SubsequenceExtend(a[1..], b[1..]);
    }
  }

  lemma {:induction false} SubsequenceExtend<T>(a: seq<T>, b: seq<T>)
    requires b != [] && Subsequence(a, b[1..])
    ensures Subsequence(a, b)
  {
    if a != [] && a[0] == b[0] {
      SubsequenceTail(a, b[1..]);
      if b[1..] != [] {
        SubsequenceExtend(a[1..], b[1..]);
      }
    }
  }

  lemma {:induction false} FilterSubsequence<T(!new)>(a: seq<T>, b: seq<T>, p: T -> bool)
    requires Subsequence(a, b)
    ensures Subsequence(Filter(a, p), Filter(b, p))
  {
    if a != [] && b != [] {
      if a[0] == b[0] {
        FilterSubsequence(a[1..], b[1..], p);
      } else {
        FilterSubsequence(a, b[1..], p);
        if p(b[0]) {
          assert Filter(b, p)[1..] == Filter(b[1..], p);
          SubsequenceExtend(Filter(a, p), Filter(b, p));
        }
      }
    }
  }

  /** The last element of the shorter sequence may always be dropped. */
  lemma {:induction false} SubsequenceInit<T>(a: seq<T>, b: seq<T>)
    requires a != [] && Subsequence(a, b)
    ensures Subsequence(a[..|a| - 1], b)
  {
    if |a| > 1 {
      if a[0] == b[0] {
        SubsequenceInit(a[1..], b[1..]);
        assert a[..|a| - 1][1..] == a[1..][..|a[1..]| - 1];
      } else {
        SubsequenceInit(a, b[1..]);
        SubsequenceExtend(a[..|a| - 1], b);
      }
    }
  }

  /** The last elements of both sequences may be dropped together. */
  lemma {:induction false} SubsequenceInits<T>(a: seq<T>, b: seq<T>)
    requires a != [] && Subsequence(a, b)
    ensures b != [] && Subsequence(a[..|a| - 1], b[..|b| - 1])
  {
    if |a| > 1 {
      if a[0] == b[0] {
        SubsequenceInits(a[1..], b[1..]);
        assert a[..|a| - 1][1..] == a[1..][..|a[1..]| - 1];
        assert b[..|b| - 1][1..] == b[1..][..|b[1..]| - 1];
      } else {
        SubsequenceInits(a, b[1..]);
        assert b[..|b| - 1][1..] == b[1..][..|b[1..]| - 1];
        SubsequenceExtend(a[..|a| - 1], b[..|b| - 1]);
      }
    }
  }
}
