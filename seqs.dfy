/** Order-preserving selection over sequences, the model of `Array.prototype.filter`. */
module Seqs {

  /** The elements of `s` that satisfy `p`, in their original order. */
  function Filter<T>(s: seq<T>, p: T -> bool): (r: seq<T>)
    ensures |r| <= |s|
    ensures forall i :: 0 <= i < |r| ==> p(r[i])
    decreases |s|
  {
    if s == [] then [] else (if p(s[0]) then [s[0]] else []) + Filter(s[1..], p)
  }

  /** `r` is obtained from `s` by deleting elements (decided by greedy left-to-right matching). */
  predicate Subsequence<T(==)>(r: seq<T>, s: seq<T>)
    decreases |s|
  {
    if r == [] then true
    else if s == [] then false
    else if r[0] == s[0] then Subsequence(r[1..], s[1..])
    else Subsequence(r, s[1..])
  }

  /** `r` is exactly the order-preserving subsequence of `s` made of the elements
      satisfying `p`, each one kept as often as it occurs in `s`. */
  ghost predicate ExactlySelects<T>(r: seq<T>, s: seq<T>, p: T -> bool)
  {
    && Subsequence(r, s)
    && (forall i :: 0 <= i < |r| ==> p(r[i]))
    && (forall x :: x in s && p(x) ==> multiset(r)[x] == multiset(s)[x])
  }

  lemma {:induction false} SubsequenceMultiset<T>(r: seq<T>, s: seq<T>)
    requires Subsequence(r, s)
    ensures multiset(r) <= multiset(s)
    decreases |s|
  {
    if r != [] {
      assert s == [s[0]] + s[1..];
      if r[0] == s[0] {
        assert r == [r[0]] + r[1..];
        SubsequenceMultiset(r[1..], s[1..]);
      } else {
        SubsequenceMultiset(r, s[1..]);
      }
    }
  }

  lemma {:induction false} FilterSubsequence<T>(s: seq<T>, p: T -> bool)
    ensures Subsequence(Filter(s, p), s)
    decreases |s|
  {
    if s != [] {
      FilterSubsequence(s[1..], p);
      var rest := Filter(s[1..], p);
      if p(s[0]) {
        assert Filter(s, p) == [s[0]] + rest;
      } else {
        assert Filter(s, p) == rest;
        assert rest != [] ==> rest[0] != s[0];
      }
    }
  }

  lemma {:induction false} FilterCounts<T>(s: seq<T>, p: T -> bool)
    ensures forall x :: multiset(Filter(s, p))[x] == if p(x) then multiset(s)[x] else 0
    decreases |s|
  {
    if s != [] {
      FilterCounts(s[1..], p);
      assert s == [s[0]] + s[1..];
      assert multiset(s) == multiset{s[0]} + multiset(s[1..]);
      assert multiset(Filter(s, p)) == multiset(if p(s[0]) then [s[0]] else []) + multiset(Filter(s[1..], p));
    }
  }

  /** Filter computes exactly the order-preserving selection. */
  lemma FilterSelects<T>(s: seq<T>, p: T -> bool)
    ensures ExactlySelects(Filter(s, p), s, p)
  {
    FilterSubsequence(s, p);
    FilterCounts(s, p);
  }

  /** A selection of `s` whose first element is kept starts with it, and the rest selects from the tail. */
  lemma SelectsKept<T>(r: seq<T>, s: seq<T>, p: T -> bool)
    requires ExactlySelects(r, s, p) && s != [] && p(s[0])
    ensures r != [] && r[0] == s[0] && ExactlySelects(r[1..], s[1..], p)
  {
    var a, t := s[0], s[1..];
    assert s == [a] + t;
    assert multiset(r)[a] == multiset(t)[a] + 1;
    if r[0] != a {
      SubsequenceMultiset(r, t);
      assert false;
    }
    assert r == [a] + r[1..];
    forall x | x in t && p(x)
      ensures multiset(r[1..])[x] == multiset(t)[x]
    {
    }
  }

  /** A selection of `s` whose first element is dropped selects from the tail. */
  lemma SelectsDropped<T>(r: seq<T>, s: seq<T>, p: T -> bool)
    requires ExactlySelects(r, s, p) && s != [] && !p(s[0])
    ensures ExactlySelects(r, s[1..], p)
  {
    var a, t := s[0], s[1..];
    assert s == [a] + t;
    if r != [] {
      assert p(r[0]);
    }
    forall x | x in t && p(x)
      ensures multiset(r)[x] == multiset(t)[x]
    {
      assert x != a;
    }
  }

  /** The selection is unique: any sequence that exactly selects `p` from `s` is `Filter(s, p)`. */
  lemma {:induction false} SelectsUnique<T>(r: seq<T>, s: seq<T>, p: T -> bool)
    requires ExactlySelects(r, s, p)
    ensures r == Filter(s, p)
    decreases |s|
  {
    if s == [] {
    } else if p(s[0]) {
      SelectsKept(r, s, p);
      SelectsUnique(r[1..], s[1..], p);
      assert r == [r[0]] + r[1..];
    } else {
      SelectsDropped(r, s, p);
      SelectsUnique(r, s[1..], p);
    }
  }

  /** Membership in an exact selection: an element is kept iff it occurs and satisfies `p`. */
  lemma SelectedMembers<T>(r: seq<T>, s: seq<T>, p: T -> bool)
    requires ExactlySelects(r, s, p)
    ensures forall x :: x in r <==> x in s && p(x)
  {
    SubsequenceMultiset(r, s);
    forall x
      ensures x in r <==> x in s && p(x)
    {
      if x in r {
        var i :| 0 <= i < |r| && r[i] == x;
        assert p(x);
        assert multiset(r)[x] > 0;
      }
      if x in s && p(x) {
        assert multiset(s)[x] > 0;
      }
    }
  }

  lemma {:induction false} FilterAppend<T>(s: seq<T>, x: T, p: T -> bool)
    ensures Filter(s + [x], p) == Filter(s, p) + (if p(x) then [x] else [])
    decreases |s|
  {
    if s == [] {
      assert [] + [x] == [x];
      assert [x][1..] == [];
    } else {
      assert (s + [x])[0] == s[0];
      assert (s + [x])[1..] == s[1..] + [x];
      FilterAppend(s[1..], x, p);
    }
  }

  /** Nothing is dropped exactly when every element satisfies `p`. */
  lemma {:induction false} FilterKeepsAllIff<T>(s: seq<T>, p: T -> bool)
    ensures |Filter(s, p)| == |s| <==> forall i :: 0 <= i < |s| ==> p(s[i])
    ensures (forall i :: 0 <= i < |s| ==> p(s[i])) ==> Filter(s, p) == s
    decreases |s|
  {
    if s != [] {
      FilterKeepsAllIff(s[1..], p);
      assert forall i :: 1 <= i < |s| ==> s[i] == s[1..][i - 1];
      if forall i :: 0 <= i < |s| ==> p(s[i]) {
        assert s == [s[0]] + s[1..];
      }
    }
  }

  /** The selection is empty exactly when no element satisfies `p`. */
  lemma {:induction false} FilterEmptyIff<T>(s: seq<T>, p: T -> bool)
    ensures Filter(s, p) == [] <==> forall i :: 0 <= i < |s| ==> !p(s[i])
    decreases |s|
  {
    if s != [] {
      FilterEmptyIff(s[1..], p);
      assert forall i :: 1 <= i < |s| ==> s[i] == s[1..][i - 1];
    }
  }

  /** Filtering by two predicates that agree on every element gives the same result. */
  lemma {:induction false} FilterCongruent<T>(s: seq<T>, p: T -> bool, q: T -> bool)
    requires forall i :: 0 <= i < |s| ==> p(s[i]) == q(s[i])
    ensures Filter(s, p) == Filter(s, q)
    decreases |s|
  {
    if s != [] {
      assert forall i :: 1 <= i < |s| ==> s[i] == s[1..][i - 1];
      FilterCongruent(s[1..], p, q);
    }
  }

  /** Every element is either kept by `p` or kept by its complement `q`. */
  lemma {:induction false} FilterSplitsLength<T>(s: seq<T>, p: T -> bool, q: T -> bool)
    requires forall x :: q(x) == !p(x)
    ensures |Filter(s, p)| + |Filter(s, q)| == |s|
    decreases |s|
  {
    if s != [] {
      FilterSplitsLength(s[1..], p, q);
    }
  }
}
