/** Generic facts about the array operations the pages use: `filter`,
    `map`, membership, duplicate-freedom and order preservation. */
module Seqs {

  /** No element occurs twice. */
  predicate NoDup<T(==)>(s: seq<T>)
  {
    forall i, j :: 0 <= i < j < |s| ==> s[i] != s[j]
  }

  /** The elements of a sequence, as a set. */
  function Elems<T>(s: seq<T>): set<T>
  {
    set x | x in s
  }

  /** `a` is obtained from `b` by deleting some elements, keeping the order of the rest. */
  predicate IsSubsequence<T(==)>(a: seq<T>, b: seq<T>)
    decreases |b|
  {
    a == [] ||
    (b != [] && ((a[0] == b[0] && IsSubsequence(a[1..], b[1..])) || IsSubsequence(a, b[1..])))
  }

  /** Strictly increasing integers. */
  predicate Increasing(s: seq<int>)
  {
    forall i, j :: 0 <= i < j < |s| ==> s[i] < s[j]
  }

  /** `Array.prototype.filter`: the elements that satisfy `p`, in their original order. */
  function Filter<T(!new)>(s: seq<T>, p: T -> bool): (r: seq<T>)
    ensures |r| <= |s|
    ensures forall x :: x in r <==> x in s && p(x)
  {
    if s == [] then []
    else
      var rest := Filter(s[1..], p);
      assert forall x :: x in s <==> x == s[0] || x in s[1..];
      if p(s[0]) then [s[0]] + rest else rest
  }

  /** Filtering out exactly the copies of `x` removes them all from the
      multiset and keeps every other element's count. */
  lemma {:induction false} FilterDropsOneValue<T(!new)>(s: seq<T>, x: T, p: T -> bool)
    requires forall y :: p(y) <==> y != x
    ensures multiset(Filter(s, p)) == multiset(s)[x := 0]
  {
    if s != [] {
      FilterDropsOneValue(s[1..], x, p);
      assert s == [s[0]] + s[1..];
      assert multiset(s) == multiset([s[0]]) + multiset(s[1..]);
    }
  }

  /** `Array.prototype.map`. */
  function Map<T, U>(s: seq<T>, f: T -> U): (r: seq<U>)
    ensures |r| == |s|
    ensures forall i :: 0 <= i < |s| ==> r[i] == f(s[i])
  {
    seq(|s|, i requires 0 <= i < |s| => f(s[i]))
  }

  lemma {:induction false} FilterIsSubsequence<T(!new)>(s: seq<T>, p: T -> bool)
    ensures IsSubsequence(Filter(s, p), s)
  {
    if s != [] {
      FilterIsSubsequence(s[1..], p);
      var rest := Filter(s[1..], p);
      if p(s[0]) {
        assert Filter(s, p) == [s[0]] + rest;
        assert ([s[0]] + rest)[1..] == rest;
      }
    }
  }

  /** Filtering with a predicate that holds everywhere on `s` returns `s` itself. */
  lemma {:induction false} FilterAll<T(!new)>(s: seq<T>, p: T -> bool)
    requires forall x :: x in s ==> p(x)
    ensures Filter(s, p) == s
  {
    if s != [] {
      assert s[0] in s;
      assert forall x :: x in s[1..] ==> x in s;
      FilterAll(s[1..], p);
      assert [s[0]] + s[1..] == s;
    }
  }

  /** Filtering with a predicate that holds nowhere on `s` returns the empty sequence. */
  lemma FilterNone<T(!new)>(s: seq<T>, p: T -> bool)
    requires forall x :: x in s ==> !p(x)
    ensures Filter(s, p) == []
  {
  }

  /** Filtering distributes over concatenation. */
  lemma {:induction false} FilterAppend<T(!new)>(a: seq<T>, b: seq<T>, p: T -> bool)
    ensures Filter(a + b, p) == Filter(a, p) + Filter(b, p)
  {
    if a != [] {
      assert (a + b)[1..] == a[1..] + b;
      FilterAppend(a[1..], b, p);
    } else {
      assert a + b == b;
    }
  }

  /** Two predicates that agree on every element of `s` filter it identically. */
  lemma {:induction false} FilterCongruent<T(!new)>(s: seq<T>, p: T -> bool, q: T -> bool)
    requires forall x :: x in s ==> p(x) == q(x)
    ensures Filter(s, p) == Filter(s, q)
  {
    if s != [] {
      assert s[0] in s;
      assert forall x :: x in s[1..] ==> x in s;
      FilterCongruent(s[1..], p, q);
    }
  }

  lemma {:induction false} SubsequenceMembers<T>(a: seq<T>, b: seq<T>)
    requires IsSubsequence(a, b)
    ensures forall x :: x in a ==> x in b
    decreases |b|
  {
    if a != [] {
      if a[0] == b[0] && IsSubsequence(a[1..], b[1..]) {
        SubsequenceMembers(a[1..], b[1..]);
        assert forall x :: x in a ==> x == a[0] || x in a[1..];
      } else {
        SubsequenceMembers(a, b[1..]);
      }
    }
  }

  /** A subsequence of a duplicate-free sequence is duplicate-free. */
  lemma {:induction false} SubsequenceNoDup<T>(a: seq<T>, b: seq<T>)
    requires IsSubsequence(a, b) && NoDup(b)
    ensures NoDup(a)
    decreases |b|
  {
    if a != [] {
      assert NoDup(b[1..]) by {
        forall i, j | 0 <= i < j < |b[1..]| ensures b[1..][i] != b[1..][j] {
          assert b[1..][i] == b[i + 1] && b[1..][j] == b[j + 1];
        }
      }
      if a[0] == b[0] && IsSubsequence(a[1..], b[1..]) {
        SubsequenceNoDup(a[1..], b[1..]);
        SubsequenceMembers(a[1..], b[1..]);
        assert b[0] !in b[1..] by {
          forall k | 0 <= k < |b[1..]| ensures b[1..][k] != b[0] {
            assert b[1..][k] == b[k + 1];
          }
        }
        forall i, j | 0 <= i < j < |a| ensures a[i] != a[j] {
          if i == 0 {
            assert a[j] == a[1..][j - 1];
            assert a[j] in a[1..];
          } else {
            assert a[i] == a[1..][i - 1] && a[j] == a[1..][j - 1];
          }
        }
      } else {
        SubsequenceNoDup(a, b[1..]);
      }
    }
  }

  /** Deleting elements commutes with applying `f` to every element. */
  lemma {:induction false} MapSubsequence<T, U>(a: seq<T>, b: seq<T>, f: T -> U)
    requires IsSubsequence(a, b)
    ensures IsSubsequence(Map(a, f), Map(b, f))
    decreases |b|
  {
    if a != [] {
      assert Map(b, f)[1..] == Map(b[1..], f);
      if a[0] == b[0] && IsSubsequence(a[1..], b[1..]) {
        MapSubsequence(a[1..], b[1..], f);
        assert Map(a, f)[1..] == Map(a[1..], f);
      } else {
        MapSubsequence(a, b[1..], f);
      }
    }
  }

  /** A subsequence of a strictly increasing sequence is strictly increasing. */
  lemma {:induction false} SubsequenceIncreasing(a: seq<int>, b: seq<int>)
    requires IsSubsequence(a, b) && Increasing(b)
    ensures Increasing(a)
    decreases |b|
  {
    if a != [] {
      assert Increasing(b[1..]) by {
        forall i, j | 0 <= i < j < |b[1..]| ensures b[1..][i] < b[1..][j] {
          assert b[1..][i] == b[i + 1] && b[1..][j] == b[j + 1];
        }
      }
      if a[0] == b[0] && IsSubsequence(a[1..], b[1..]) {
        SubsequenceIncreasing(a[1..], b[1..]);
        SubsequenceMembers(a[1..], b[1..]);
        forall i, j | 0 <= i < j < |a| ensures a[i] < a[j] {
          if i == 0 {
            assert a[j] == a[1..][j - 1];
            assert a[j] in b[1..];
            var k :| 0 <= k < |b[1..]| && b[1..][k] == a[j];
            assert b[k + 1] == a[j];
          } else {
            assert a[i] == a[1..][i - 1] && a[j] == a[1..][j - 1];
          }
        }
      } else {
        SubsequenceIncreasing(a, b[1..]);
      }
    }
  }

  /** A duplicate-free sequence has as many elements as its set of elements. */
  lemma {:induction false} NoDupCardinality<T>(s: seq<T>)
    requires NoDup(s)
    ensures |Elems(s)| == |s|
  {
    if s != [] {
      assert NoDup(s[1..]) by {
        forall i, j | 0 <= i < j < |s[1..]| ensures s[1..][i] != s[1..][j] {
          assert s[1..][i] == s[i + 1] && s[1..][j] == s[j + 1];
        }
      }
      NoDupCardinality(s[1..]);
      assert s[0] !in Elems(s[1..]) by {
        forall k | 0 <= k < |s[1..]| ensures s[1..][k] != s[0] {
          assert s[1..][k] == s[k + 1];
        }
      }
      assert Elems(s) == {s[0]} + Elems(s[1..]) by {
        assert forall x :: x in s <==> x == s[0] || x in s[1..];
      }
    }
  }

  /** Two duplicate-free sequences with the same elements have the same length. */
  lemma SameElementsSameLength<T>(a: seq<T>, b: seq<T>)
    requires NoDup(a) && NoDup(b) && Elems(a) == Elems(b)
    ensures |a| == |b|
  {
    NoDupCardinality(a);
    NoDupCardinality(b);
  }
}
