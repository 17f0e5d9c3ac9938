/**
 * Sorting a list whose natural order is the order of an integer key. This is the model of
 * `Collections.sort`, used on a hand's cards and on a list of discard positions.
 */
module Sorting {
  predicate SortedBy<T>(s: seq<T>, key: T -> int) {
    forall i, j :: 0 <= i < j < |s| ==> key(s[i]) <= key(s[j])
  }

  /** Insert `x` in front of the first element whose key is not below its own. */
  function InsertBy<T>(x: T, s: seq<T>, key: T -> int): (r: seq<T>)
    requires SortedBy(s, key)
    ensures multiset(r) == multiset(s) + multiset{x}
    ensures SortedBy(r, key)
  {
    if s == [] || key(x) <= key(s[0]) then
      [x] + s
    else
      var rest := InsertBy(x, s[1..], key);
      LowerBound(s[0], rest, x, s[1..], key);
      assert s == [s[0]] + s[1..];
      [s[0]] + rest
  }

  /** An element whose key is at most those of `x` and of every element of `s` stays below any arrangement of them. */
  lemma LowerBound<T>(first: T, rest: seq<T>, x: T, s: seq<T>, key: T -> int)
    requires SortedBy(rest, key) && multiset(rest) == multiset(s) + multiset{x}
    requires key(first) <= key(x) && forall i :: 0 <= i < |s| ==> key(first) <= key(s[i])
    ensures SortedBy([first] + rest, key)
  {
    forall i | 0 <= i < |rest| ensures key(first) <= key(rest[i]) {
      assert rest[i] in multiset(rest);
      if rest[i] != x {
        assert rest[i] in multiset(s);
      }
    }
  }

  function SortBy<T>(s: seq<T>, key: T -> int): (r: seq<T>)
    ensures multiset(r) == multiset(s)
    ensures SortedBy(r, key)
  {
    if s == [] then
      []
    else
      var sorted := SortBy(s[1..], key);
      assert s == [s[0]] + s[1..];
      InsertBy(s[0], sorted, key)
  }

  lemma DropFirst<T>(s: seq<T>)
    requires s != []
    ensures multiset(s[1..]) == multiset(s) - multiset{s[0]}
  {
    assert s == [s[0]] + s[1..];
  }

  /** When the key tells the elements apart, two sorted arrangements of the same multiset are the same sequence. */
  lemma {:induction false} SortedPermutationUnique<T>(a: seq<T>, b: seq<T>, key: T -> int)
    requires SortedBy(a, key) && SortedBy(b, key) && multiset(a) == multiset(b)
    requires forall i, j :: 0 <= i < |a| && 0 <= j < |a| && key(a[i]) == key(a[j]) ==> a[i] == a[j]
    ensures a == b
  {
    assert |a| == |multiset(a)| == |multiset(b)| == |b|;
    if a != [] {
      assert a[0] in multiset(b) && b[0] in multiset(a);
      var i :| 0 <= i < |b| && b[i] == a[0];
      var j :| 0 <= j < |a| && a[j] == b[0];
      assert key(a[0]) == key(a[j]);
      assert a[0] == b[0];
      DropFirst(a);
      DropFirst(b);
      SortedPermutationUnique(a[1..], b[1..], key);
    }
  }

  /** The elements of `s` are all different exactly when none is counted twice. */
  lemma {:induction false} DistinctOnce<T>(s: seq<T>)
    ensures (forall i, j :: 0 <= i < j < |s| ==> s[i] != s[j]) <==> (forall x :: multiset(s)[x] <= 1)
  {
    if forall i, j :: 0 <= i < j < |s| ==> s[i] != s[j] {
      if s != [] {
        var rest := s[1..];
        assert s == [s[0]] + rest;
        forall i, j | 0 <= i < j < |rest| ensures rest[i] != rest[j] {
          assert rest[i] == s[i + 1] && rest[j] == s[j + 1];
        }
        DistinctOnce(rest);
        assert s[0] !in rest by {
          forall j | 0 <= j < |rest| ensures rest[j] != s[0] {
            assert rest[j] == s[j + 1];
          }
        }
      }
    }
    if forall x :: multiset(s)[x] <= 1 {
      forall i, j | 0 <= i < j < |s| ensures s[i] != s[j] {
        assert s == s[..j] + [s[j]] + s[j + 1..];
        assert s[i] in s[..j];
        assert multiset(s)[s[j]] >= multiset(s[..j])[s[j]] + 1;
      }
    }
  }
}
