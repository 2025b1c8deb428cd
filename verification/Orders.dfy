/**
 Comparison functions in the C manner (the sign of the result counts), sorted
 sequences, and insertion as a witness that sorted orders exist. A library sort
 is taken as anything that leaves a sorted permutation.
 */
module Orders {

  type Compare<!T> = (T, T) -> int

  ghost predicate TotalPreorder<T(!new)>(cmp: Compare<T>)
  {
    && (forall a, b :: cmp(a, b) < 0 <==> cmp(b, a) > 0)
    && (forall a, b, c :: cmp(a, b) <= 0 && cmp(b, c) <= 0 ==> cmp(a, c) <= 0)
  }

  lemma Reflexive<T(!new)>(cmp: Compare<T>, a: T)
    requires TotalPreorder(cmp)
    ensures cmp(a, a) == 0
  {
  }

  lemma Flip<T(!new)>(cmp: Compare<T>, a: T, b: T)
    requires TotalPreorder(cmp)
    ensures cmp(a, b) < 0 <==> cmp(b, a) > 0
    ensures cmp(a, b) > 0 <==> cmp(b, a) < 0
    ensures cmp(a, b) == 0 <==> cmp(b, a) == 0
  {
  }

  lemma Trans<T(!new)>(cmp: Compare<T>, a: T, b: T, c: T)
    requires TotalPreorder(cmp)
    ensures cmp(a, b) <= 0 && cmp(b, c) <= 0 ==> cmp(a, c) <= 0
    ensures cmp(a, b) < 0 && cmp(b, c) <= 0 ==> cmp(a, c) < 0
    ensures cmp(a, b) <= 0 && cmp(b, c) < 0 ==> cmp(a, c) < 0
    ensures cmp(a, b) == 0 && cmp(b, c) == 0 ==> cmp(a, c) == 0
  {
  }

  ghost predicate Sorted<T>(cmp: Compare<T>, s: seq<T>)
  {
    forall i, j :: 0 <= i < j < |s| ==> cmp(s[i], s[j]) <= 0
  }

  /** Sorted in neighbours is sorted. */
  lemma {:induction false} SortedByNeighbours<T(!new)>(cmp: Compare<T>, s: seq<T>)
    requires TotalPreorder(cmp) && forall i :: 0 < i < |s| ==> cmp(s[i - 1], s[i]) <= 0
    ensures Sorted(cmp, s)
  {
    hide TotalPreorder;
    if |s| > 1 {
      var front := s[..|s| - 1];
      SortedByNeighbours(cmp, front);
      forall i, j | 0 <= i < j < |s|
        ensures cmp(s[i], s[j]) <= 0
      {
        if j == |s| - 1 {
          if i < j - 1 {
            assert cmp(front[i], front[j - 1]) <= 0;
            Trans(cmp, s[i], s[j - 1], s[j]);
          }
        } else {
          assert cmp(front[i], front[j]) <= 0;
        }
      }
    }
  }

  /** How far an element is inserted: past everything strictly below it. */
  function Position<T>(cmp: Compare<T>, s: seq<T>, x: T): (k: nat)
    ensures k <= |s|
    ensures forall i :: 0 <= i < k ==> cmp(s[i], x) < 0
    ensures k < |s| ==> cmp(s[k], x) >= 0
  {
    if s == [] || cmp(s[0], x) >= 0 then 0 else 1 + Position(cmp, s[1..], x)
  }

  function Insert<T>(cmp: Compare<T>, s: seq<T>, x: T): (r: seq<T>)
    ensures multiset(r) == multiset(s) + multiset{x}
  {
    var k := Position(cmp, s, x);
    assert s == s[..k] + s[k..];
    s[..k] + [x] + s[k..]
  }

  lemma InsertSorted<T(!new)>(cmp: Compare<T>, s: seq<T>, x: T)
    requires TotalPreorder(cmp) && Sorted(cmp, s)
    ensures Sorted(cmp, Insert(cmp, s, x))
  {
    hide TotalPreorder;
    var k := Position(cmp, s, x);
    var r := Insert(cmp, s, x);
    forall i | 0 < i < |r|
      ensures cmp(r[i - 1], r[i]) <= 0
    {
      if i == k + 1 {
        Flip(cmp, s[k], x);
      } else if i > k + 1 {
        assert r[i - 1] == s[i - 2] && r[i] == s[i - 1];
      }
    }
    SortedByNeighbours(cmp, r);
  }

  function SortOf<T>(cmp: Compare<T>, s: seq<T>): (r: seq<T>)
    ensures multiset(r) == multiset(s)
  {
    if s == [] then []
    else
      assert s == s[..|s| - 1] + [s[|s| - 1]];
      Insert(cmp, SortOf(cmp, s[..|s| - 1]), s[|s| - 1])
  }

  lemma {:induction false} SortOfSorted<T(!new)>(cmp: Compare<T>, s: seq<T>)
    requires TotalPreorder(cmp)
    ensures Sorted(cmp, SortOf(cmp, s))
  {
    hide TotalPreorder;
    if s != [] {
      SortOfSorted(cmp, s[..|s| - 1]);
      InsertSorted(cmp, SortOf(cmp, s[..|s| - 1]), s[|s| - 1]);
    }
  }

  /** What qsort may leave behind. */
  ghost predicate IsSortOf<T>(cmp: Compare<T>, s: seq<T>, r: seq<T>)
  {
    multiset(r) == multiset(s) && Sorted(cmp, r)
  }

  lemma SameMembers<T>(s: seq<T>, r: seq<T>)
    requires multiset(r) == multiset(s)
    ensures |r| == |s| && forall x :: x in r <==> x in s
  {
    assert |multiset(r)| == |r| && |multiset(s)| == |s|;
    forall x: T
      ensures x in r <==> x in s
    {
      assert x in r <==> x in multiset(r);
      assert x in s <==> x in multiset(s);
    }
  }
}
