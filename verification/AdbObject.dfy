/**
 Objects and arrays under construction, and the sort-and-drop-repeats pass that
 dependency arrays go through before they are stored.
 */
module AdbObject {
  import opened Bytes
  import opened AdbValue
  import opened AdbSpec
  import opened AdbRuns
  import opened AdbWriter
  import opened Orders

  const ERROR_WORD: word := Word(TYPE_ERROR, 0)

  function Nulls(n: nat): (r: seq<word>)
    ensures |r| == n && forall i :: 0 <= i < n ==> r[i] == NULL
  {
    seq(n, _ => NULL)
  }

  /** Entry i (from 0) set to v: the contents reach as far as the last entry that
      was set to a value. */
  function SetEntry(ws: seq<word>, i: nat, v: word): (r: seq<word>)
  {
    if i < |ws| then ws[i := v]
    else if v == NULL then ws
    else ws + Nulls(i - |ws|) + [v]
  }

  class AdbObj {
    const db: Adb
    var slots: array<word>     // obj; slot 0 is the entry count
    var max: nat               // kept in slot 0 while building
    var num: nat

    ghost predicate Valid()
      reads this
    {
      1 <= num <= max <= slots.Length
    }

    /** Nothing is left behind the entries in use. An array that dropped repeats
        has stale words there, which appending writes over. */
    ghost predicate Blank()
      reads this, slots
      requires Valid()
    {
      forall i :: num <= i < max ==> slots[i] == NULL
    }

    /** The entries set so far. */
    ghost function Contents(): seq<word>
      reads this, slots
      requires Valid()
    {
      slots[1..num]
    }

    /** adb_wo_init on an array of numFields entries */
    constructor (d: Adb, numFields: nat)
      requires numFields >= 1
      ensures Valid() && Blank() && fresh(slots) && Contents() == [] && db == d && max == numFields
    {
      db := d;
      slots := new word[numFields](_ => NULL);
      max := numFields;
      num := 1;
    }

    /** adb_wo_reset */
    method Reset()
      requires Valid()
      modifies this`num, slots
      ensures Valid() && Contents() == [] && (old(Blank()) ==> Blank())
    {
      var i := 1;
      while i < num
        invariant 1 <= i <= num == old(num)
        invariant forall k :: 1 <= k < i ==> slots[k] == NULL
        invariant forall k :: num <= k < max ==> slots[k] == old(slots[k])
      {
        slots[i] := NULL;
        i := i + 1;
      }
      num := 1;
    }

    /** adb_wo_val */
    method SetVal(i: nat, v: word) returns (r: word)
      requires Valid() && Blank() && i >= 1
      modifies this`num, slots
      ensures Valid() && Blank()
      ensures i >= max || v.tag == TYPE_ERROR ==> r.tag == TYPE_ERROR && Contents() == old(Contents())
      ensures i < max && v.tag != TYPE_ERROR ==> r == v && Contents() == SetEntry(old(Contents()), i - 1, v)
    {
      if i >= max {
        return ERROR_WORD;
      }
      if v.tag == TYPE_ERROR {
        return v;
      }
      ghost var before := Contents();
      if v != NULL && i >= num {
        num := i + 1;
      }
      slots[i] := v;
      assert Contents() == SetEntry(before, i - 1, v);
      return v;
    }

    /** adb_wa_append; the table is doubled when it is full. */
    method Append(v: word) returns (r: word)
      requires Valid()
      modifies this`num, this`max, this`slots, slots
      ensures Valid() && (slots == old(slots) || fresh(slots)) && r == v && (old(Blank()) ==> Blank())
      ensures v.tag == TYPE_ERROR || v == NULL ==> Contents() == old(Contents())
      ensures v.tag != TYPE_ERROR && v != NULL ==> Contents() == old(Contents()) + [v]
      ensures max == if v.tag != TYPE_ERROR && v != NULL && old(num >= max) then 2 * old(max) else old(max)
    {
      if v.tag == TYPE_ERROR || v == NULL {
        return v;
      }
      if num >= max {
        var bigger := new word[max * 2](_ => NULL);
        forall i | 0 <= i < max {
          bigger[i] := slots[i];
        }
        assert bigger[1..num] == slots[1..num];
        slots := bigger;
        max := max * 2;
      }
      slots[num] := v;
      num := num + 1;
      assert slots[1..num] == slots[1..num - 1] + [v];
      return v;
    }

    /** The entries up to the last one that is set. */
    method Used() returns (n: nat)
      requires Valid()
      ensures 1 <= n <= num && slots[1..n] == TrimWords(Contents())
    {
      n := num;
      ghost var all := Contents();
      assert all[..n - 1] == all;
      while n > 1 && slots[n - 1] == NULL
        modifies {}
        invariant 1 <= n <= num
        invariant TrimWords(all) == TrimWords(all[..n - 1])
      {
        TrimOne(all[..n - 1]);
        assert all[..n - 1][..n - 2] == all[..n - 2];
        n := n - 1;
      }
      if n > 1 { assert all[..n - 1][n - 2] == slots[n - 1]; }
      assert TrimWords(all[..n - 1]) == all[..n - 1];
      assert slots[1..n] == all[..n - 1];
    }

    /** __adb_w_obj: store the entries up to the last one set, and start over. */
    method Commit(isArray: bool) returns (w: word)
      requires Valid() && db.Valid() && db.Caching() && db.chains != [] && HDR_SIZE <= db.len
      modifies this`num, slots, db, db.mem
      ensures Valid() && Contents() == [] && db.Valid() && |db.chains| == |old(db.chains)|
      ensures old(Blank()) ==> Blank()
      ensures (db.Model(), w) == PutNode(db.hashOf, old(db.Model()), isArray, old(Contents()))
    {
      hide PutTable, TrimWords;
      var n := Used();
      w := NULL;
      if n > 1 {
        w := db.Table(NodeType(isArray), slots[1..n]);
      }
      Reset();
    }

    /** The loop of adb_wa_sort_unique, run on entries left in some order by the
        sort. */
    method DropRepeats()
      requires Valid()
      modifies this`num, slots
      ensures Valid() && num <= old(num)
      ensures Contents() == DropAdjacent(old(Contents()))
    {
      hide DropAdjacent;
      var last := num - 1;
      ghost var all := Contents();
      if last < 2 {
        DropAdjacentShort(all);
        return;
      }
      var i, j := 2, 2;
      DropAdjacentShort(all[..1]);
      assert all[..1] == slots[1..2];
      while i <= last
        invariant 2 <= j <= i <= last + 1 == num && num == old(num)
        invariant slots[1..j] == DropAdjacent(all[..i - 1])
        invariant forall k :: i <= k <= last ==> slots[k] == all[k - 1]
        invariant slots[i - 1] == all[i - 2]
      {
        DropAdjacentStep(all, i);
        if slots[i] != slots[i - 1] {
          ghost var kept := slots[1..j];
          slots[j] := slots[i];
          assert slots[1..j] == kept;
          assert slots[1..j + 1] == slots[1..j] + [slots[j]];
          j := j + 1;
        }
        i := i + 1;
      }
      assert all[..last] == all;
      num := j;
    }
  }

  lemma TrimOne(ws: seq<word>)
    requires ws != [] && ws[|ws| - 1] == NULL
    ensures TrimWords(ws) == TrimWords(ws[..|ws| - 1])
  {
  }

  lemma DropAdjacentShort(s: seq<word>)
    requires |s| <= 1
    ensures DropAdjacent(s) == s
  {
  }

  lemma DropAdjacentStep(all: seq<word>, i: nat)
    requires 2 <= i <= |all|
    ensures DropAdjacent(all[..i])
         == DropAdjacent(all[..i - 1]) + (if all[i - 1] == all[i - 2] then [] else [all[i - 1]])
  {
    var s := all[..i];
    assert s[..|s| - 1] == all[..i - 1] && s[|s| - 1] == all[i - 1] && s[|s| - 2] == all[i - 2];
    assert DropAdjacent(all[..i - 1]) + [] == DropAdjacent(all[..i - 1]);
  }

  // ---- Sorting and dropping repeats -----------------------------------------------

  /** Every entry that differs from the one before it. */
  function DropAdjacent(s: seq<word>): (r: seq<word>)
  {
    if |s| <= 1 then s
    else
      var rest := DropAdjacent(s[..|s| - 1]);
      if s[|s| - 1] == s[|s| - 2] then rest else rest + [s[|s| - 1]]
  }

  ghost predicate NoRepeats(s: seq<word>)
  {
    forall i, j :: 0 <= i < j < |s| ==> s[i] != s[j]
  }

  /** Some word that occurs more than once compares equal to a different word. */
  ghost predicate RepeatedTie(cmp: Compare<word>, s: seq<word>)
  {
    exists a, b :: TiedRepeat(cmp, s, a, b)
  }

  predicate TiedRepeat(cmp: Compare<word>, s: seq<word>, a: word, b: word)
  {
    a in s && b in s && a != b && cmp(a, b) == 0 && multiset(s)[a] >= 2
  }

  lemma {:induction false} DropAdjacentMembers(s: seq<word>)
    ensures forall w :: w in DropAdjacent(s) <==> w in s
    ensures s != [] ==> DropAdjacent(s) != [] && DropAdjacent(s)[|DropAdjacent(s)| - 1] == s[|s| - 1]
  {
    if |s| > 1 {
      var front := s[..|s| - 1];
      DropAdjacentMembers(front);
      assert s == front + [s[|s| - 1]];
      assert front[|front| - 1] == s[|s| - 2];
    }
  }

  lemma TwiceIn(s: seq<word>, i: nat, j: nat)
    requires i < j < |s| && s[i] == s[j]
    ensures multiset(s)[s[i]] >= 2
  {
    assert s == s[..j] + [s[j]] + s[j + 1..];
    assert s[i] in s[..j];
    assert multiset(s[..j])[s[i]] >= 1;
  }

  lemma TieFound(cmp: Compare<word>, all: seq<word>, k: nat, m: nat, n: nat)
    requires TotalPreorder(cmp) && Sorted(cmp, all) && k < m < n < |all|
    requires all[k] == all[n] != all[m]
    ensures TiedRepeat(cmp, all, all[n], all[m])
  {
    hide TotalPreorder;
    assert cmp(all[k], all[m]) <= 0 && cmp(all[m], all[n]) <= 0;
    Flip(cmp, all[n], all[m]);
    TwiceIn(all, k, n);
  }

  lemma {:induction false} DropAdjacentOnce(cmp: Compare<word>, all: seq<word>, n: nat)
    requires TotalPreorder(cmp) && Sorted(cmp, all) && !RepeatedTie(cmp, all) && n <= |all|
    ensures NoRepeats(DropAdjacent(all[..n]))
    decreases n
  {
    hide TotalPreorder, TiedRepeat, Sorted;
    if n <= 1 {
      DropAdjacentShort(all[..n]);
    } else {
      DropAdjacentStep(all, n);
      DropAdjacentOnce(cmp, all, n - 1);
      DropAdjacentMembers(all[..n - 1]);
      if all[n - 1] != all[n - 2] && all[n - 1] in all[..n - 1] {
        var k :| 0 <= k < n - 1 && all[..n - 1][k] == all[n - 1];
        TieFound(cmp, all, k, n - 2, n - 1);
      }
    }
  }

  lemma {:induction false} DropAdjacentSplit(x: seq<word>, y: seq<word>)
    requires x != [] && y != [] && x[|x| - 1] != y[0]
    ensures DropAdjacent(x + y) == DropAdjacent(x) + DropAdjacent(y)
    decreases |y|
  {
    var s := x + y;
    var front := y[..|y| - 1];
    assert s[..|s| - 1] == x + front;
    if |y| == 1 {
      assert x + front == x;
      assert s[|s| - 1] == y[0] && s[|s| - 2] == x[|x| - 1];
    } else {
      DropAdjacentSplit(x, front);
      assert s[|s| - 1] == y[|y| - 1] && s[|s| - 2] == y[|y| - 2];
    }
  }

  lemma InsertShape(cmp: Compare<word>, t: seq<word>, x: word)
    ensures var k := Position(cmp, t, x);
            var r := Insert(cmp, t, x);
            && |r| == |t| + 1 && r[k] == x
            && (k < |t| ==> r[k + 1] == t[k]) && (k + 1 < |t| ==> r[k + 2] == t[k + 1])
  {
  }

  /** An order with a, b, a in a row can be left by a sort. */
  lemma BadOrder(cmp: Compare<word>, s: seq<word>, a: word, b: word) returns (bad: seq<word>, k: nat)
    requires TotalPreorder(cmp) && TiedRepeat(cmp, s, a, b)
    ensures IsSortOf(cmp, s, bad)
    ensures k + 2 < |bad| && bad[k] == a && bad[k + 1] == b && bad[k + 2] == a
  {
    hide TotalPreorder, Position, Insert, SortOf, Without, Sorted;
    var rest := Without(Without(Without(s, a), b), a);
    TakenOut(s, a, b);
    var t := SortOf(cmp, rest);
    k := Position(cmp, t, a);
    var one := Insert(cmp, t, a);
    var two := Insert(cmp, one, b);
    bad := Insert(cmp, two, a);
    SortOfSorted(cmp, rest);
    InsertSorted(cmp, t, a);
    InsertSorted(cmp, one, b);
    InsertSorted(cmp, two, a);
    Flip(cmp, a, b);
    SamePosition(cmp, t, a, b);
    SamePosition(cmp, one, b, a);
    InsertShape(cmp, t, a);
    InsertShape(cmp, one, b);
    InsertShape(cmp, two, a);
  }

  lemma TakenOut(s: seq<word>, a: word, b: word)
    requires a in s && b in s && a != b && multiset(s)[a] >= 2
    ensures multiset(Without(Without(Without(s, a), b), a)) + multiset{a} + multiset{b} + multiset{a} == multiset(s)
  {
    hide Without;
    var r := Without(s, a);
    assert b in multiset(s) && b in multiset(r) && a in multiset(r);
    var q := Without(r, b);
    var mq: multiset<word>, mr: multiset<word> := multiset(q), multiset(r);
    assert mq[a] == mr[a] >= 1;
  }

  /** Inserting y right after an equal x puts it in front of x. */
  lemma SamePosition(cmp: Compare<word>, t: seq<word>, x: word, y: word)
    requires TotalPreorder(cmp) && cmp(x, y) == 0
    ensures Position(cmp, Insert(cmp, t, x), y) == Position(cmp, t, x)
  {
    hide TotalPreorder;
    var k := Position(cmp, t, x);
    var one := Insert(cmp, t, x);
    forall i | 0 <= i < k
      ensures cmp(one[i], y) < 0
    {
      assert one[i] == t[i];
      Trans(cmp, t[i], x, y);
    }
    assert one[k] == x;
    PositionUnique(cmp, one, y, k);
  }

  lemma PositionUnique(cmp: Compare<word>, s: seq<word>, x: word, k: nat)
    requires k < |s| && cmp(s[k], x) >= 0 && forall i :: 0 <= i < k ==> cmp(s[i], x) < 0
    ensures Position(cmp, s, x) == k
  {
    var p := Position(cmp, s, x);
    assert p < |s| ==> cmp(s[p], x) >= 0;
  }

  /** s with the first w taken out. */
  function Without(s: seq<word>, w: word): (r: seq<word>)
    ensures w in s ==> multiset(r) + multiset{w} == multiset(s)
  {
    if s == [] then []
    else if s[0] == w then
      assert s == [s[0]] + s[1..];
      s[1..]
    else
      assert s == [s[0]] + s[1..];
      [s[0]] + Without(s[1..], w)
  }

  /** adb_wa_sort_unique. Whatever order the sort leaves, the pass keeps exactly
      the same words. Every order it can leave yields each word once exactly when
      no repeated word compares equal to a different one. */
  lemma SortUnique(cmp: Compare<word>, s: seq<word>)
    requires TotalPreorder(cmp)
    ensures forall sorted, w :: IsSortOf(cmp, s, sorted) ==> (w in DropAdjacent(sorted) <==> w in s)
    ensures (forall sorted :: IsSortOf(cmp, s, sorted) ==> NoRepeats(DropAdjacent(sorted))) <==> !RepeatedTie(cmp, s)
  {
    hide TotalPreorder, DropAdjacent;
    forall sorted, w | IsSortOf(cmp, s, sorted)
      ensures w in DropAdjacent(sorted) <==> w in s
    {
      DropAdjacentMembers(sorted);
      SameMembers(s, sorted);
    }
    if RepeatedTie(cmp, s) {
      var a, b :| TiedRepeat(cmp, s, a, b);
      var bad, k := BadOrder(cmp, s, a, b);
      KeepsBoth(bad, k);
      assert IsSortOf(cmp, s, bad) && !NoRepeats(DropAdjacent(bad));
    } else {
      forall sorted | IsSortOf(cmp, s, sorted)
        ensures NoRepeats(DropAdjacent(sorted))
      {
        SameMembers(s, sorted);
        TieTransfers(cmp, s, sorted);
        DropAdjacentOnce(cmp, sorted, |sorted|);
        assert sorted[..|sorted|] == sorted;
      }
    }
  }

  lemma TieTransfers(cmp: Compare<word>, s: seq<word>, sorted: seq<word>)
    requires multiset(s) == multiset(sorted)
    ensures RepeatedTie(cmp, sorted) ==> RepeatedTie(cmp, s)
  {
    if RepeatedTie(cmp, sorted) {
      SameMembers(s, sorted);
      var a, b :| TiedRepeat(cmp, sorted, a, b);
      assert TiedRepeat(cmp, s, a, b);
    }
  }

  lemma KeepsBoth(s: seq<word>, k: nat)
    requires k + 2 < |s| && s[k] == s[k + 2] != s[k + 1]
    ensures !NoRepeats(DropAdjacent(s))
  {
    hide DropAdjacent;
    var x, y := s[..k + 1], s[k + 1..];
    assert s == x + y;
    DropAdjacentSplit(x, y);
    DropAdjacentMembers(x);
    DropAdjacentMembers(y);
    assert x[k] in x && y[1] in y && s[k] == x[k] && s[k + 2] == y[1];
    var dx, dy := DropAdjacent(x), DropAdjacent(y);
    var i :| 0 <= i < |dx| && dx[i] == s[k];
    var j :| 0 <= j < |dy| && dy[j] == s[k];
    assert (dx + dy)[i] == (dx + dy)[|dx| + j];
  }

  /** When different words never compare equal, the result is strictly sorted. */
  lemma SortUniqueStrict(cmp: Compare<word>, s: seq<word>, sorted: seq<word>)
    requires TotalPreorder(cmp) && IsSortOf(cmp, s, sorted)
    requires forall a, b :: a in s && b in s && cmp(a, b) == 0 ==> a == b
    ensures forall i, j :: 0 <= i < j < |DropAdjacent(sorted)| ==> cmp(DropAdjacent(sorted)[i], DropAdjacent(sorted)[j]) < 0
  {
    hide TotalPreorder;
    SameMembers(s, sorted);
    DropAdjacentSorted(cmp, sorted);
    assert !RepeatedTie(cmp, sorted);
    DropAdjacentOnce(cmp, sorted, |sorted|);
    assert sorted[..|sorted|] == sorted;
    DropAdjacentMembers(sorted);
    var r := DropAdjacent(sorted);
    forall i, j | 0 <= i < j < |r|
      ensures cmp(r[i], r[j]) < 0
    {
      assert r[i] in r && r[j] in r;
      assert cmp(r[i], r[j]) <= 0;
    }
  }

  lemma {:induction false} DropAdjacentSorted(cmp: Compare<word>, s: seq<word>)
    requires Sorted(cmp, s)
    ensures Sorted(cmp, DropAdjacent(s))
  {
    if |s| > 1 {
      var front, w := s[..|s| - 1], s[|s| - 1];
      DropAdjacentSorted(cmp, front);
      DropAdjacentMembers(front);
      var rest := DropAdjacent(front);
      forall i | 0 <= i < |rest|
        ensures cmp(rest[i], w) <= 0
      {
        assert rest[i] in front;
        var k :| 0 <= k < |front| && front[k] == rest[i];
        assert cmp(s[k], s[|s| - 1]) <= 0;
      }
    }
  }
}
