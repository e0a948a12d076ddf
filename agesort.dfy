/**
  The ordering step of `list_pull_requests`: `detailed_prs.sort_by_key(|(_, age)| *age)`,
  a stable sort of the (PR, age) pairs by ascending age. The reference is insertion
  from the back, which keeps equal ages in their original order; the lemmas show it
  is a sorted permutation that keeps equal ages in order, and that these two
  properties pin the result down, so any stable sort (the standard library's
  included) gives the same sequence. The in-place method sorts an array to that result.
 */
module AgeSort {
  import opened Models

  predicate SortedByAge(s: seq<AgedPR>) {
    forall i, j :: 0 <= i < j < |s| ==> s[i].ageDays <= s[j].ageDays
  }

  /** Inserts `x` after every element whose age is at most its own. */
  function Insert(s: seq<AgedPR>, x: AgedPR): (r: seq<AgedPR>)
    ensures |r| == |s| + 1
    decreases |s|
  {
    if |s| == 0 || s[|s| - 1].ageDays <= x.ageDays then s + [x]
    else Insert(s[..|s| - 1], x) + [s[|s| - 1]]
  }

  /** The stable sort by ascending age. */
  function SortByAge(s: seq<AgedPR>): (r: seq<AgedPR>)
    ensures |r| == |s|
    decreases |s|
  {
    if |s| == 0 then [] else Insert(SortByAge(s[..|s| - 1]), s[|s| - 1])
  }

  /** The elements of a given age, in order. */
  function WithAge(s: seq<AgedPR>, age: int): seq<AgedPR>
    decreases |s|
  {
    if |s| == 0 then []
    else WithAge(s[..|s| - 1], age) + (if s[|s| - 1].ageDays == age then [s[|s| - 1]] else [])
  }

  // ---- a permutation ----

  lemma {:induction false} InsertPermutes(s: seq<AgedPR>, x: AgedPR)
    ensures multiset(Insert(s, x)) == multiset(s) + multiset{x}
    decreases |s|
  {
    if |s| > 0 && s[|s| - 1].ageDays > x.ageDays {
      InsertPermutes(s[..|s| - 1], x);
      assert s == s[..|s| - 1] + [s[|s| - 1]];
    }
  }

  /** The result holds exactly the input pairs. */
  lemma {:induction false} SortByAgePermutes(s: seq<AgedPR>)
    ensures multiset(SortByAge(s)) == multiset(s)
    decreases |s|
  {
    if |s| > 0 {
      SortByAgePermutes(s[..|s| - 1]);
      InsertPermutes(SortByAge(s[..|s| - 1]), s[|s| - 1]);
      assert s == s[..|s| - 1] + [s[|s| - 1]];
    }
  }

  // ---- sorted ----

  lemma {:induction false} InsertKeepsSorted(s: seq<AgedPR>, x: AgedPR)
    requires SortedByAge(s)
    ensures SortedByAge(Insert(s, x))
    decreases |s|
  {
    if |s| == 0 || s[|s| - 1].ageDays <= x.ageDays {
    } else {
      var front := s[..|s| - 1];
      var last := s[|s| - 1];
      InsertKeepsSorted(front, x);
      InsertPermutes(front, x);
      var r' := Insert(front, x);
      forall k | 0 <= k < |r'|
        ensures r'[k].ageDays <= last.ageDays
      {
        assert r'[k] in multiset(r');
        assert r'[k] in multiset(front) || r'[k] == x;
      }
    }
  }

  /** The result is in ascending age order (the youngest PR first). */
  lemma {:induction false} SortByAgeSorted(s: seq<AgedPR>)
    ensures SortedByAge(SortByAge(s))
    decreases |s|
  {
    if |s| > 0 {
      SortByAgeSorted(s[..|s| - 1]);
      InsertKeepsSorted(SortByAge(s[..|s| - 1]), s[|s| - 1]);
    }
  }

  // ---- stable ----

  lemma {:induction false} WithAgeAppend(a: seq<AgedPR>, b: seq<AgedPR>, age: int)
    ensures WithAge(a + b, age) == WithAge(a, age) + WithAge(b, age)
    decreases |b|
  {
    if |b| > 0 {
      var b' := b[..|b| - 1];
      var last := b[|b| - 1];
      assert (a + b)[..|a + b| - 1] == a + b';
      assert (a + b)[|a + b| - 1] == last;
      WithAgeAppend(a, b', age);
      var tail := if last.ageDays == age then [last] else [];
      calc {
        WithAge(a + b, age);
        WithAge(a + b', age) + tail;
        WithAge(a, age) + WithAge(b', age) + tail;
        WithAge(a, age) + (WithAge(b', age) + tail);
        WithAge(a, age) + WithAge(b, age);
      }
    } else {
      assert a + b == a;
    }
  }

  lemma {:induction false} InsertWithAge(s: seq<AgedPR>, x: AgedPR, age: int)
    requires SortedByAge(s)
    ensures WithAge(Insert(s, x), age) == WithAge(s + [x], age)
    decreases |s|
  {
    if |s| == 0 || s[|s| - 1].ageDays <= x.ageDays {
    } else {
      var front := s[..|s| - 1];
      var last := s[|s| - 1];
      InsertWithAge(front, x, age);
      WithAgeAppend(Insert(front, x), [last], age);
      WithAgeAppend(front + [x], [last], age);
      WithAgeAppend(front, [x], age);
      WithAgeAppend(front, [last], age);
      WithAgeAppend(front + [last], [x], age);
      assert front + [last] == s;
      // `last` is older than `x`, so at most one of them has the given age
      assert WithAge([x], age) + WithAge([last], age) == WithAge([last], age) + WithAge([x], age);
      assert Insert(s, x) == Insert(front, x) + [last];
    }
  }

  /** Stability: among PRs of equal age the order of the input is kept. */
  lemma {:induction false} SortByAgeStable(s: seq<AgedPR>, age: int)
    ensures WithAge(SortByAge(s), age) == WithAge(s, age)
    decreases |s|
  {
    if |s| > 0 {
      var front := s[..|s| - 1];
      SortByAgeStable(front, age);
      SortByAgeSorted(front);
      InsertWithAge(SortByAge(front), s[|s| - 1], age);
      WithAgeAppend(SortByAge(front), [s[|s| - 1]], age);
      WithAgeAppend(front, [s[|s| - 1]], age);
      assert front + [s[|s| - 1]] == s;
    }
  }

  // ---- unique ----

  lemma {:induction false} WithAgeCounts(s: seq<AgedPR>, x: AgedPR)
    ensures multiset(WithAge(s, x.ageDays))[x] == multiset(s)[x]
    decreases |s|
  {
    if |s| > 0 {
      var front := s[..|s| - 1];
      WithAgeCounts(front, x);
      assert s == front + [s[|s| - 1]];
    }
  }

  /** Sequences with the same age groups hold the same elements. */
  lemma SameGroupsSameElements(t: seq<AgedPR>, r: seq<AgedPR>)
    requires forall age :: WithAge(t, age) == WithAge(r, age)
    ensures multiset(t) == multiset(r)
  {
    forall x
      ensures multiset(t)[x] == multiset(r)[x]
    {
      WithAgeCounts(t, x);
      WithAgeCounts(r, x);
      assert WithAge(t, x.ageDays) == WithAge(r, x.ageDays);
    }
  }

  /** Two sorted arrangements of the same elements end with the same age. */
  lemma SameLastAge(t: seq<AgedPR>, r: seq<AgedPR>)
    requires SortedByAge(t) && SortedByAge(r)
    requires multiset(t) == multiset(r) && |t| > 0
    ensures |r| == |t| && t[|t| - 1].ageDays == r[|r| - 1].ageDays
  {
    assert |t| == |multiset(t)| == |multiset(r)| == |r|;
    var n := |t|;
    var y, z := t[n - 1], r[n - 1];
    assert y in multiset(r) && z in multiset(t);
    var i :| 0 <= i < n && r[i] == y;
    var k :| 0 <= k < n && t[k] == z;
  }

  /** Equal groups of two sequences whose last elements have the same age: the last
      elements agree, and so do the groups of what precedes them. */
  lemma DropLastKeepsGroups(t: seq<AgedPR>, r: seq<AgedPR>, t': seq<AgedPR>, r': seq<AgedPR>)
    requires |t| > 0 && |r| > 0 && t[|t| - 1].ageDays == r[|r| - 1].ageDays
    requires t' == t[..|t| - 1] && r' == r[..|r| - 1]
    requires forall age :: WithAge(t, age) == WithAge(r, age)
    ensures t[|t| - 1] == r[|r| - 1]
    ensures forall age :: WithAge(t', age) == WithAge(r', age)
  {
    var y, z := t[|t| - 1], r[|r| - 1];
    var m := y.ageDays;
    assert WithAge(t, m) == WithAge(t', m) + [y];
    assert WithAge(r, m) == WithAge(r', m) + [z];
    assert WithAge(t', m) == WithAge(t, m)[..|WithAge(t, m)| - 1];
    assert WithAge(r', m) == WithAge(r, m)[..|WithAge(r, m)| - 1];
    forall age | age != m
      ensures WithAge(t', age) == WithAge(r', age)
    {
      assert WithAge(t, age) == WithAge(t', age);
      assert WithAge(r, age) == WithAge(r', age);
    }
  }

  /** A sorted sequence that keeps the order of every age group is the stable sort:
      two such sequences with the same groups are equal. */
  lemma {:induction false} SortedWithSameGroupsEqual(t: seq<AgedPR>, r: seq<AgedPR>)
    requires SortedByAge(t) && SortedByAge(r)
    requires forall age :: WithAge(t, age) == WithAge(r, age)
    ensures t == r
    decreases |t|
  {
    SameGroupsSameElements(t, r);
    if |t| == 0 {
      assert |r| == |multiset(r)| == 0;
    } else {
      SameLastAge(t, r);
      var t', r' := t[..|t| - 1], r[..|r| - 1];
      DropLastKeepsGroups(t, r, t', r');
      SortedWithSameGroupsEqual(t', r');
      assert t == t' + [t[|t| - 1]] && r == r' + [r[|r| - 1]];
    }
  }

  /** Any sorting of `s` that is stable gives `SortByAge(s)`. */
  lemma EveryStableSortAgrees(s: seq<AgedPR>, t: seq<AgedPR>)
    requires SortedByAge(t)
    requires forall age :: WithAge(t, age) == WithAge(s, age)
    ensures t == SortByAge(s)
  {
    SortByAgeSorted(s);
    forall age
      ensures WithAge(t, age) == WithAge(SortByAge(s), age)
    {
      SortByAgeStable(s, age);
    }
    SortedWithSameGroupsEqual(t, SortByAge(s));
  }

  /** PRs 10, 0 and 3 days old come out 0, 3, 10: the youngest first. */
  lemma SortExample(a: AgedPR, b: AgedPR, c: AgedPR)
    requires a.ageDays == 10 && b.ageDays == 0 && c.ageDays == 3
    ensures SortByAge([a, b, c]) == [b, c, a]
  {
    assert [a, b, c][..2] == [a, b];
    assert [a, b][..1] == [a];
    assert [a][..0] == [];
    assert SortByAge([a]) == [a];
    assert SortByAge([a, b]) == Insert([a], b) == [b, a];
    assert Insert([b, a], c) == Insert([b], c) + [a];
  }

  // ---- in place ----

  /** Inserting at the position the backward scan stops at. */
  lemma {:induction false} InsertAt(s: seq<AgedPR>, x: AgedPR, j: nat)
    requires j <= |s|
    requires j == 0 || s[j - 1].ageDays <= x.ageDays
    requires forall k :: j <= k < |s| ==> s[k].ageDays > x.ageDays
    ensures Insert(s, x) == s[..j] + [x] + s[j..]
    decreases |s|
  {
    if j < |s| {
      var front := s[..|s| - 1];
      InsertAt(front, x, j);
      assert front[..j] == s[..j];
      assert front[j..] + [s[|s| - 1]] == s[j..];
    }
  }

  /** Sorting one more element of a prefix is inserting it into the sorted prefix. */
  lemma SortByAgeSnoc(s: seq<AgedPR>, i: nat)
    requires i < |s|
    ensures SortByAge(s[..i + 1]) == Insert(SortByAge(s[..i]), s[i])
  {
    assert s[..i + 1][..i] == s[..i];
  }

  /** One round of the insertion sort: shift the elements of the prefix `a[..i]` that
      are older than `a[i]` one place right, and drop `a[i]` into the gap. */
  method InsertInPlace(a: array<AgedPR>, i: nat)
    requires i < a.Length
    modifies a
    ensures a[..i + 1] == Insert(old(a[..i]), old(a[i]))
    ensures forall k :: i < k < a.Length ==> a[k] == old(a[k])
  {
    ghost var s := a[..i];
    var x := a[i];
    var j := i;
    while j > 0 && a[j - 1].ageDays > x.ageDays
      invariant 0 <= j <= i
      invariant forall k :: 0 <= k < j ==> a[k] == s[k]
      invariant forall k :: j < k <= i ==> a[k] == s[k - 1]
      invariant forall k :: i < k < a.Length ==> a[k] == old(a[k])
      invariant forall k :: j <= k < i ==> s[k].ageDays > x.ageDays
    {
      a[j] := a[j - 1];
      j := j - 1;
    }
    a[j] := x;
    InsertAt(s, x, j);
    ghost var t := s[..j] + [x] + s[j..];
    assert forall k :: 0 <= k <= i ==> a[k] == t[k];
    assert a[..i + 1] == t;
  }

  /** `sort_by_key` on the vector of pairs, as insertion sort by shifting. */
  method SortByAgeInPlace(a: array<AgedPR>)
    modifies a
    ensures a[..] == SortByAge(old(a[..]))
  {
    ghost var a0 := a[..];
    var i := 0;
    while i < a.Length
      invariant 0 <= i <= a.Length
      invariant a[..i] == SortByAge(a0[..i])
      invariant forall k :: i <= k < a.Length ==> a[k] == a0[k]
    {
      InsertInPlace(a, i);
      SortByAgeSnoc(a0, i);
      i := i + 1;
    }
    assert a[..] == a[..a.Length];
    assert a0[..a.Length] == a0;
  }
}
