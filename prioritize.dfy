/** Prioritisation: a stable sort of activity records by duration, longest
    first.  `SortByDuration` is the specification, a stable insertion sort on
    sequences; `InsertionSort` is the in-place array algorithm proved equal
    to it. */
module Prioritize {
  import opened Activities

  /** Durations never increase along `s`. */
  ghost predicate Sorted(s: seq<Activity>) {
    forall i, j :: 0 <= i < j < |s| ==> s[i].duration >= s[j].duration
  }

  /** The records of `s` whose duration is `k`, in their order in `s`. */
  function WithDuration(s: seq<Activity>, k: nat): (r: seq<Activity>)
    ensures |r| <= |s|
  {
    if s == [] then []
    else WithDuration(s[..|s| - 1], k) + (if s[|s| - 1].duration == k then [s[|s| - 1]] else [])
  }

  /** `x` placed after the records of `r` that are at least as long as it,
      and before the shorter ones at the end of `r`. */
  function Insert(r: seq<Activity>, x: Activity): (t: seq<Activity>)
    ensures |t| == |r| + 1
  {
    if r == [] || r[|r| - 1].duration >= x.duration then r + [x]
    else Insert(r[..|r| - 1], x) + [r[|r| - 1]]
  }

  /** The stable sort by duration, longest first. */
  function SortByDuration(s: seq<Activity>): (t: seq<Activity>)
    ensures |t| == |s|
  {
    if s == [] then [] else Insert(SortByDuration(s[..|s| - 1]), s[|s| - 1])
  }

  // ---- Insert ----

  /** Insert only adds `x`. */
  lemma {:induction false} InsertPermutes(r: seq<Activity>, x: Activity)
    ensures multiset(Insert(r, x)) == multiset(r) + multiset{x}
  {
    if r == [] || r[|r| - 1].duration >= x.duration {
    } else {
      var init, last := r[..|r| - 1], r[|r| - 1];
      InsertPermutes(init, x);
      assert r == init + [last];
    }
  }

  /** Insert keeps a sorted sequence sorted. */
  lemma {:induction false} InsertSorted(r: seq<Activity>, x: Activity)
    requires Sorted(r)
    ensures Sorted(Insert(r, x))
  {
    if r == [] || r[|r| - 1].duration >= x.duration {
    } else {
      var init, last := r[..|r| - 1], r[|r| - 1];
      InsertSorted(init, x);
      var t := Insert(init, x);
      InsertPermutes(init, x);
      forall i | 0 <= i < |t| ensures t[i].duration >= last.duration {
        assert t[i] in multiset(t);
        assert t[i] == x || t[i] in multiset(init);
        if t[i] != x {
          var k :| 0 <= k < |init| && init[k] == t[i];
          assert init[k] == r[k];
        }
      }
    }
  }

  lemma {:induction false} WithDurationAppend(a: seq<Activity>, b: seq<Activity>, k: nat)
    ensures WithDuration(a + b, k) == WithDuration(a, k) + WithDuration(b, k)
  {
    if b == [] {
      assert a + b == a;
    } else {
      var init, last := b[..|b| - 1], b[|b| - 1];
      assert (a + b)[..|a + b| - 1] == a + init;
      WithDurationAppend(a, init, k);
    }
  }

  /** Insert never moves `x` past a record of its own duration. */
  lemma {:induction false} InsertStable(r: seq<Activity>, x: Activity, k: nat)
    ensures WithDuration(Insert(r, x), k) == WithDuration(r, k) + WithDuration([x], k)
  {
    if r == [] || r[|r| - 1].duration >= x.duration {
      WithDurationAppend(r, [x], k);
    } else {
      var init, last := r[..|r| - 1], r[|r| - 1];
      InsertStable(init, x, k);
      WithDurationAppend(Insert(init, x), [last], k);
      assert [x][..0] == [] && [last][..0] == [];
      assert WithDuration([x], k) == [] || WithDuration([last], k) == [];
    }
  }

  /** Into a sequence whose last record is at least as long as `x`, Insert
      appends; in particular a record placed at position `j` stays put. */
  lemma {:induction false} InsertAt(p: seq<Activity>, x: Activity, j: nat)
    requires j <= |p|
    requires j == 0 || p[j - 1].duration >= x.duration
    requires forall k :: j <= k < |p| ==> p[k].duration < x.duration
    ensures Insert(p, x) == p[..j] + [x] + p[j..]
  {
    if j == |p| {
      assert p[..j] == p && p[j..] == [];
    } else {
      var init, last := p[..|p| - 1], p[|p| - 1];
      InsertAt(init, x, j);
      assert init[..j] == p[..j];
      assert init[j..] + [last] == p[j..];
    }
  }

  // ---- SortByDuration ----

  /** The sort is a permutation of its input. */
  lemma {:induction false} SortPermutes(s: seq<Activity>)
    ensures multiset(SortByDuration(s)) == multiset(s)
  {
    if s != [] {
      var init, last := s[..|s| - 1], s[|s| - 1];
      SortPermutes(init);
      InsertPermutes(SortByDuration(init), last);
      assert s == init + [last];
    }
  }

  /** The sort leaves durations non-increasing. */
  lemma {:induction false} SortSorted(s: seq<Activity>)
    ensures Sorted(SortByDuration(s))
  {
    if s != [] {
      SortSorted(s[..|s| - 1]);
      InsertSorted(SortByDuration(s[..|s| - 1]), s[|s| - 1]);
    }
  }

  /** The sort is stable: the records of any one duration keep their order. */
  lemma {:induction false} SortStable(s: seq<Activity>, k: nat)
    ensures WithDuration(SortByDuration(s), k) == WithDuration(s, k)
  {
    if s != [] {
      var init, last := s[..|s| - 1], s[|s| - 1];
      SortStable(init, k);
      InsertStable(SortByDuration(init), last, k);
      assert [last][..0] == [];
    }
  }

  /** The three promises of the sort together: a permutation, sorted
      longest first, and stable within each duration. */
  lemma SortCorrect(s: seq<Activity>)
    ensures multiset(SortByDuration(s)) == multiset(s)
    ensures Sorted(SortByDuration(s))
    ensures forall k: nat :: WithDuration(SortByDuration(s), k) == WithDuration(s, k)
  {
    SortPermutes(s);
    SortSorted(s);
    forall k: nat ensures WithDuration(SortByDuration(s), k) == WithDuration(s, k) {
      SortStable(s, k);
    }
  }

  /** An already sorted sequence is left as it is. */
  lemma {:induction false} SortOfSorted(s: seq<Activity>)
    requires Sorted(s)
    ensures SortByDuration(s) == s
  {
    if s != [] {
      var init, last := s[..|s| - 1], s[|s| - 1];
      assert Sorted(init) by {
        forall i, j | 0 <= i < j < |init| ensures init[i].duration >= init[j].duration {
          assert init[i] == s[i] && init[j] == s[j];
        }
      }
      SortOfSorted(init);
      assert init == [] || init[|init| - 1].duration >= last.duration;
      assert SortByDuration(s) == Insert(init, last) == init + [last];
      assert s == init + [last];
    }
  }

  /** Sorting twice gives what sorting once gives. */
  lemma SortIdempotent(s: seq<Activity>)
    ensures SortByDuration(SortByDuration(s)) == SortByDuration(s)
  {
    SortSorted(s);
    SortOfSorted(SortByDuration(s));
  }

  /** The sort keeps its input's records, each as often as before. */
  lemma SortKeepsRecords(s: seq<Activity>, a: Activity)
    ensures a in SortByDuration(s) <==> a in s
    ensures multiset(SortByDuration(s))[a] == multiset(s)[a]
  {
    SortPermutes(s);
    assert a in SortByDuration(s) <==> a in multiset(SortByDuration(s));
  }

  lemma {:induction false} WithDurationMembers(s: seq<Activity>, k: nat, x: Activity)
    requires x in WithDuration(s, k)
    ensures x in s && x.duration == k
  {
    var init, last := s[..|s| - 1], s[|s| - 1];
    if x in WithDuration(init, k) {
      WithDurationMembers(init, k, x);
      assert init == s[..|s| - 1];
    }
  }

  /** In a sorted sequence the last record is among the shortest, so two
      sorted sequences with the same records per duration end in records of
      the same duration. */
  lemma LastDurationsAgree(u: seq<Activity>, v: seq<Activity>)
    requires Sorted(u) && Sorted(v) && u != [] && v != []
    requires forall k: nat :: WithDuration(u, k) == WithDuration(v, k)
    ensures u[|u| - 1].duration == v[|v| - 1].duration
  {
    var a, b := u[|u| - 1], v[|v| - 1];
    assert a in WithDuration(u, a.duration) by { LastInOwnGroup(u); }
    assert b in WithDuration(v, b.duration) by { LastInOwnGroup(v); }
    WithDurationMembers(v, a.duration, a);
    WithDurationMembers(u, b.duration, b);
    AtLeastLast(v, a);
    AtLeastLast(u, b);
  }

  lemma LastInOwnGroup(s: seq<Activity>)
    requires s != []
    ensures s[|s| - 1] in WithDuration(s, s[|s| - 1].duration)
  {
  }

  /** A record of a sorted sequence is no shorter than its last record. */
  lemma AtLeastLast(s: seq<Activity>, x: Activity)
    requires Sorted(s) && x in s
    ensures x.duration >= s[|s| - 1].duration
  {
  }

  /** Dropping last records of the same duration from two sequences with
      the same records per duration drops the same record, and what is left
      still has the same records per duration. */
  lemma DropLastGroups(u: seq<Activity>, a: Activity, v: seq<Activity>, b: Activity)
    requires a.duration == b.duration
    requires forall k: nat :: WithDuration(u + [a], k) == WithDuration(v + [b], k)
    ensures a == b
    ensures forall k: nat :: WithDuration(u, k) == WithDuration(v, k)
  {
    assert (u + [a])[..|u|] == u && (v + [b])[..|v|] == v;
    forall k: nat ensures WithDuration(u, k) == WithDuration(v, k) {
      var wu, wv := WithDuration(u, k), WithDuration(v, k);
      if a.duration == k {
        assert WithDuration(u + [a], k) == wu + [a];
        assert WithDuration(v + [b], k) == wv + [b];
        assert (wu + [a])[..|wu|] == wu && (wv + [b])[..|wv|] == wv;
      } else {
        assert WithDuration(u + [a], k) == wu;
        assert WithDuration(v + [b], k) == wv;
      }
    }
    assert WithDuration(u + [a], a.duration) == WithDuration(u, a.duration) + [a];
    assert WithDuration(v + [b], a.duration) == WithDuration(v, a.duration) + [b];
  }

  /** Two sorted sequences that agree on the records of every duration are
      the same sequence. */
  lemma {:induction false} SortedGroupsDetermine(u: seq<Activity>, v: seq<Activity>)
    requires Sorted(u) && Sorted(v)
    requires forall k: nat :: WithDuration(u, k) == WithDuration(v, k)
    ensures u == v
  {
    if u == [] || v == [] {
      if u != [] {
        LastInOwnGroup(u);
        assert false;
      } else if v != [] {
        LastInOwnGroup(v);
        assert false;
      }
    } else {
      var u', a := u[..|u| - 1], u[|u| - 1];
      var v', b := v[..|v| - 1], v[|v| - 1];
      assert u == u' + [a] && v == v' + [b];
      LastDurationsAgree(u, v);
      DropLastGroups(u', a, v', b);
      SortedGroupsDetermine(u', v');
    }
  }

  /** The sort is the only stable ordering by duration: a sorted sequence
      with the records of each duration in the order `s` has them is the
      sort of `s`. */
  lemma SortUnique(s: seq<Activity>, t: seq<Activity>)
    requires Sorted(t)
    requires forall k: nat :: WithDuration(t, k) == WithDuration(s, k)
    ensures t == SortByDuration(s)
  {
    var r := SortByDuration(s);
    SortSorted(s);
    forall k: nat ensures WithDuration(t, k) == WithDuration(r, k) {
      SortStable(s, k);
    }
    SortedGroupsDetermine(t, r);
  }

  /** The example of durations 30, 90, 90, 10: the two 90s come first in
      their original order, then 30, then 10. */
  lemma SortExample(a: Activity, b: Activity, c: Activity, d: Activity)
    requires a.duration == 30 && b.duration == 90 && c.duration == 90 && d.duration == 10
    ensures SortByDuration([a, b, c, d]) == [b, c, a, d]
  {
    assert [a, b, c, d][..3] == [a, b, c];
    assert [a, b, c][..2] == [a, b];
    assert [a, b][..1] == [a];
    assert [a][..0] == [];
    assert SortByDuration([a]) == [a];
    assert Insert([a], b) == Insert([], b) + [a] == [b, a];
    assert [b, a][..1] == [b];
    assert Insert([b, a], c) == Insert([b], c) + [a] == [b, c, a];
    assert SortByDuration([a, b]) == [b, a];
    assert SortByDuration([a, b, c]) == [b, c, a];
    assert Insert([b, c, a], d) == [b, c, a, d];
  }

  // ---- the in-place algorithm ----

  /** Moves `a[i]` leftwards past the records before it that are shorter,
      shifting them one place right: insertion of `a[i]` into `a[..i]`. */
  method InsertLast(a: array<Activity>, i: nat)
    requires i < a.Length
    modifies a
    ensures a[..i + 1] == Insert(old(a[..i]), old(a[i]))
    ensures a[i + 1..] == old(a[i + 1..])
  {
    ghost var p := a[..i];
    var x := a[i];
    var j := i;
    while j > 0 && a[j - 1].duration < x.duration
      invariant 0 <= j <= i
      invariant forall k :: 0 <= k < j ==> a[k] == p[k]
      invariant forall k :: j < k <= i ==> a[k] == p[k - 1]
      invariant forall k :: i < k < a.Length ==> a[k] == old(a[k])
      invariant forall k :: j <= k < i ==> p[k].duration < x.duration
    {
      a[j] := a[j - 1];
      j := j - 1;
    }
    a[j] := x;
    InsertAt(p, x, j);
    assert a[..i + 1] == p[..j] + [x] + p[j..] by {
      forall k | 0 <= k <= i ensures a[..i + 1][k] == (p[..j] + [x] + p[j..])[k] {
        if k > j { assert (p[..j] + [x] + p[j..])[k] == p[k - 1]; }
      }
    }
  }

  /** Sorts `a` in place by duration, longest first, keeping records of
      equal duration in their prior order. */
  method InsertionSort(a: array<Activity>)
    modifies a
    ensures a[..] == SortByDuration(old(a[..]))
  {
    ghost var input := a[..];
    var i := 0;
    while i < a.Length
      invariant 0 <= i <= a.Length
      invariant a[..i] == SortByDuration(input[..i])
      invariant a[i..] == input[i..]
    {
      assert input[..i + 1][..i] == input[..i];
      assert a[i] == input[i];
      InsertLast(a, i);
      i := i + 1;
    }
    assert a[..] == a[..a.Length] && input == input[..a.Length];
  }
}
