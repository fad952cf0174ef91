/** The stable comparison sort of the standard library, as an insertion sort on values. */
module StableSort {

  ghost predicate TotalPreorder<T(!new)>(leq: (T, T) -> bool) {
    && (forall x, y :: leq(x, y) || leq(y, x))
    && (forall x, y, z :: leq(x, y) && leq(y, z) ==> leq(x, z))
  }

  ghost predicate Sorted<T>(s: seq<T>, leq: (T, T) -> bool) {
    forall i, j | 0 <= i < j < |s| :: leq(s[i], s[j])
  }

  /** Inserts `x` after every element that is not greater, scanning from the back. */
  function Insert<T>(s: seq<T>, x: T, leq: (T, T) -> bool): (r: seq<T>)
    ensures multiset(r) == multiset(s) + multiset{x}
    ensures |r| == |s| + 1
  {
    if s == [] then [x]
    else
      var last := s[|s| - 1];
      assert s == s[..|s| - 1] + [last];
      if leq(last, x) then s + [x]
      else Insert(s[..|s| - 1], x, leq) + [last]
  }

  function Sort<T>(s: seq<T>, leq: (T, T) -> bool): (r: seq<T>)
    ensures multiset(r) == multiset(s)
    ensures |r| == |s|
  {
    if s == [] then []
    else
      assert s == s[..|s| - 1] + [s[|s| - 1]];
      Insert(Sort(s[..|s| - 1], leq), s[|s| - 1], leq)
  }

  lemma {:induction false} InsertSorted<T(!new)>(s: seq<T>, x: T, leq: (T, T) -> bool)
    requires TotalPreorder(leq) && Sorted(s, leq)
    ensures Sorted(Insert(s, x, leq), leq)
  {
    if s != [] {
      var init, last := s[..|s| - 1], s[|s| - 1];
      if !leq(last, x) {
        InsertSorted(init, x, leq);
        var r := Insert(init, x, leq);
        forall i | 0 <= i < |r| ensures leq(r[i], last) {
          assert r[i] in multiset(r);
          assert r[i] in multiset(init) || r[i] == x;
        }
      } else {
        forall i | 0 <= i < |s| ensures leq(s[i], x) {
          if i < |s| - 1 { assert leq(s[i], last); }
        }
      }
    }
  }

  lemma {:induction false} SortSorts<T(!new)>(s: seq<T>, leq: (T, T) -> bool)
    requires TotalPreorder(leq)
    ensures Sorted(Sort(s, leq), leq)
  {
    if s != [] {
      SortSorts(s[..|s| - 1], leq);
      InsertSorted(Sort(s[..|s| - 1], leq), s[|s| - 1], leq);
    }
  }

  /** Sorting neither adds nor drops elements, so distinctness under a key survives. */
  lemma {:induction false} SortMembers<T(!new)>(s: seq<T>, leq: (T, T) -> bool)
    ensures forall x :: x in Sort(s, leq) <==> x in s
  {
    forall x ensures x in Sort(s, leq) <==> x in s {
      assert x in multiset(Sort(s, leq)) <==> x in multiset(s);
    }
  }

  lemma {:induction false} DistinctByCount<T(!new)>(s: seq<T>)
    requires forall x :: x in s ==> multiset(s)[x] == 1
    ensures forall i, j | 0 <= i < j < |s| :: s[i] != s[j]
  {
    forall i, j | 0 <= i < j < |s| ensures s[i] != s[j] {
      assert s == s[..j] + [s[j]] + s[j + 1..];
      assert multiset(s) == multiset(s[..j]) + multiset{s[j]} + multiset(s[j + 1..]);
      assert s[i] in s[..j] && multiset(s[..j])[s[i]] >= 1;
      assert s[j] in s && multiset(s)[s[j]] == 1;
    }
  }

  lemma {:induction false} CountByDistinct<T(!new)>(s: seq<T>)
    requires forall i, j | 0 <= i < j < |s| :: s[i] != s[j]
    ensures forall x :: x in s ==> multiset(s)[x] == 1
  {
    if s != [] {
      var n := |s| - 1;
      CountByDistinct(s[..n]);
      assert s == s[..n] + [s[n]];
      assert s[n] !in s[..n];
      assert s[n] !in multiset(s[..n]);
    }
  }

  /** A sequence without repetitions sorts to a sequence without repetitions. */
  lemma {:induction false} SortKeepsDistinct<T(!new)>(s: seq<T>, leq: (T, T) -> bool)
    requires forall i, j | 0 <= i < j < |s| :: s[i] != s[j]
    ensures forall i, j | 0 <= i < j < |Sort(s, leq)| :: Sort(s, leq)[i] != Sort(s, leq)[j]
  {
    CountByDistinct(s);
    SortMembers(s, leq);
    DistinctByCount(Sort(s, leq));
  }

  function Filter<T(!new)>(s: seq<T>, keep: T -> bool): (r: seq<T>)
    ensures forall x :: x in r <==> x in s && keep(x)
  {
    if s == [] then []
    else
      assert s == s[..|s| - 1] + [s[|s| - 1]];
      Filter(s[..|s| - 1], keep) + if keep(s[|s| - 1]) then [s[|s| - 1]] else []
  }

  lemma {:induction false} FilterKeepsDistinct<T(!new)>(s: seq<T>, keep: T -> bool)
    requires forall i, j | 0 <= i < j < |s| :: s[i] != s[j]
    ensures forall i, j | 0 <= i < j < |Filter(s, keep)| :: Filter(s, keep)[i] != Filter(s, keep)[j]
  {
    if s != [] {
      FilterKeepsDistinct(s[..|s| - 1], keep);
      assert s[|s| - 1] !in s[..|s| - 1];
    }
  }

  lemma FilterSnoc<T(!new)>(s: seq<T>, n: nat, keep: T -> bool)
    requires n < |s|
    ensures Filter(s[..n + 1], keep) == Filter(s[..n], keep) + if keep(s[n]) then [s[n]] else []
  {
    assert s[..n + 1][..n] == s[..n];
  }

  // --- Stability ---------------------------------------------------------------------------------

  function Tied<T(!new)>(x: T, leq: (T, T) -> bool): T -> bool {
    (y: T) => leq(x, y) && leq(y, x)
  }

  lemma {:induction false} FilterEnd<T(!new)>(s: seq<T>, x: T, keep: T -> bool)
    ensures Filter(s + [x], keep) == Filter(s, keep) + if keep(x) then [x] else []
  {
    assert (s + [x])[..|s|] == s;
  }

  lemma NotBothTied<T(!new)>(x: T, y: T, leq: (T, T) -> bool, key: T)
    requires TotalPreorder(leq) && !leq(x, y)
    ensures !(Tied(key, leq)(x) && Tied(key, leq)(y))
  {
  }

  /** A newcomer lines up behind everything it ties with. */
  lemma {:induction false} InsertStable<T(!new)>(s: seq<T>, x: T, leq: (T, T) -> bool, key: T)
    requires TotalPreorder(leq)
    ensures Filter(Insert(s, x, leq), Tied(key, leq)) == Filter(s + [x], Tied(key, leq))
  {
    hide Filter, TotalPreorder, Tied;
    var keep := Tied(key, leq);
    if s == [] {
      assert s + [x] == [x];
    } else if !leq(s[|s| - 1], x) {
      var init, last := s[..|s| - 1], s[|s| - 1];
      InsertStable(init, x, leq, key);
      FilterEnd(Insert(init, x, leq), last, keep);
      FilterEnd(init, x, keep);
      FilterEnd(init, last, keep);
      FilterEnd(s, x, keep);
      assert init + [last] == s;
      NotBothTied(last, x, leq, key);
    }
  }

  /** Sorting keeps elements that tie in their original order. */
  lemma {:induction false} SortStable<T(!new)>(s: seq<T>, leq: (T, T) -> bool, key: T)
    requires TotalPreorder(leq)
    ensures Filter(Sort(s, leq), Tied(key, leq)) == Filter(s, Tied(key, leq))
  {
    if s != [] {
      var n := |s| - 1;
      SortStable(s[..n], leq, key);
      InsertStable(Sort(s[..n], leq), s[n], leq, key);
      FilterEnd(Sort(s[..n], leq), s[n], Tied(key, leq));
      FilterEnd(s[..n], s[n], Tied(key, leq));
      assert s[..n] + [s[n]] == s;
    }
  }
}
