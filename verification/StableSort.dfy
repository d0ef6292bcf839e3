/** Stable sorting by a total preorder: the meaning of `sort_by_key` and `sort_by`. */
module StableSort {

  ghost predicate TotalPreorder<T(!new)>(le: (T, T) -> bool) {
    && (forall x, y :: le(x, y) || le(y, x))
    && (forall x, y, z :: le(x, y) && le(y, z) ==> le(x, z))
  }

  ghost predicate SortedBy<T>(s: seq<T>, le: (T, T) -> bool) {
    forall i, j | 0 <= i < j < |s| :: le(s[i], s[j])
  }

  /** Places `x` in front of the first element it may precede. */
  function Insert<T>(x: T, s: seq<T>, le: (T, T) -> bool): (r: seq<T>)
    ensures multiset(r) == multiset{x} + multiset(s)
    ensures |r| == |s| + 1
  {
    if s == [] || le(x, s[0]) then
      [x] + s
    else
      assert s == [s[0]] + s[1..];
      [s[0]] + Insert(x, s[1..], le)
  }

  function SortBy<T>(s: seq<T>, le: (T, T) -> bool): (r: seq<T>)
    ensures multiset(r) == multiset(s)
    ensures |r| == |s|
  {
    if s == [] then
      []
    else
      assert s == [s[0]] + s[1..];
      Insert(s[0], SortBy(s[1..], le), le)
  }

  lemma {:induction false} InsertSorted<T(!new)>(x: T, s: seq<T>, le: (T, T) -> bool)
    requires TotalPreorder(le) && SortedBy(s, le)
    ensures SortedBy(Insert(x, s, le), le)
  {
    var r := Insert(x, s, le);
    if s == [] {
    } else if le(x, s[0]) {
      forall i, j | 0 <= i < j < |r| ensures le(r[i], r[j]) {
        if i == 0 {
          assert le(s[0], s[j - 1]) by {
            assert le(s[0], s[0]);
          }
        }
      }
    } else {
      InsertSorted(x, s[1..], le);
      var t := Insert(x, s[1..], le);
      assert r == [s[0]] + t;
      forall i, j | 0 <= i < j < |r| ensures le(r[i], r[j]) {
        if i == 0 {
          assert t[j - 1] in multiset(t);
          assert t[j - 1] == x || t[j - 1] in s[1..];
        }
      }
    }
  }

  /** The result is in order. */
  lemma {:induction false} SortBySorted<T(!new)>(s: seq<T>, le: (T, T) -> bool)
    requires TotalPreorder(le)
    ensures SortedBy(SortBy(s, le), le)
  {
    if s != [] {
      SortBySorted(s[1..], le);
      InsertSorted(s[0], SortBy(s[1..], le), le);
    }
  }

  /** Sorting a list that is already in order changes nothing (in particular ties stay put). */
  lemma {:induction false} SortByIdentity<T>(s: seq<T>, le: (T, T) -> bool)
    requires SortedBy(s, le)
    ensures SortBy(s, le) == s
  {
    if s != [] {
      SortByIdentity(s[1..], le);
      assert s == [s[0]] + s[1..];
      assert |s| > 1 ==> le(s[0], s[1]);
    }
  }

  lemma SortByMembers<T>(s: seq<T>, le: (T, T) -> bool)
    ensures forall x :: x in SortBy(s, le) <==> x in s
  {
    forall x ensures x in SortBy(s, le) <==> x in s {
      assert x in SortBy(s, le) <==> x in multiset(SortBy(s, le));
      assert x in s <==> x in multiset(s);
    }
  }

  /** Elements that may stand either way round stand in the order `r`. */
  ghost predicate TiesKeep<T>(s: seq<T>, le: (T, T) -> bool, r: (T, T) -> bool) {
    forall i, j | 0 <= i < j < |s| && le(s[j], s[i]) :: r(s[i], s[j])
  }

  lemma {:induction false} InsertTies<T(!new)>(x: T, s: seq<T>, le: (T, T) -> bool, r: (T, T) -> bool)
    requires TiesKeep(s, le, r) && forall k | 0 <= k < |s| :: r(x, s[k])
    ensures TiesKeep(Insert(x, s, le), le, r)
  {
    if s != [] && !le(x, s[0]) {
      InsertTies(x, s[1..], le, r);
      var t := Insert(x, s[1..], le);
      forall k | 0 <= k < |t| && le(t[k], s[0]) ensures r(s[0], t[k]) {
        assert t[k] in multiset(t);
        assert t[k] == x || t[k] in s[1..];
      }
    }
  }

  /** Sorting is stable: elements of equal rank keep the order in which they were listed. */
  lemma {:induction false} SortByStable<T(!new)>(s: seq<T>, le: (T, T) -> bool, r: (T, T) -> bool)
    requires Pairwise(s, r)
    ensures TiesKeep(SortBy(s, le), le, r)
  {
    if s != [] {
      var rest := SortBy(s[1..], le);
      SortByStable(s[1..], le, r);
      SortByMembers(s[1..], le);
      forall k | 0 <= k < |rest| ensures r(s[0], rest[k]) {
        assert rest[k] in s[1..];
      }
      InsertTies(s[0], rest, le, r);
    }
  }

  ghost predicate Pairwise<T>(s: seq<T>, r: (T, T) -> bool) {
    forall i, j | 0 <= i < j < |s| :: r(s[i], s[j])
  }

  lemma {:induction false} InsertPairwise<T(!new)>(x: T, s: seq<T>, le: (T, T) -> bool, r: (T, T) -> bool)
    requires forall a, b :: r(a, b) == r(b, a)
    requires Pairwise(s, r) && forall k | 0 <= k < |s| :: r(x, s[k])
    ensures Pairwise(Insert(x, s, le), r)
  {
    if s != [] && !le(x, s[0]) {
      InsertPairwise(x, s[1..], le, r);
      var t := Insert(x, s[1..], le);
      forall k | 0 <= k < |t| ensures r(s[0], t[k]) {
        assert t[k] in multiset(t);
        assert t[k] == x || t[k] in s[1..];
      }
    }
  }

  /** A symmetric relation between any two elements survives sorting. */
  lemma {:induction false} SortByPairwise<T(!new)>(s: seq<T>, le: (T, T) -> bool, r: (T, T) -> bool)
    requires forall a, b :: r(a, b) == r(b, a)
    requires Pairwise(s, r)
    ensures Pairwise(SortBy(s, le), r)
  {
    if s != [] {
      var rest := SortBy(s[1..], le);
      SortByPairwise(s[1..], le, r);
      SortByMembers(s[1..], le);
      forall k | 0 <= k < |rest| ensures r(s[0], rest[k]) {
        assert rest[k] in s[1..];
      }
      InsertPairwise(s[0], rest, le, r);
    }
  }
}
