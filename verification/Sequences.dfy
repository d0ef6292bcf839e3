/** Sequences without consecutive repeats: the meaning of `dedup`. */
module Sequences {

  /** Drops each element equal to the one kept before it. */
  function DropRepeats<T(==,!new)>(s: seq<T>): (r: seq<T>)
    ensures r == [] <==> s == []
    ensures s != [] ==> r[0] == s[0] && r[|r| - 1] == s[|s| - 1]
    ensures forall x :: x in r <==> x in s
  {
    if s == [] then []
    else
      var last := |s| - 1;
      assert s == s[..last] + [s[last]];
      var r := DropRepeats(s[..last]);
      if r != [] && r[|r| - 1] == s[last] then r else r + [s[last]]
  }

  /** `r` consists of the elements of `s` at these ascending places, the first of which is the start. */
  ghost predicate PickedAt<T>(s: seq<T>, r: seq<T>, places: seq<nat>) {
    && |places| == |r| && (r != [] ==> places[0] == 0)
    && (forall k | 0 <= k < |places| :: places[k] < |s| && s[places[k]] == r[k])
    && (forall k, l | 0 <= k < l < |places| :: places[k] < places[l])
  }

  /** What is left stands in the order it had. */
  lemma {:induction false} DropRepeatsPicks<T(!new)>(s: seq<T>) returns (places: seq<nat>)
    ensures PickedAt(s, DropRepeats(s), places)
  {
    if s == [] {
      places := [];
    } else {
      var last := |s| - 1;
      places := DropRepeatsPicks(s[..last]);
      if DropRepeats(s) != DropRepeats(s[..last]) {
        places := places + [last];
      }
    }
  }

  predicate NoRepeats<T(==)>(s: seq<T>) {
    forall i | 0 < i < |s| :: s[i - 1] != s[i]
  }

  lemma {:induction false} NoRepeatsLeft<T(!new)>(s: seq<T>)
    ensures NoRepeats(DropRepeats(s))
  {
    if s != [] {
      NoRepeatsLeft(s[..|s| - 1]);
    }
  }

  /** Where nothing is repeated nothing is dropped. */
  lemma {:induction false} NothingToDrop<T(!new)>(s: seq<T>)
    requires NoRepeats(s)
    ensures DropRepeats(s) == s
  {
    if s != [] {
      var last := |s| - 1;
      assert s == s[..last] + [s[last]];
      NothingToDrop(s[..last]);
      assert last > 0 ==> s[..last][last - 1] == s[last - 1];
    }
  }

  lemma Regroup<T>(a: seq<T>, b: seq<T>, c: seq<T>)
    ensures (a + b) + c == a + (b + c)
  {
  }
}
