/** Where a segment may start, and how a single start is picked. */
module StartIntervals {
  import opened Intervals

  /** `t` lies in one of the closed intervals. */
  ghost predicate Covered(intervals: seq<Period>, t: int) {
    exists k :: 0 <= k < |intervals| && intervals[k].start <= t <= intervals[k].end
  }

  predicate Apart(intervals: seq<Period>) {
    forall i, j | 0 <= i < j < |intervals| :: intervals[i].end < intervals[j].start
  }

  /** The stretch from `t` of length `d` is inside the chart and meets no declared break and no inferred gap. */
  ghost predicate ValidStart(spans: seq<Period>, breaks: seq<Period>, d: int, t: int)
    requires spans != []
  {
    && spans[0].start <= t && t + d <= LatestEnd(spans, |spans|)
    && !AnyMeets(breaks, t, t + d)
    && forall g | InferredGap(spans, g) :: !Meets(g, t, t + d)
  }

  // ----- building the intervals -----

  function Shrink(playable: seq<Period>, d: int): (r: seq<Period>)
    requires d >= 0
    ensures Proper(r)
    ensures forall k | 0 <= k < |r| :: Period(r[k].start, r[k].end + d) in playable
  {
    if playable == [] then []
    else
      var rest := Shrink(playable[1..], d);
      var p := playable[0];
      if p.end - d >= p.start then [Period(p.start, p.end - d)] + rest else rest
  }

  /** Shrinking leaves exactly the starts whose whole stretch fits. */
  lemma {:induction false} ShrinkCovers(playable: seq<Period>, d: int, t: int)
    requires d >= 0
    ensures Covered(Shrink(playable, d), t) <==> FitsIn(playable, t, d)
  {
    if playable != [] {
      var p, rest := playable[0], playable[1..];
      ShrinkCovers(rest, d, t);
      assert playable == [p] + rest;
      ConsFits(p, rest, t, d);
      if p.end - d >= p.start {
        ConsCovered(Period(p.start, p.end - d), Shrink(rest, d), t);
      }
    }
  }

  lemma ConsCovered(p: Period, s: seq<Period>, t: int)
    ensures Covered([p] + s, t) <==> Covered(s, t) || p.start <= t <= p.end
  {
    var u := [p] + s;
    if Covered(s, t) {
      var k :| 0 <= k < |s| && s[k].start <= t <= s[k].end;
      assert u[k + 1] == s[k];
    }
    if p.start <= t <= p.end {
      assert u[0] == p;
    }
    if Covered(u, t) {
      var k :| 0 <= k < |u| && u[k].start <= t <= u[k].end;
      assert k > 0 ==> u[k] == s[k - 1];
    }
  }

  lemma TailOrdered(s: seq<Period>)
    requires s != [] && Ordered(s)
    ensures Ordered(s[1..])
    ensures forall p | p in s[1..] :: s[0].end <= p.start
  {
  }

  lemma ShrinkAfter(playable: seq<Period>, d: int, e: int)
    requires d >= 0 && forall p | p in playable :: e <= p.start
    ensures forall k | 0 <= k < |Shrink(playable, d)| :: e <= Shrink(playable, d)[k].start
  {
    var r := Shrink(playable, d);
    forall k | 0 <= k < |r| ensures e <= r[k].start {
      assert Period(r[k].start, r[k].end + d) in playable;
    }
  }

  lemma {:induction false} ShrinkApart(playable: seq<Period>, d: int)
    requires d > 0 && Ordered(playable)
    ensures Apart(Shrink(playable, d))
  {
    if playable != [] {
      TailOrdered(playable);
      ShrinkApart(playable[1..], d);
      ShrinkAfter(playable[1..], d, playable[0].end);
      ShrinkCons(playable, d);
    }
  }

  lemma ConsApart(p: Period, s: seq<Period>)
    requires Apart(s) && forall k | 0 <= k < |s| :: p.end < s[k].start
    ensures Apart([p] + s)
  {
  }

  lemma ShrinkCons(playable: seq<Period>, d: int)
    requires playable != [] && d > 0
    requires Apart(Shrink(playable[1..], d))
    requires forall k | 0 <= k < |Shrink(playable[1..], d)| :: playable[0].end <= Shrink(playable[1..], d)[k].start
    ensures Apart(Shrink(playable, d))
  {
    var p := playable[0];
    if p.end - d >= p.start {
      ConsApart(Period(p.start, p.end - d), Shrink(playable[1..], d));
    }
  }

  lemma AnyMeetsAppend(a: seq<Period>, b: seq<Period>, lo: int, hi: int)
    ensures AnyMeets(a + b, lo, hi) <==> AnyMeets(a, lo, hi) || AnyMeets(b, lo, hi)
  {
    var c := a + b;
    if AnyMeets(a, lo, hi) {
      var k :| 0 <= k < |a| && Meets(a[k], lo, hi);
      assert c[k] == a[k];
    }
    if AnyMeets(b, lo, hi) {
      var k :| 0 <= k < |b| && Meets(b[k], lo, hi);
      assert c[|a| + k] == b[k];
    }
    if AnyMeets(c, lo, hi) {
      var k :| 0 <= k < |c| && Meets(c[k], lo, hi);
      assert if k < |a| then c[k] == a[k] else c[k] == b[k - |a|];
    }
  }

  lemma GapsMeet(spans: seq<Period>, gaps: seq<Period>, lo: int, hi: int)
    requires forall g :: g in gaps <==> InferredGap(spans, g)
    ensures AnyMeets(gaps, lo, hi) <==> exists g :: InferredGap(spans, g) && Meets(g, lo, hi)
  {
    if AnyMeets(gaps, lo, hi) {
      var k :| 0 <= k < |gaps| && Meets(gaps[k], lo, hi);
      assert gaps[k] in gaps;
    }
    if g :| InferredGap(spans, g) && Meets(g, lo, hi) {
      assert g in gaps;
    }
  }

  /** `build_valid_start_intervals`: for a positive duration, the intervals hold exactly the valid starts. */
  method BuildValidStartIntervals(spans: seq<Period>, breaks: seq<Period>, d: int) returns (intervals: seq<Period>)
    requires spans != [] && d >= 0
    ensures Proper(intervals)
    ensures d > 0 ==> forall t :: Covered(intervals, t) <==> ValidStart(spans, breaks, d, t)
    ensures d > 0 && Proper(breaks) ==> Apart(intervals)
  {
    var chartStart := spans[0].start;
    var chartEnd := LatestEnd(spans, |spans|);
    var gaps := InferBreakPeriods(spans);
    var forbidden := MergePeriods(breaks + gaps);
    var playable := SubtractPeriods(chartStart, chartEnd, forbidden);
    intervals := Shrink(playable, d);
    if d > 0 {
      forall t ensures Covered(intervals, t) <==> ValidStart(spans, breaks, d, t) {
        var hi := t + d;
        ShrinkCovers(playable, d, t);
        assert AnyMeets(breaks + gaps, t, hi) <==> AnyMeets(forbidden, t, hi);
        AnyMeetsAppend(breaks, gaps, t, hi);
        GapsMeet(spans, gaps, t, hi);
      }
      if Proper(breaks) {
        assert Proper(gaps) by {
          forall k | 0 <= k < |gaps| ensures gaps[k].start <= gaps[k].end {
            assert gaps[k] in gaps;
          }
        }
        ShrinkApart(playable, d);
      }
    }
  }

  // ----- random starts -----

  function Total(intervals: seq<Period>, k: nat): int
    requires k <= |intervals|
    decreases |intervals| - k
  {
    if k == |intervals| then 0 else intervals[k].end - intervals[k].start + 1 + Total(intervals, k + 1)
  }

  /** The start that `pick` names, counting through the intervals from the `k`-th. */
  function PickFrom(intervals: seq<Period>, k: nat, pick: int): int
    requires intervals != [] && k <= |intervals|
    decreases |intervals| - k
  {
    if k == |intervals| then
      intervals[k - 1].end
    else
      var length := intervals[k].end - intervals[k].start + 1;
      if pick < length then intervals[k].start + pick else PickFrom(intervals, k + 1, pick - length)
  }

  method SumLengths(intervals: seq<Period>) returns (total: int)
    ensures total == Total(intervals, 0)
  {
    total := 0;
    for i := |intervals| downto 0
      invariant total == Total(intervals, i)
    {
      total := total + (intervals[i].end - intervals[i].start + 1);
    }
  }

  /** `random_start_from_intervals` for an arbitrary draw. */
  method RandomStart(intervals: seq<Period>, draw: nat) returns (t: int)
    requires intervals != [] && Proper(intervals)
    ensures Total(intervals, 0) > 0
    ensures t == PickFrom(intervals, 0, draw % Total(intervals, 0))
  {
    var total := SumLengths(intervals);
    TotalPositive(intervals, 0);
    var pick := draw % (if total > 1 then total else 1);
    ghost var first := pick;
    for i := 0 to |intervals|
      invariant PickFrom(intervals, i, pick) == PickFrom(intervals, 0, first)
    {
      var length := intervals[i].end - intervals[i].start + 1;
      if pick < length {
        return intervals[i].start + pick;
      }
      pick := pick - length;
    }
    t := intervals[|intervals| - 1].end;
  }

  lemma {:induction false} TotalPositive(intervals: seq<Period>, k: nat)
    requires Proper(intervals) && k <= |intervals|
    ensures Total(intervals, k) >= |intervals| - k
    decreases |intervals| - k
  {
    if k < |intervals| {
      TotalPositive(intervals, k + 1);
    }
  }

  lemma {:induction false} PickCovered(intervals: seq<Period>, k: nat, pick: int)
    requires intervals != [] && k <= |intervals| && 0 <= pick < Total(intervals, k)
    ensures Covered(intervals, PickFrom(intervals, k, pick))
    ensures exists i :: k <= i < |intervals| && intervals[i].start <= PickFrom(intervals, k, pick) <= intervals[i].end
    decreases |intervals| - k
  {
    var length := intervals[k].end - intervals[k].start + 1;
    if pick < length {
      assert intervals[k].start <= PickFrom(intervals, k, pick) <= intervals[k].end;
    } else {
      PickCovered(intervals, k + 1, pick - length);
    }
  }

  lemma {:induction false} PickIncreases(intervals: seq<Period>, k: nat, p: int, q: int)
    requires intervals != [] && Apart(intervals) && k <= |intervals|
    requires 0 <= p < q < Total(intervals, k)
    ensures PickFrom(intervals, k, p) < PickFrom(intervals, k, q)
    decreases |intervals| - k
  {
    var length := intervals[k].end - intervals[k].start + 1;
    if length <= p {
      PickIncreases(intervals, k + 1, p - length, q - length);
    } else if length <= q {
      PickCovered(intervals, k + 1, q - length);
      var i :| k + 1 <= i < |intervals|
        && intervals[i].start <= PickFrom(intervals, k + 1, q - length) <= intervals[i].end;
      assert intervals[k].end < intervals[i].start;
    }
  }

  /** The draw that reaches the covered start `t`, which lies in the `i`-th interval. */
  lemma {:induction false} PickReaches(intervals: seq<Period>, k: nat, i: nat, t: int) returns (pick: int)
    requires Proper(intervals) && k <= i < |intervals| && intervals[i].start <= t <= intervals[i].end
    ensures 0 <= pick < Total(intervals, k) && PickFrom(intervals, k, pick) == t
    decreases |intervals| - k
  {
    var length := intervals[k].end - intervals[k].start + 1;
    TotalPositive(intervals, k + 1);
    if i == k {
      pick := t - intervals[k].start;
    } else {
      var rest := PickReaches(intervals, k + 1, i, t);
      pick := length + rest;
    }
  }

  ghost predicate Picked(intervals: seq<Period>, t: int)
    requires intervals != []
  {
    exists p: int :: 0 <= p < Total(intervals, 0) && PickFrom(intervals, 0, p) == t
  }

  /** Picking is a bijection, increasing in fact, from `[0, total)` onto the starts covered. */
  lemma PickBijection(intervals: seq<Period>)
    requires intervals != [] && Proper(intervals) && Apart(intervals)
    ensures forall p: int | 0 <= p < Total(intervals, 0) :: Covered(intervals, PickFrom(intervals, 0, p))
    ensures forall p: int, q: int | 0 <= p < q < Total(intervals, 0) ::
      PickFrom(intervals, 0, p) < PickFrom(intervals, 0, q)
    ensures forall t | Covered(intervals, t) :: Picked(intervals, t)
  {
    forall p: int | 0 <= p < Total(intervals, 0) ensures Covered(intervals, PickFrom(intervals, 0, p)) {
      PickCovered(intervals, 0, p);
    }
    forall p: int, q: int | 0 <= p < q < Total(intervals, 0)
      ensures PickFrom(intervals, 0, p) < PickFrom(intervals, 0, q)
    {
      PickIncreases(intervals, 0, p, q);
    }
    forall t | Covered(intervals, t) ensures Picked(intervals, t) {
      var i :| 0 <= i < |intervals| && intervals[i].start <= t <= intervals[i].end;
      var p := PickReaches(intervals, 0, i, t);
    }
  }

  // ----- the nearest start -----

  function Distance(a: int, b: int): nat {
    if a < b then b - a else a - b
  }

  /** No covered start is nearer to `time`, and none as near comes earlier. */
  ghost predicate Closest(intervals: seq<Period>, time: int, r: int) {
    && Covered(intervals, r)
    && forall u | Covered(intervals, u) ::
         Distance(r, time) < Distance(u, time) || (Distance(r, time) == Distance(u, time) && r <= u)
  }

  /** `nearest_valid_start`. */
  method NearestValidStart(time: int, intervals: seq<Period>) returns (r: int)
    requires Proper(intervals)
    ensures intervals == [] ==> r == time
    ensures intervals != [] ==> Covered(intervals, r)
    ensures forall u | Covered(intervals, u) :: Distance(r, time) <= Distance(u, time)
    ensures intervals != [] && Apart(intervals) ==> Closest(intervals, time, r)
  {
    for i := 0 to |intervals|
      invariant forall k | 0 <= k < i :: !(intervals[k].start <= time <= intervals[k].end)
    {
      if intervals[i].start <= time <= intervals[i].end {
        return time;
      }
    }
    if intervals == [] {
      return time;
    }
    var best := 0;
    for i := 1 to |intervals|
      invariant 0 <= best < i
      invariant forall k | 0 <= k < i ::
        Distance(Edge(intervals[best], time), time) <= Distance(Edge(intervals[k], time), time)
      invariant forall k | 0 <= k < best ::
        Distance(Edge(intervals[best], time), time) < Distance(Edge(intervals[k], time), time)
    {
      if Distance(Edge(intervals[i], time), time) < Distance(Edge(intervals[best], time), time) {
        best := i;
      }
    }
    r := Edge(intervals[best], time);
    assert intervals[best].start <= r <= intervals[best].end;
    forall u | Covered(intervals, u)
      ensures Distance(r, time) <= Distance(u, time)
      ensures Apart(intervals) && Distance(r, time) == Distance(u, time) ==> r <= u
    {
      var k :| 0 <= k < |intervals| && intervals[k].start <= u <= intervals[k].end;
      assert Distance(Edge(intervals[k], time), time) <= Distance(u, time);
      assert Apart(intervals) && k > best ==> intervals[best].end < intervals[k].start;
    }
  }

  /** The end of the interval that faces `time`. */
  function Edge(p: Period, time: int): int {
    if time < p.start then p.start else p.end
  }
}
