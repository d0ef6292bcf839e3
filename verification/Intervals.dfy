/** The interval algebra behind preview selection: infer gaps, merge, subtract. */
module Intervals {
  import opened StableSort

  const BREAK_GAP_MS := 2200

  datatype Period = Period(start: int, end: int)

  /** The half-open stretch from `lo` to `hi` overlaps the period. */
  predicate Meets(p: Period, lo: int, hi: int) {
    p.start < hi && p.end > lo
  }

  /** A period and a stretch, neither empty, overlap exactly when they share an instant. */
  lemma MeetsExact(p: Period, lo: int, hi: int)
    requires p.start < p.end && lo < hi
    ensures Meets(p, lo, hi) <==> exists x :: Within(x, p.start, p.end) && Within(x, lo, hi)
  {
    if Meets(p, lo, hi) {
      assert Within(if p.start < lo then lo else p.start, p.start, p.end);
    }
  }

  predicate Within(x: int, lo: int, hi: int) {
    lo <= x < hi
  }

  ghost predicate AnyMeets(periods: seq<Period>, lo: int, hi: int) {
    exists k :: 0 <= k < |periods| && Meets(periods[k], lo, hi)
  }

  predicate Proper(periods: seq<Period>) {
    forall k | 0 <= k < |periods| :: periods[k].start <= periods[k].end
  }

  // ----- gaps between hit objects -----

  predicate ByStart(a: Period, b: Period) {
    a.start < b.start || (a.start == b.start && a.end <= b.end)
  }

  predicate StartsAscend(s: seq<Period>) {
    forall i, j | 0 <= i < j < |s| :: s[i].start <= s[j].start
  }

  lemma SortedStarts(s: seq<Period>)
    requires SortedBy(s, ByStart)
    ensures StartsAscend(s)
  {
    forall i, j | 0 <= i < j < |s| ensures s[i].start <= s[j].start {
      assert ByStart(s[i], s[j]);
    }
  }

  /** Latest end among the first `n` spans. */
  function LatestEnd(spans: seq<Period>, n: nat): (e: int)
    requires 0 < n <= |spans|
    ensures forall k | 0 <= k < n :: spans[k].end <= e
    ensures exists k :: 0 <= k < n && spans[k].end == e
  {
    if n == 1 then spans[0].end
    else
      var e := LatestEnd(spans, n - 1);
      if spans[n - 1].end > e then spans[n - 1].end else e
  }

  /** An object that starts at least `BREAK_GAP_MS` after every object listed before it has ended. */
  ghost predicate GapBefore(spans: seq<Period>, n: nat, g: Period) {
    && 1 <= n < |spans|
    && g == Period(LatestEnd(spans, n), spans[n].start)
    && g.end - g.start >= BREAK_GAP_MS
  }

  ghost predicate InferredGap(spans: seq<Period>, g: Period) {
    exists n: nat :: GapBefore(spans, n, g)
  }

  /** `infer_break_periods`: exactly the gaps, whatever the spans. */
  method InferBreakPeriods(spans: seq<Period>) returns (periods: seq<Period>)
    requires spans != []
    ensures forall g :: g in periods <==> InferredGap(spans, g)
  {
    periods := [];
    var previousEnd := spans[0].end;
    for i := 1 to |spans|
      invariant previousEnd == LatestEnd(spans, i)
      invariant forall g | g in periods :: InferredGap(spans, g)
      invariant forall n: nat, g | n < i && GapBefore(spans, n, g) :: g in periods
    {
      if spans[i].start - previousEnd >= BREAK_GAP_MS {
        assert GapBefore(spans, i, Period(previousEnd, spans[i].start));
        periods := periods + [Period(previousEnd, spans[i].start)];
      }
      if spans[i].end > previousEnd {
        previousEnd := spans[i].end;
      }
    }
  }

  /**
   * A long gap, told without the order of the list: it begins where some object ends, ends where some object
   * begins, and every object is over before it or starts after it.
   */
  ghost predicate LongGap(spans: seq<Period>, g: Period) {
    && g.end - g.start >= 2200
    && (exists k :: 0 <= k < |spans| && spans[k].end == g.start)
    && (exists k :: 0 <= k < |spans| && spans[k].start == g.end)
    && forall k | 0 <= k < |spans| :: spans[k].end <= g.start || spans[k].start >= g.end
  }

  /** When no object ends before it starts, the inferred gaps are the long gaps. */
  lemma InferredIffLong(spans: seq<Period>, g: Period)
    requires StartsAscend(spans) && Proper(spans)
    ensures InferredGap(spans, g) <==> LongGap(spans, g)
  {
    if InferredGap(spans, g) {
      var n: nat :| GapBefore(spans, n, g);
      assert spans[n].start == g.end;
    }
    if LongGap(spans, g) {
      GapIndex(spans, g);
    }
  }

  /** The object that ends a long gap comes right after everything before the gap. */
  lemma GapIndex(spans: seq<Period>, g: Period)
    requires StartsAscend(spans) && Proper(spans) && LongGap(spans, g)
    ensures InferredGap(spans, g)
  {
    var n := 0;
    while n < |spans| && spans[n].start < g.end
      invariant 0 <= n <= |spans|
      invariant forall k | 0 <= k < n :: spans[k].start < g.end
    {
      n := n + 1;
    }
    var p :| 0 <= p < |spans| && spans[p].end == g.start;
    var q :| 0 <= q < |spans| && spans[q].start == g.end;
    assert p < n <= q;
    assert GapBefore(spans, n, g);
  }

  // ----- merging -----

  /** Each period starts strictly after the one before it has ended. */
  predicate Separated(s: seq<Period>) {
    forall i | 0 < i < |s| :: s[i - 1].end < s[i].start
  }

  lemma AnyMeetsSnoc(s: seq<Period>, p: Period, lo: int, hi: int)
    ensures AnyMeets(s + [p], lo, hi) <==> AnyMeets(s, lo, hi) || Meets(p, lo, hi)
  {
    var t := s + [p];
    if AnyMeets(s, lo, hi) {
      var k :| 0 <= k < |s| && Meets(s[k], lo, hi);
      assert Meets(t[k], lo, hi);
    }
    if Meets(p, lo, hi) {
      assert Meets(t[|s|], lo, hi);
    }
    if AnyMeets(t, lo, hi) {
      var k :| 0 <= k < |t| && Meets(t[k], lo, hi);
      assert k < |s| ==> Meets(s[k], lo, hi);
    }
  }

  /** The two lists block the same stretches. */
  ghost predicate SameBlocked(a: seq<Period>, b: seq<Period>) {
    forall lo: int, hi: int | lo < hi :: AnyMeets(a, lo, hi) <==> AnyMeets(b, lo, hi)
  }

  lemma MergeStep(done: seq<Period>, merged: seq<Period>, p: Period)
    requires SameBlocked(done, merged)
    ensures SameBlocked(done + [p], merged + [p])
  {
    forall lo: int, hi: int | lo < hi ensures AnyMeets(done + [p], lo, hi) <==> AnyMeets(merged + [p], lo, hi) {
      AnyMeetsSnoc(done, p, lo, hi);
      AnyMeetsSnoc(merged, p, lo, hi);
    }
  }

  lemma WidenStep(done: seq<Period>, merged: seq<Period>, p: Period)
    requires SameBlocked(done, merged)
    requires merged != [] && merged[|merged| - 1].start <= p.start <= merged[|merged| - 1].end
    ensures SameBlocked(done + [p], merged[|merged| - 1 := Widen(merged[|merged| - 1], p)])
  {
    var init, last := merged[..|merged| - 1], merged[|merged| - 1];
    var after := merged[|merged| - 1 := Widen(last, p)];
    assert merged == init + [last];
    assert after == init + [Widen(last, p)];
    forall lo: int, hi: int | lo < hi ensures AnyMeets(done + [p], lo, hi) <==> AnyMeets(after, lo, hi) {
      AnyMeetsSnoc(done, p, lo, hi);
      AnyMeetsSnoc(init, last, lo, hi);
      AnyMeetsSnoc(init, Widen(last, p), lo, hi);
    }
  }

  function Widen(last: Period, p: Period): Period {
    last.(end := if p.end > last.end then p.end else last.end)
  }

  lemma SortSameBlocked(a: seq<Period>, b: seq<Period>)
    requires forall p :: p in a <==> p in b
    ensures SameBlocked(a, b)
  {
    forall lo: int, hi: int | lo < hi ensures AnyMeets(a, lo, hi) <==> AnyMeets(b, lo, hi) {
      if AnyMeets(a, lo, hi) {
        var k :| 0 <= k < |a| && Meets(a[k], lo, hi);
        assert a[k] in b;
      }
      if AnyMeets(b, lo, hi) {
        var k :| 0 <= k < |b| && Meets(b[k], lo, hi);
        assert b[k] in a;
      }
    }
  }

  lemma ByStartOrders()
    ensures TotalPreorder(ByStart)
  {
  }

  /** What the merge loop keeps: in order, separated, and blocking what the periods seen so far block. */
  ghost predicate Merged(seen: seq<Period>, merged: seq<Period>) {
    && StartsAscend(merged) && Separated(merged) && SameBlocked(seen, merged)
    && (Proper(seen) ==> Proper(merged))
    && (seen != [] ==> merged != [])
    && (merged != [] ==> seen != [] && merged[|merged| - 1].start <= seen[|seen| - 1].start)
  }

  lemma MergedGrows(seen: seq<Period>, merged: seq<Period>, p: Period)
    requires Merged(seen, merged)
    requires seen != [] ==> seen[|seen| - 1].start <= p.start
    ensures merged != [] && p.start <= merged[|merged| - 1].end ==>
      Merged(seen + [p], merged[|merged| - 1 := Widen(merged[|merged| - 1], p)])
    ensures merged == [] || p.start > merged[|merged| - 1].end ==> Merged(seen + [p], merged + [p])
  {
    if merged != [] && p.start <= merged[|merged| - 1].end {
      WidenStep(seen, merged, p);
    } else {
      MergeStep(seen, merged, p);
    }
    assert (seen + [p])[..|seen|] == seen;
    if Proper(seen + [p]) {
      assert p == (seen + [p])[|seen|];
      forall k | 0 <= k < |seen| ensures seen[k].start <= seen[k].end {
        assert seen[k] == (seen + [p])[k];
      }
    }
  }

  lemma SortedPeriods(periods: seq<Period>)
    ensures
      var sorted := SortBy(periods, ByStart);
      && StartsAscend(sorted) && SameBlocked(periods, sorted) && (Proper(periods) <==> Proper(sorted))
  {
    var sorted := SortBy(periods, ByStart);
    ByStartOrders();
    SortBySorted(periods, ByStart);
    SortByMembers(periods, ByStart);
    SortedStarts(sorted);
    SortSameBlocked(periods, sorted);
    ProperMembers(periods, sorted);
    ProperMembers(sorted, periods);
  }

  /** `merge_periods`: sorted, strictly separated, and blocking what the given periods block. */
  method MergePeriods(periods: seq<Period>) returns (merged: seq<Period>)
    ensures StartsAscend(merged) && Separated(merged)
    ensures SameBlocked(periods, merged)
    ensures Proper(periods) ==> Proper(merged)
  {
    var sorted := SortBy(periods, ByStart);
    SortedPeriods(periods);
    hide SortBy;
    merged := [];
    for i := 0 to |sorted|
      invariant Merged(sorted[..i], merged)
    {
      var p := sorted[i];
      MergedGrows(sorted[..i], merged, p);
      assert sorted[..i + 1] == sorted[..i] + [p];
      if merged != [] && p.start <= merged[|merged| - 1].end {
        merged := merged[|merged| - 1 := Widen(merged[|merged| - 1], p)];
      } else {
        merged := merged + [p];
      }
    }
    assert sorted[..|sorted|] == sorted;
  }

  lemma ProperMembers(a: seq<Period>, b: seq<Period>)
    requires forall p :: p in a <==> p in b
    ensures Proper(a) ==> Proper(b)
  {
    if Proper(a) {
      forall k | 0 <= k < |b| ensures b[k].start <= b[k].end {
        assert b[k] in a;
      }
    }
  }

  // ----- subtraction -----

  /** The stretch from `t` of length `d` lies within one of the segments. */
  ghost predicate FitsIn(segments: seq<Period>, t: int, d: int) {
    exists k :: 0 <= k < |segments| && segments[k].start <= t && t + d <= segments[k].end
  }

  lemma FitsInSnoc(s: seq<Period>, p: Period, t: int, d: int)
    ensures FitsIn(s + [p], t, d) <==> FitsIn(s, t, d) || (p.start <= t && t + d <= p.end)
  {
    var u := s + [p];
    if FitsIn(s, t, d) {
      var k :| 0 <= k < |s| && s[k].start <= t && t + d <= s[k].end;
      assert u[k] == s[k];
    }
    if p.start <= t && t + d <= p.end {
      assert u[|s|] == p;
    }
    if FitsIn(u, t, d) {
      var k :| 0 <= k < |u| && u[k].start <= t && t + d <= u[k].end;
      assert k < |s| ==> u[k] == s[k];
    }
  }

  /** Free of the first `n` forbidden periods. */
  ghost predicate Free(forbidden: seq<Period>, n: nat, t: int, d: int) {
    forall k | 0 <= k < n && k < |forbidden| :: !Meets(forbidden[k], t, t + d)
  }

  /** What the segments and the cursor say about the stretch from `t` of length `d`. */
  ghost predicate Accounted(
      segments: seq<Period>, cursor: int, start: int, end: int, forbidden: seq<Period>, n: nat, t: int, d: int)
  {
    (start <= t && t + d <= end && Free(forbidden, n, t, d))
    <==> (FitsIn(segments, t, d) || (cursor <= t && t + d <= end))
  }

  /** No segment reaches past the start of a period not yet seen. */
  predicate Behind(segments: seq<Period>, forbidden: seq<Period>, n: nat) {
    forall k, j | 0 <= k < |segments| && n <= j < |forbidden| :: segments[k].end <= forbidden[j].start
  }

  /** What the segments and the cursor say about the first `n` periods. */
  ghost predicate Subtracted(
      segments: seq<Period>, cursor: int, start: int, end: int, forbidden: seq<Period>, n: nat)
  {
    && start <= cursor
    && (forall t: int, d: int | d > 0 :: Accounted(segments, cursor, start, end, forbidden, n, t, d))
    && Behind(segments, forbidden, n)
  }

  lemma FreeNext(forbidden: seq<Period>, n: nat, t: int, d: int)
    requires n < |forbidden|
    ensures Free(forbidden, n + 1, t, d) <==> Free(forbidden, n, t, d) && !Meets(forbidden[n], t, t + d)
  {
  }

  lemma FitsBehind(segments: seq<Period>, forbidden: seq<Period>, n: nat, j: nat, t: int, d: int)
    requires Behind(segments, forbidden, n) && n <= j < |forbidden| && FitsIn(segments, t, d)
    ensures !Meets(forbidden[j], t, t + d)
  {
  }

  /** A period that is over before the cursor, and what lies beyond the cursor, need no new segment. */
  lemma SubtractSkip(
      segments: seq<Period>, cursor: int, start: int, end: int, forbidden: seq<Period>, n: nat)
    requires n < |forbidden| && (forbidden[n].start <= cursor || forbidden[n].end <= cursor)
    requires Subtracted(segments, cursor, start, end, forbidden, n)
    ensures Subtracted(
      segments, if forbidden[n].end <= cursor then cursor else forbidden[n].end, start, end, forbidden, n + 1)
  {
    var next := if forbidden[n].end <= cursor then cursor else forbidden[n].end;
    var m := n + 1;
    forall t: int, d: int | d > 0 ensures Accounted(segments, next, start, end, forbidden, m, t, d) {
      assert Accounted(segments, cursor, start, end, forbidden, n, t, d);
      FreeNext(forbidden, n, t, d);
      if FitsIn(segments, t, d) {
        FitsBehind(segments, forbidden, n, n, t, d);
      }
    }
  }

  /** A period ahead of the cursor closes a segment. */
  lemma SubtractCut(
      segments: seq<Period>, cursor: int, start: int, end: int, forbidden: seq<Period>, n: nat)
    requires StartsAscend(forbidden) && n < |forbidden|
    requires forbidden[n].start > cursor && forbidden[n].end > cursor
    requires Subtracted(segments, cursor, start, end, forbidden, n)
    ensures
      var p := forbidden[n];
      Subtracted(
        segments + [Period(cursor, if p.start < end then p.start else end)], p.end, start, end, forbidden, n + 1)
  {
    var p := forbidden[n];
    var pushed := Period(cursor, if p.start < end then p.start else end);
    var after, m := segments + [pushed], n + 1;
    forall t: int, d: int | d > 0 ensures Accounted(after, p.end, start, end, forbidden, m, t, d) {
      assert Accounted(segments, cursor, start, end, forbidden, n, t, d);
      FreeNext(forbidden, n, t, d);
      FitsInSnoc(segments, pushed, t, d);
      if FitsIn(segments, t, d) {
        FitsBehind(segments, forbidden, n, n, t, d);
      }
    }
    forall k, j | 0 <= k < |after| && n + 1 <= j < |forbidden| ensures after[k].end <= forbidden[j].start {
      assert forbidden[n].start <= forbidden[j].start;
    }
  }

  /** Nothing after the cursor is left: the remaining periods cannot matter. */
  lemma SubtractDone(
      segments: seq<Period>, cursor: int, start: int, end: int, forbidden: seq<Period>, n: nat)
    requires n <= |forbidden| && Subtracted(segments, cursor, start, end, forbidden, n) && cursor >= end
    ensures Subtracted(segments, cursor, start, end, forbidden, |forbidden|)
  {
    forall t: int, d: int | d > 0 ensures Accounted(segments, cursor, start, end, forbidden, |forbidden|, t, d) {
      assert Accounted(segments, cursor, start, end, forbidden, n, t, d);
      if FitsIn(segments, t, d) {
        forall j | 0 <= j < |forbidden| ensures !Meets(forbidden[j], t, t + d) {
          if j >= n {
            FitsBehind(segments, forbidden, n, j, t, d);
          }
        }
      }
    }
  }

  function Positive(s: seq<Period>): (r: seq<Period>)
    ensures forall k | 0 <= k < |r| :: r[k].end > r[k].start && r[k] in s
  {
    if s == [] then []
    else if s[0].end > s[0].start then [s[0]] + Positive(s[1..])
    else Positive(s[1..])
  }

  lemma {:induction false} PositiveFits(s: seq<Period>, t: int, d: int)
    requires d > 0
    ensures FitsIn(Positive(s), t, d) <==> FitsIn(s, t, d)
  {
    if s != [] {
      PositiveFits(s[1..], t, d);
      ConsFits(s[0], s[1..], t, d);
      ConsFits(s[0], Positive(s[1..]), t, d);
      assert s == [s[0]] + s[1..];
    }
  }

  lemma ConsFits(p: Period, s: seq<Period>, t: int, d: int)
    ensures FitsIn([p] + s, t, d) <==> FitsIn(s, t, d) || (p.start <= t && t + d <= p.end)
  {
    var u := [p] + s;
    if FitsIn(s, t, d) {
      var k :| 0 <= k < |s| && s[k].start <= t && t + d <= s[k].end;
      assert u[k + 1] == s[k];
    }
    if p.start <= t && t + d <= p.end {
      assert u[0] == p;
    }
    if FitsIn(u, t, d) {
      var k :| 0 <= k < |u| && u[k].start <= t && t + d <= u[k].end;
      assert k > 0 ==> u[k] == s[k - 1];
    }
  }

  /** Segments in order; touching ends are allowed. */
  predicate Ordered(s: seq<Period>) {
    forall i, j | 0 <= i < j < |s| :: s[i].end <= s[j].start
  }

  lemma {:induction false} PositiveOrdered(s: seq<Period>)
    requires Ordered(s)
    ensures Ordered(Positive(s))
  {
    if s != [] {
      PositiveOrdered(s[1..]);
      var r := Positive(s[1..]);
      forall k | 0 <= k < |r| ensures s[0].end <= r[k].start {
        assert r[k] in s[1..];
      }
    }
  }

  /** `subtract_periods`: a stretch fits in a segment exactly when it is in range and meets nothing forbidden. */
  method SubtractPeriods(start: int, end: int, forbidden: seq<Period>) returns (segments: seq<Period>)
    requires StartsAscend(forbidden)
    ensures forall t: int, d: int | d > 0 ::
      FitsIn(segments, t, d) <==> start <= t && t + d <= end && !AnyMeets(forbidden, t, t + d)
    ensures forall k | 0 <= k < |segments| :: segments[k].end > segments[k].start
    ensures Proper(forbidden) ==> Ordered(segments)
  {
    segments := [];
    var cursor := start;
    var i := 0;
    while i < |forbidden|
      invariant 0 <= i <= |forbidden|
      invariant Subtracted(segments, cursor, start, end, forbidden, i)
      invariant Proper(forbidden) ==> Ordered(segments) && forall k | 0 <= k < |segments| :: segments[k].end <= cursor
    {
      var period := forbidden[i];
      if period.start > cursor && period.end > cursor {
        SubtractCut(segments, cursor, start, end, forbidden, i);
      } else {
        SubtractSkip(segments, cursor, start, end, forbidden, i);
      }
      i := i + 1;
      if period.end <= cursor {
        continue;
      }
      if period.start > cursor {
        segments := segments + [Period(cursor, if period.start < end then period.start else end)];
      }
      cursor := if period.end > cursor then period.end else cursor;
      if cursor >= end {
        SubtractDone(segments, cursor, start, end, forbidden, i);
        break;
      }
    }
    ghost var before := segments;
    if cursor < end {
      segments := segments + [Period(cursor, end)];
    }
    ghost var unfiltered := segments;
    segments := Positive(segments);
    forall t: int, d: int | d > 0
      ensures FitsIn(segments, t, d) <==> start <= t && t + d <= end && !AnyMeets(forbidden, t, t + d)
    {
      PositiveFits(unfiltered, t, d);
      FitsInSnoc(before, Period(cursor, end), t, d);
      assert Accounted(before, cursor, start, end, forbidden, |forbidden|, t, d);
      assert Free(forbidden, |forbidden|, t, d) <==> !AnyMeets(forbidden, t, t + d);
    }
    if Proper(forbidden) {
      PositiveOrdered(unfiltered);
    }
  }
}
