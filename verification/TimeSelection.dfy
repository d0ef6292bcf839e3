/** Choosing where the preview segments of a beatmap start. */
module TimeSelection {
  import opened Intervals
  import opened Numbers
  import opened Sequences
  import opened StableSort
  import opened StartIntervals
  import opened Wrappers

  const MAX_ATTEMPTS := 3000

  datatype SelectError = NoSegments | NegativeDuration | NoObjects | NegativeTime(time: int) | TooManyTimes(limit: nat)

  datatype Selector = Selector(
    spans: seq<Period>, breaks: seq<Period>, count: nat, duration: int, requested: seq<int>, configured: Option<int>)
  {
    /** What `New` guarantees. */
    ghost predicate Valid() {
      count > 0 && duration >= 0 && spans != [] && SortedBy(spans, ByStart)
    }

    /** The configured preview time, or the first object when it is missing or negative. */
    function PreviewTime(): int
      requires spans != []
    {
      if configured.None? || configured.value < 0 then spans[0].start else configured.value
    }

    ghost predicate Startable(t: int)
      requires spans != []
    {
      ValidStart(spans, breaks, duration, t)
    }
  }

  datatype Segment = Segment(start: int, isPreview: bool, breaks: seq<Period>)

  /** `PreviewTimeSelector::new`: the three refusals, in their order, and the spans sorted. */
  method New(
      spans: seq<Period>, breaks: seq<Period>, count: nat, duration: int, requested: Option<seq<int>>,
      configured: Option<int>)
    returns (r: Result<Selector, SelectError>)
    ensures count == 0 ==> r == Err(NoSegments)
    ensures count > 0 && duration < 0 ==> r == Err(NegativeDuration)
    ensures count > 0 && duration >= 0 && spans == [] ==> r == Err(NoObjects)
    ensures count > 0 && duration >= 0 && spans != [] ==>
      r.Ok? && r.value.Valid() && multiset(r.value.spans) == multiset(spans)
      && r.value.(spans := spans)
         == Selector(spans, breaks, count, duration, if requested.Some? then requested.value else [], configured)
  {
    if count == 0 {
      return Err(NoSegments);
    }
    if duration < 0 {
      return Err(NegativeDuration);
    }
    if spans == [] {
      return Err(NoObjects);
    }
    ByStartOrders();
    SortBySorted(spans, ByStart);
    var times := if requested.Some? then requested.value else [];
    r := Ok(Selector(SortBy(spans, ByStart), breaks, count, duration, times, configured));
  }

  /** The preview starts at the configured time if that is not negative, else with the earliest object. */
  lemma PreviewTimeIs(s: Selector)
    requires s.Valid()
    ensures s.configured.Some? && s.configured.value >= 0 ==> s.PreviewTime() == s.configured.value
    ensures s.configured.None? || s.configured.value < 0 ==>
      && (exists k :: 0 <= k < |s.spans| && s.spans[k].start == s.PreviewTime())
      && forall k | 0 <= k < |s.spans| :: s.PreviewTime() <= s.spans[k].start
  {
    SortedStarts(s.spans);
    if s.configured.None? || s.configured.value < 0 {
      assert s.spans[0].start == s.PreviewTime();
    }
  }

  // ----- requested times -----

  /** The first occurrences, in order. */
  function Distinct(xs: seq<int>): (r: seq<int>)
    ensures forall x :: x in r <==> x in xs
    ensures forall i, j | 0 <= i < j < |r| :: r[i] != r[j]
  {
    if xs == [] then []
    else
      var last := xs[|xs| - 1];
      assert xs == xs[..|xs| - 1] + [last];
      var r := Distinct(xs[..|xs| - 1]);
      if last in r then r else r + [last]
  }

  function FirstNegative(xs: seq<int>): Option<int> {
    if xs == [] then None else if xs[0] < 0 then Some(xs[0]) else FirstNegative(xs[1..])
  }

  /** It is the first element below zero, if there is one. */
  lemma {:induction false} FirstNegativeIs(xs: seq<int>)
    ensures FirstNegative(xs).None? <==> forall k | 0 <= k < |xs| :: xs[k] >= 0
    ensures FirstNegative(xs).Some? ==>
      exists k :: 0 <= k < |xs| && xs[k] == FirstNegative(xs).value < 0 && forall j | 0 <= j < k :: xs[j] >= 0
  {
    if xs != [] && xs[0] >= 0 {
      var rest := xs[1..];
      FirstNegativeIs(rest);
      assert forall k | 0 < k < |xs| :: xs[k] == rest[k - 1];
      if FirstNegative(xs).Some? {
        var k :| 0 <= k < |rest| && rest[k] == FirstNegative(xs).value < 0 && forall j | 0 <= j < k :: rest[j] >= 0;
        assert xs[k + 1] == rest[k];
        forall j | 0 <= j < k + 1 ensures xs[j] >= 0 {
          assert j > 0 ==> xs[j] == rest[j - 1];
        }
      }
    }
  }

  /** The starts that are chosen whatever else happens. */
  function ForcedTimes(s: Selector): Result<seq<int>, SelectError>
    requires s.spans != []
  {
    var wanted := Distinct(s.requested);
    match FirstNegative(s.requested)
    case Some(t) => Err(NegativeTime(t))
    case None =>
      if |wanted| > s.count then Err(TooManyTimes(s.count))
      else if |wanted| < s.count && s.PreviewTime() !in wanted then Ok(wanted + [s.PreviewTime()])
      else Ok(wanted)
  }

  /** `build_forced_times`. */
  method BuildForcedTimes(s: Selector) returns (r: Result<seq<int>, SelectError>)
    requires s.spans != []
    ensures r == ForcedTimes(s)
    ensures r.Ok? ==> |r.value| <= s.count && forall t | t in s.requested :: t in r.value
    ensures r.Ok? && |r.value| < s.count ==> s.PreviewTime() in r.value
    ensures r.Ok? ==> forall i, j | 0 <= i < j < |r.value| :: r.value[i] != r.value[j]
  {
    var chosen: seq<int> := [];
    for i := 0 to |s.requested|
      invariant chosen == Distinct(s.requested[..i])
      invariant FirstNegative(s.requested) == FirstNegative(s.requested[i..])
    {
      var t := s.requested[i];
      assert s.requested[i..][1..] == s.requested[i + 1..];
      if t < 0 {
        return Err(NegativeTime(t));
      }
      assert s.requested[..i + 1][..i] == s.requested[..i];
      if t !in chosen {
        chosen := chosen + [t];
      }
    }
    assert s.requested[..|s.requested|] == s.requested;
    if |chosen| > s.count {
      return Err(TooManyTimes(s.count));
    }
    if |chosen| < s.count && s.PreviewTime() !in chosen {
      chosen := chosen + [s.PreviewTime()];
    }
    r := Ok(chosen);
  }

  // ----- choosing -----

  predicate Overlaps(a: int, b: int, d: int) {
    a < b + d && a + d > b
  }

  /** Instant `x` is played in the segment from `a` and in the one from `b`, both `d` long. */
  predicate PlayedInBoth(a: int, b: int, d: int, x: int) {
    a <= x < a + d && b <= x < b + d
  }

  /** Segments overlap exactly when some instant is played in both; empty ones never do. */
  lemma OverlapsExact(a: int, b: int, d: int)
    ensures d > 0 ==> (Overlaps(a, b, d) <==> exists x :: PlayedInBoth(a, b, d, x))
    ensures d == 0 ==> !Overlaps(a, b, d)
  {
    if d > 0 && Overlaps(a, b, d) {
      assert PlayedInBoth(a, b, d, if a < b then b else a);
    }
  }

  /** `does_not_overlap_existing`. */
  method DoesNotOverlapExisting(candidate: int, d: int, chosen: seq<int>) returns (r: bool)
    ensures r <==> forall k | 0 <= k < |chosen| :: !Overlaps(candidate, chosen[k], d)
    ensures d > 0 ==> (r <==> forall k, x | 0 <= k < |chosen| :: !PlayedInBoth(candidate, chosen[k], d, x))
    ensures d == 0 ==> r
  {
    forall k | 0 <= k < |chosen|
      ensures d > 0 ==> (Overlaps(candidate, chosen[k], d) <==> exists x :: PlayedInBoth(candidate, chosen[k], d, x))
      ensures d == 0 ==> !Overlaps(candidate, chosen[k], d)
    {
      OverlapsExact(candidate, chosen[k], d);
    }
    for i := 0 to |chosen|
      invariant forall k | 0 <= k < i :: !Overlaps(candidate, chosen[k], d)
    {
      if Overlaps(candidate, chosen[i], d) {
        return false;
      }
    }
    r := true;
  }

  /** The forced starts, followed by covered starts each clear of every other. */
  ghost predicate Selected(intervals: seq<Period>, d: int, forced: seq<int>, chosen: seq<int>) {
    && forced <= chosen
    && (forall i | |forced| <= i < |chosen| :: Covered(intervals, chosen[i]))
    && (forall i, j | |forced| <= i < |chosen| && 0 <= j < i :: !Overlaps(chosen[i], chosen[j], d))
  }

  lemma SelectedPush(intervals: seq<Period>, d: int, forced: seq<int>, chosen: seq<int>, t: int)
    requires Selected(intervals, d, forced, chosen) && Covered(intervals, t)
    requires forall k | 0 <= k < |chosen| :: !Overlaps(t, chosen[k], d)
    ensures Selected(intervals, d, forced, chosen + [t])
  {
  }

  /** The candidate meets no chosen segment. */
  predicate Clear(candidate: int, d: int, chosen: seq<int>) {
    forall k | 0 <= k < |chosen| :: !Overlaps(candidate, chosen[k], d)
  }

  /** Taking candidates in turn, each if it is clear of all taken before, until there are `count`. */
  function Greedy(chosen: seq<int>, candidates: seq<int>, count: nat, d: int): seq<int>
    decreases |candidates|
  {
    if candidates == [] || |chosen| >= count then chosen
    else
      Greedy(if Clear(candidates[0], d, chosen) then chosen + [candidates[0]] else chosen, candidates[1..], count, d)
  }

  lemma GreedyFull(chosen: seq<int>, candidates: seq<int>, count: nat, d: int)
    requires |chosen| >= count
    ensures Greedy(chosen, candidates, count, d) == chosen
  {
  }

  /** The starts that draws `from` to `to` name. */
  function Drawn(intervals: seq<Period>, draws: nat -> nat, from: nat, to: nat): (r: seq<int>)
    requires intervals != [] && Proper(intervals) && from <= to
    ensures |r| == to - from
  {
    TotalPositive(intervals, 0);
    seq(to - from, a requires 0 <= a < to - from => PickFrom(intervals, 0, draws(from + a) % Total(intervals, 0)))
  }

  lemma DrawnNext(intervals: seq<Period>, draws: nat -> nat, from: nat, to: nat)
    requires intervals != [] && Proper(intervals) && from < to
    ensures Total(intervals, 0) > 0
    ensures Drawn(intervals, draws, from, to)[0] == PickFrom(intervals, 0, draws(from) % Total(intervals, 0))
    ensures Drawn(intervals, draws, from, to)[1..] == Drawn(intervals, draws, from + 1, to)
  {
    TotalPositive(intervals, 0);
  }

  method ChooseAtRandom(intervals: seq<Period>, count: nat, d: int, forced: seq<int>, draws: nat -> nat)
      returns (chosen: seq<int>)
    requires Proper(intervals) && |forced| <= count
    ensures Selected(intervals, d, forced, chosen) && |chosen| <= count
    ensures chosen == if intervals == [] then forced else Greedy(forced, Drawn(intervals, draws, 0, 3000), count, d)
  {
    chosen := forced;
    var attempts := 0;
    while intervals != [] && |chosen| < count && attempts < MAX_ATTEMPTS
      invariant Selected(intervals, d, forced, chosen) && |chosen| <= count && attempts <= MAX_ATTEMPTS
      invariant intervals == [] ==> chosen == forced
      invariant intervals != [] ==>
        Greedy(chosen, Drawn(intervals, draws, attempts, 3000), count, d)
          == Greedy(forced, Drawn(intervals, draws, 0, 3000), count, d)
      decreases MAX_ATTEMPTS - attempts
    {
      var candidate := RandomStart(intervals, draws(attempts));
      PickCovered(intervals, 0, draws(attempts) % Total(intervals, 0));
      DrawnNext(intervals, draws, attempts, 3000);
      attempts := attempts + 1;
      var clear := DoesNotOverlapExisting(candidate, d, chosen);
      if clear {
        SelectedPush(intervals, d, forced, chosen, candidate);
        chosen := chosen + [candidate];
      }
    }
  }

  ghost predicate Ascends(s: seq<int>) {
    forall i, j | 0 <= i < j < |s| :: s[i] < s[j]
  }

  /** Strictly ascending, and each the start nearest to some object. */
  ghost predicate NearestOnly(spans: seq<Period>, intervals: seq<Period>, candidates: seq<int>) {
    && Ascends(candidates)
    && (forall c | c in candidates :: exists k :: 0 <= k < |spans| && Closest(intervals, spans[k].start, c))
  }

  lemma {:induction false} AscendsStrictly(s: seq<int>)
    requires SortedBy(s, AtMost)
    ensures Ascends(DropRepeats(s))
    decreases |s|
  {
    if s != [] {
      var last := |s| - 1;
      AscendsStrictly(s[..last]);
      var before := DropRepeats(s[..last]);
      forall k | 0 <= k < |before| ensures before[k] <= s[last] {
        assert before[k] in s[..last];
        var l :| 0 <= l < last && s[..last][l] == before[k];
        assert AtMost(s[l], s[last]);
      }
      forall k | 0 <= k < |before| && before[|before| - 1] != s[last] ensures before[k] < s[last] {
        assert before[|before| - 1] < s[last];
      }
    }
  }

  /** `fallback_start_candidates`: for every object, the start nearest to it. */
  method FallbackCandidates(spans: seq<Period>, intervals: seq<Period>) returns (candidates: seq<int>)
    requires Proper(intervals) && intervals != []
    ensures forall c | c in candidates :: Covered(intervals, c)
    ensures Apart(intervals) ==>
      forall k, t | 0 <= k < |spans| && Closest(intervals, spans[k].start, t) :: t in candidates
    ensures Apart(intervals) ==> NearestOnly(spans, intervals, candidates)
  {
    var nearest: seq<int> := [];
    for i := 0 to |spans|
      invariant |nearest| == i
      invariant forall c | c in nearest :: Covered(intervals, c)
      invariant Apart(intervals) ==> forall k | 0 <= k < i :: Closest(intervals, spans[k].start, nearest[k])
    {
      var c := NearestValidStart(spans[i].start, intervals);
      nearest := nearest + [c];
    }
    SortByMembers(nearest, AtMost);
    candidates := DropRepeats(SortBy(nearest, AtMost));
    SortBySorted(nearest, AtMost);
    AscendsStrictly(SortBy(nearest, AtMost));
    if Apart(intervals) {
      forall c | c in candidates ensures exists k :: 0 <= k < |spans| && Closest(intervals, spans[k].start, c) {
        var k :| 0 <= k < |nearest| && nearest[k] == c;
        assert Closest(intervals, spans[k].start, c);
      }
      forall k, t | 0 <= k < |spans| && Closest(intervals, spans[k].start, t) ensures t in candidates {
        assert nearest[k] in nearest;
        assert Closest(intervals, spans[k].start, nearest[k]);
        assert t == nearest[k];
      }
    }
  }

  ghost predicate Crowded(t: int, d: int, chosen: seq<int>) {
    exists k :: 0 <= k < |chosen| && Overlaps(t, chosen[k], d)
  }

  method ChooseFallbacks(
      intervals: seq<Period>, count: nat, d: int, candidates: seq<int>, ghost forced: seq<int>, before: seq<int>)
    returns (chosen: seq<int>)
    requires Selected(intervals, d, forced, before) && |before| < count
    requires forall c | c in candidates :: Covered(intervals, c)
    ensures Selected(intervals, d, forced, chosen) && |chosen| <= count
    ensures d > 0 && |chosen| < count ==> forall c | c in candidates :: Crowded(c, d, chosen)
    ensures chosen == Greedy(before, candidates, count, d)
  {
    chosen := before;
    for i := 0 to |candidates|
      invariant Selected(intervals, d, forced, chosen) && |chosen| < count
      invariant Greedy(chosen, candidates[i..], count, d) == Greedy(before, candidates, count, d)
      invariant d > 0 ==> forall k | 0 <= k < i :: Crowded(candidates[k], d, chosen)
    {
      ghost var earlier := chosen;
      var candidate := candidates[i];
      assert candidates[i..][1..] == candidates[i + 1..];
      var clear := DoesNotOverlapExisting(candidate, d, chosen);
      if clear {
        SelectedPush(intervals, d, forced, chosen, candidate);
        chosen := chosen + [candidate];
        assert d > 0 ==> Overlaps(candidate, chosen[|earlier|], d);
      }
      forall k | d > 0 && 0 <= k < i ensures Crowded(candidates[k], d, chosen) {
        var j :| 0 <= j < |earlier| && Overlaps(candidates[k], earlier[j], d);
        assert chosen[j] == earlier[j];
      }
      if |chosen| == count {
        GreedyFull(chosen, candidates[i + 1..], count, d);
        break;
      }
    }
  }

  /** Both starts were forced, or their segments do not overlap. */
  predicate Compatible(forced: seq<int>, d: int, a: int, b: int) {
    (a in forced && b in forced) || !Overlaps(a, b, d)
  }

  /** What is promised of the chosen starts, in any order. */
  ghost predicate GoodStarts(s: Selector, forced: seq<int>, starts: seq<int>)
    requires s.spans != []
  {
    && |starts| <= s.count
    && (forall t | t in forced :: t in starts)
    && (forall i, j | 0 <= i < j < |starts| :: Compatible(forced, s.duration, starts[i], starts[j]))
    && (s.duration > 0 ==> forall t | t in starts && t !in forced :: s.Startable(t))
    && (s.duration > 0 ==> forall i, j | 0 <= i < j < |starts| :: Different(starts[i], starts[j]))
  }

  predicate Different(a: int, b: int) {
    a != b
  }

  /** `t` is the start nearest to `time`, the earlier of two. */
  ghost predicate NearestStart(s: Selector, time: int, t: int)
    requires s.spans != []
  {
    && s.Startable(t)
    && forall u | s.Startable(u) ::
         Distance(t, time) < Distance(u, time) || (Distance(t, time) == Distance(u, time) && t <= u)
  }

  /** Either every segment was placed, or the start nearest to any object is already crowded. */
  ghost predicate Exhausted(s: Selector, starts: seq<int>)
    requires s.spans != []
  {
    |starts| == s.count
    || forall k, t | 0 <= k < |s.spans| && NearestStart(s, s.spans[k].start, t) :: Crowded(t, s.duration, starts)
  }

  lemma NearestIsClosest(s: Selector, intervals: seq<Period>, time: int, t: int)
    requires s.spans != [] && NearestStart(s, time, t)
    requires forall u :: Covered(intervals, u) <==> s.Startable(u)
    ensures Closest(intervals, time, t)
  {
  }

  /** No instant is played twice, unless in two segments that were both forced. */
  ghost predicate NothingPlayedTwice(forced: seq<int>, d: int, starts: seq<int>) {
    forall i, j, x | 0 <= i < j < |starts| && !(starts[i] in forced && starts[j] in forced) ::
      !PlayedInBoth(starts[i], starts[j], d, x)
  }

  lemma GoodPlaysOnce(s: Selector, forced: seq<int>, starts: seq<int>)
    requires s.spans != [] && GoodStarts(s, forced, starts)
    ensures NothingPlayedTwice(forced, s.duration, starts)
  {
    forall i, j, x | 0 <= i < j < |starts| && !(starts[i] in forced && starts[j] in forced)
      ensures !PlayedInBoth(starts[i], starts[j], s.duration, x)
    {
      assert Compatible(forced, s.duration, starts[i], starts[j]);
      OverlapsExact(starts[i], starts[j], s.duration);
    }
  }

  lemma SelectedIsGood(s: Selector, intervals: seq<Period>, forced: seq<int>, chosen: seq<int>)
    requires s.spans != [] && Selected(intervals, s.duration, forced, chosen) && |chosen| <= s.count
    requires s.duration > 0 ==> forall u :: Covered(intervals, u) <==> s.Startable(u)
    requires forall i, j | 0 <= i < j < |forced| :: forced[i] != forced[j]
    ensures GoodStarts(s, forced, chosen)
  {
    forall t | t in forced ensures t in chosen {
      var k :| 0 <= k < |forced| && forced[k] == t;
      assert chosen[k] == forced[k];
    }
    forall i, j | 0 <= i < j < |chosen| ensures Compatible(forced, s.duration, chosen[i], chosen[j]) {
      if j < |forced| {
        assert chosen[i] == forced[i] && chosen[j] == forced[j];
      } else {
        assert !Overlaps(chosen[j], chosen[i], s.duration);
      }
    }
    forall i, j | 0 <= i < j < |chosen| && s.duration > 0 ensures Different(chosen[i], chosen[j]) {
      if j < |forced| {
        assert chosen[i] == forced[i] && chosen[j] == forced[j];
      } else {
        assert !Overlaps(chosen[j], chosen[i], s.duration);
      }
    }
    forall k | 0 <= k < |forced| ensures chosen[k] in forced {
      assert chosen[k] == forced[k];
    }
    forall t | t in chosen && t !in forced ensures Covered(intervals, t) {
      var k :| 0 <= k < |chosen| && chosen[k] == t;
    }
  }

  lemma SortedIsGood(s: Selector, forced: seq<int>, chosen: seq<int>)
    requires s.spans != [] && GoodStarts(s, forced, chosen)
    ensures GoodStarts(s, forced, SortBy(chosen, AtMost)) && SortedBy(SortBy(chosen, AtMost), AtMost)
  {
    SortByMembers(chosen, AtMost);
    SortBySorted(chosen, AtMost);
    var sorted := SortBy(chosen, AtMost);
    var r := (a, b) => Compatible(forced, s.duration, a, b);
    SortByPairwise(chosen, AtMost, r);
    forall i, j | 0 <= i < j < |sorted| ensures Compatible(forced, s.duration, sorted[i], sorted[j]) {
      assert r(sorted[i], sorted[j]);
    }
    if s.duration > 0 {
      SortByPairwise(chosen, AtMost, Different);
      assert Pairwise(sorted, Different);
    }
  }

  lemma SortedCrowds(chosen: seq<int>, t: int, d: int)
    requires Crowded(t, d, chosen)
    ensures Crowded(t, d, SortBy(chosen, AtMost))
  {
    SortByMembers(chosen, AtMost);
    var k :| 0 <= k < |chosen| && Overlaps(t, chosen[k], d);
    var sorted := SortBy(chosen, AtMost);
    assert chosen[k] in sorted;
  }

  lemma SortedExhausted(s: Selector, chosen: seq<int>)
    requires s.spans != [] && Exhausted(s, chosen)
    ensures Exhausted(s, SortBy(chosen, AtMost))
  {
    if |chosen| != s.count {
      var sorted := SortBy(chosen, AtMost);
      forall k, t | 0 <= k < |s.spans| && NearestStart(s, s.spans[k].start, t) ensures Crowded(t, s.duration, sorted) {
        SortedCrowds(chosen, t, s.duration);
      }
    }
  }

  /** `break_periods_overlapping_segment`. */
  function BreaksWithin(breaks: seq<Period>, lo: int, hi: int): (r: seq<Period>)
    ensures forall p :: p in r <==> p in breaks && Meets(p, lo, hi)
  {
    if breaks == [] then []
    else
      var rest := BreaksWithin(breaks[1..], lo, hi);
      assert breaks == [breaks[0]] + breaks[1..];
      if Meets(breaks[0], lo, hi) then [breaks[0]] + rest else rest
  }

  /** They stand in the order in which they are declared. */
  lemma {:induction false} BreaksInOrder(a: seq<Period>, b: seq<Period>, lo: int, hi: int)
    ensures BreaksWithin(a + b, lo, hi) == BreaksWithin(a, lo, hi) + BreaksWithin(b, lo, hi)
  {
    if a == [] {
      assert a + b == b;
    } else {
      assert (a + b)[1..] == a[1..] + b;
      BreaksInOrder(a[1..], b, lo, hi);
    }
  }

  function Starts(segments: seq<Segment>): seq<int> {
    seq(|segments|, i requires 0 <= i < |segments| => segments[i].start)
  }

  /** The segment that begins at `t`: whether it is the preview, and the declared breaks it meets, in order. */
  function SegmentAt(s: Selector, t: int): Segment
    requires s.spans != []
  {
    Segment(t, t == s.PreviewTime(), BreaksWithin(s.breaks, t, t + s.duration))
  }

  /** Every segment says truly whether it is the preview and which declared breaks it meets. */
  predicate Labelled(s: Selector, segments: seq<Segment>)
    requires s.spans != []
  {
    forall i | 0 <= i < |segments| ::
      && (segments[i].isPreview <==> segments[i].start == s.PreviewTime())
      && segments[i].breaks == BreaksWithin(s.breaks, segments[i].start, segments[i].start + s.duration)
  }

  function SegmentsAt(s: Selector, starts: seq<int>): (r: seq<Segment>)
    requires s.spans != []
    ensures Labelled(s, r) && Starts(r) == starts
  {
    seq(|starts|, i requires 0 <= i < |starts| => SegmentAt(s, starts[i]))
  }

  /** Separate intervals that cover exactly the valid starts. */
  ghost predicate Describes(s: Selector, intervals: seq<Period>)
    requires s.spans != []
  {
    Proper(intervals) && Apart(intervals) && forall t :: Covered(intervals, t) <==> s.Startable(t)
  }

  /** The starts nearest to the objects, in ascending order. */
  ghost predicate Fallbacks(spans: seq<Period>, intervals: seq<Period>, candidates: seq<int>) {
    && NearestOnly(spans, intervals, candidates)
    && forall k, t | 0 <= k < |spans| && Closest(intervals, spans[k].start, t) :: t in candidates
  }

  /** After the forced starts come those of 3000 draws, then the starts nearest to the objects, each if it is clear. */
  ghost predicate InTurn(s: Selector, forced: seq<int>, draws: nat -> nat, chosen: seq<int>)
    requires s.spans != []
  {
    exists intervals :: Describes(s, intervals)
      && ThenFallbacks(s, intervals, AfterDraws(s, intervals, forced, draws), chosen)
  }

  ghost predicate ThenFallbacks(s: Selector, intervals: seq<Period>, drawn: seq<int>, chosen: seq<int>) {
    if intervals == [] || |drawn| >= s.count then chosen == drawn
    else
      exists candidates :: Fallbacks(s.spans, intervals, candidates)
        && chosen == Greedy(drawn, candidates, s.count, s.duration)
  }

  function AfterDraws(s: Selector, intervals: seq<Period>, forced: seq<int>, draws: nat -> nat): seq<int>
    requires Proper(intervals)
  {
    if intervals == [] then forced else Greedy(forced, Drawn(intervals, draws, 0, 3000), s.count, s.duration)
  }

  /** The choice of starts, before they are sorted. */
  method ChooseStarts(s: Selector, forced: seq<int>, draws: nat -> nat) returns (chosen: seq<int>)
    requires s.Valid() && |forced| <= s.count
    requires forall i, j | 0 <= i < j < |forced| :: forced[i] != forced[j]
    ensures GoodStarts(s, forced, chosen)
    ensures s.duration > 0 && Proper(s.breaks) ==> Exhausted(s, chosen) && InTurn(s, forced, draws, chosen)
  {
    var intervals := BuildValidStartIntervals(s.spans, s.breaks, s.duration);
    chosen := ChooseAtRandom(intervals, s.count, s.duration, forced, draws);
    ghost var drawn := chosen;
    if intervals != [] && |chosen| < s.count {
      var candidates := FallbackCandidates(s.spans, intervals);
      chosen := ChooseFallbacks(intervals, s.count, s.duration, candidates, forced, chosen);
      if s.duration > 0 && Proper(s.breaks) && |chosen| < s.count {
        forall k, t | 0 <= k < |s.spans| && NearestStart(s, s.spans[k].start, t)
          ensures Crowded(t, s.duration, chosen)
        {
          NearestIsClosest(s, intervals, s.spans[k].start, t);
        }
      }
      if s.duration > 0 && Proper(s.breaks) {
        assert Fallbacks(s.spans, intervals, candidates);
      }
    }
    if intervals == [] && s.duration > 0 {
      forall t ensures !s.Startable(t) {
        assert !Covered(intervals, t);
      }
    }
    if s.duration > 0 && Proper(s.breaks) {
      assert Describes(s, intervals) && drawn == AfterDraws(s, intervals, forced, draws);
      assert ThenFallbacks(s, intervals, drawn, chosen);
    }
    SelectedIsGood(s, intervals, forced, chosen);
  }

  /**
   * `choose`, for arbitrary random draws: the forced starts or their error; otherwise at most `count` starts in
   * order, the forced ones among them, every other one valid and clear of all the rest, and none left out that
   * is the start nearest to an object and still free.
   */
  method Choose(s: Selector, draws: nat -> nat) returns (r: Result<seq<Segment>, SelectError>)
    requires s.Valid()
    ensures r.Err? <==> ForcedTimes(s).Err?
    ensures r.Err? ==> r.error == ForcedTimes(s).error
    ensures r.Ok? ==>
      && SortedBy(Starts(r.value), AtMost)
      && GoodStarts(s, ForcedTimes(s).value, Starts(r.value))
      && NothingPlayedTwice(ForcedTimes(s).value, s.duration, Starts(r.value))
      && Labelled(s, r.value)
      && (s.duration > 0 && Proper(s.breaks) ==>
          && Exhausted(s, Starts(r.value))
          && exists chosen ::
               InTurn(s, ForcedTimes(s).value, draws, chosen) && Starts(r.value) == SortBy(chosen, AtMost))
  {
    var forced := BuildForcedTimes(s);
    if forced.Err? {
      return Err(forced.error);
    }
    var chosen := ChooseStarts(s, forced.value, draws);
    hide GoodStarts, Exhausted, ForcedTimes, InTurn;
    SortedIsGood(s, forced.value, chosen);
    var sorted := SortBy(chosen, AtMost);
    GoodPlaysOnce(s, forced.value, sorted);
    if s.duration > 0 && Proper(s.breaks) {
      SortedExhausted(s, chosen);
    }
    hide Labelled, Starts, SegmentsAt;
    r := Ok(SegmentsAt(s, sorted));
  }

  /** For a positive duration, a start that was not forced overlaps no other chosen segment, so it occurs once. */
  lemma UnforcedStandsAlone(s: Selector, forced: seq<int>, starts: seq<int>, i: nat, j: nat)
    requires s.spans != [] && s.duration > 0 && GoodStarts(s, forced, starts)
    requires i < |starts| && j < |starts| && i != j && starts[i] !in forced
    ensures forall x :: !PlayedInBoth(starts[i], starts[j], s.duration, x)
    ensures starts[i] != starts[j]
    ensures s.Startable(starts[i])
  {
    OverlapsExact(starts[i], starts[j], s.duration);
    if i < j {
      assert Compatible(forced, s.duration, starts[i], starts[j]);
    } else {
      assert Compatible(forced, s.duration, starts[j], starts[i]);
    }
  }
}
