/** Matching key presses to notes: candidates within the hit window, then greedily by error. */
module HitMatching {
  import opened Numbers
  import opened StableSort
  import opened Wrappers

  // ----- windows -----

  function Interpolate(difficulty: real, min: real, mid: real, max: real): real {
    if difficulty > 5.0 then mid + (max - mid) * (difficulty - 5.0) / 5.0
    else if difficulty < 5.0 then mid + (mid - min) * (difficulty - 5.0) / 5.0
    else mid
  }

  function Half(r: real): real {
    r.Floor as real - 0.5
  }

  /** Windows for 300, 100 and 50. */
  function HitWindows(od: real): (real, real, real) {
    (Half(Interpolate(od, 80.0, 50.0, 20.0)),
     Half(Interpolate(od, 140.0, 100.0, 60.0)),
     Half(Interpolate(od, 200.0, 150.0, 100.0)))
  }

  function PreemptFromAr(ar: real): real {
    if ar < 5.0 then 1200.0 + 600.0 * (5.0 - ar) / 5.0
    else if ar > 5.0 then 1200.0 - 750.0 * (ar - 5.0) / 5.0
    else 1200.0
  }

  /** For every difficulty the windows are these three lines, rounded down and less a half. */
  lemma WindowsAre(od: real)
    ensures HitWindows(od).0 == (80.0 - 6.0 * od).Floor as real - 0.5
    ensures HitWindows(od).1 == (140.0 - 8.0 * od).Floor as real - 0.5
    ensures HitWindows(od).2 == (200.0 - 10.0 * od).Floor as real - 0.5
  {
    assert Interpolate(od, 80.0, 50.0, 20.0) == 80.0 - 6.0 * od;
    assert Interpolate(od, 140.0, 100.0, 60.0) == 140.0 - 8.0 * od;
    assert Interpolate(od, 200.0, 150.0, 100.0) == 200.0 - 10.0 * od;
  }

  /** A note becomes visible earlier by 120 ms for each step below rate 5, and later by 150 ms for each above. */
  lemma PreemptIs(ar: real)
    ensures PreemptFromAr(ar) == if ar <= 5.0 then 1800.0 - 120.0 * ar else 1950.0 - 150.0 * ar
  {
  }

  lemma FloorMonotone(a: real, b: real)
    requires a <= b
    ensures a.Floor <= b.Floor
  {
  }

  /** The windows are nested up to difficulty 30, far beyond any real one. */
  lemma WindowsNested(od: real)
    requires od <= 30.0
    ensures HitWindows(od).0 <= HitWindows(od).1 <= HitWindows(od).2
  {
    FloorMonotone(Interpolate(od, 80.0, 50.0, 20.0), Interpolate(od, 140.0, 100.0, 60.0));
    FloorMonotone(Interpolate(od, 140.0, 100.0, 60.0), Interpolate(od, 200.0, 150.0, 100.0));
  }

  // ----- candidate pairs -----

  datatype Pair = Pair(err: real, note: nat, key: nat)

  predicate StrictlyIncreasing(s: seq<real>) {
    forall i, j | 0 <= i < j < |s| :: s[i] < s[j]
  }

  /** The key lies within the 50-window of the note, and not before the note is visible. */
  predicate Eligible(keys: seq<real>, notes: seq<real>, w50: real, preempt: real, n: nat, k: nat) {
    && n < |notes| && k < |keys|
    && notes[n] - w50 <= keys[k] <= notes[n] + w50
    && keys[k] >= notes[n] - preempt
  }

  function PairOf(keys: seq<real>, notes: seq<real>, n: nat, k: nat): Pair
    requires n < |notes| && k < |keys|
  {
    Pair(Abs(keys[k] - notes[n]), n, k)
  }

  /** The library's binary search, whether it reports a hit or an insertion point. */
  method SearchFrom(keys: seq<real>, lo: real) returns (start: nat)
    ensures start <= |keys|
    ensures StrictlyIncreasing(keys) ==>
      (forall i | 0 <= i < start :: keys[i] < lo) && (forall i | start <= i < |keys| :: keys[i] >= lo)
  {
    if |keys| == 0 {
      return 0;
    }
    var size, base := |keys|, 0;
    while size > 1
      invariant 1 <= size && base + size <= |keys|
      invariant StrictlyIncreasing(keys) ==>
        (base > 0 ==> keys[base] <= lo) && (forall i | base + size <= i < |keys| :: keys[i] > lo)
    {
      var half := size / 2;
      var mid := base + half;
      if keys[mid] <= lo {
        base := mid;
      }
      size := size - half;
    }
    start := if keys[base] < lo then base + 1 else base;
  }

  /** By note and then by key. */
  predicate ByPlace(a: Pair, b: Pair) {
    a.note < b.note || (a.note == b.note && a.key < b.key)
  }

  /** No pair occurs twice. */
  ghost predicate InOrder(pairs: seq<Pair>) {
    Pairwise(pairs, ByPlace)
  }

  /** What has been found is in order and comes before key `k` of note `n`. */
  ghost predicate FoundUpTo(pairs: seq<Pair>, n: nat, k: nat) {
    InOrder(pairs) && forall i | 0 <= i < |pairs| ::
      pairs[i].note < n || (pairs[i].note == n && pairs[i].key < k)
  }

  /** The pairs found so far: exactly those with an eligible key, up to key `k` of note `n`. */
  ghost predicate PairsUpTo(
      pairs: seq<Pair>, keys: seq<real>, notes: seq<real>, w50: real, preempt: real, n: nat, k: nat)
  {
    && (forall p | p in pairs ::
          && Eligible(keys, notes, w50, preempt, p.note, p.key) && p == PairOf(keys, notes, p.note, p.key)
          && (p.note < n || (p.note == n && p.key < k)))
    && (forall m: nat, l: nat | Eligible(keys, notes, w50, preempt, m, l) && (m < n || (m == n && l < k)) ::
          PairOf(keys, notes, m, l) in pairs)
  }

  /** The next key of note `n`, with its pair if it is eligible. */
  lemma KeySeen(pairs: seq<Pair>, keys: seq<real>, notes: seq<real>, w50: real, preempt: real, n: nat, k: nat)
    requires n < |notes| && k < |keys| && PairsUpTo(pairs, keys, notes, w50, preempt, n, k)
    ensures
      var seen := if Eligible(keys, notes, w50, preempt, n, k) then pairs + [PairOf(keys, notes, n, k)] else pairs;
      PairsUpTo(seen, keys, notes, w50, preempt, n, k + 1)
  {
    hide Abs;
  }

  /** Keys that are not eligible for note `n` can be skipped. */
  lemma KeysSkipped(
      pairs: seq<Pair>, keys: seq<real>, notes: seq<real>, w50: real, preempt: real, n: nat, k: nat, l: nat)
    requires k <= l && PairsUpTo(pairs, keys, notes, w50, preempt, n, k)
    requires forall j | k <= j < l :: !Eligible(keys, notes, w50, preempt, n, j)
    ensures PairsUpTo(pairs, keys, notes, w50, preempt, n, l)
    ensures l >= |keys| ==> PairsUpTo(pairs, keys, notes, w50, preempt, n + 1, 0)
  {
  }

  /** Step 1 of `match_hits`; for strictly increasing key times it finds exactly the eligible pairs. */
  method CandidatePairs(keys: seq<real>, notes: seq<real>, w50: real, preempt: real) returns (pairs: seq<Pair>)
    ensures forall p | p in pairs :: p.note < |notes| && p.key < |keys| && p == PairOf(keys, notes, p.note, p.key)
    ensures InOrder(pairs)
    ensures StrictlyIncreasing(keys) ==> PairsUpTo(pairs, keys, notes, w50, preempt, |notes|, 0)
  {
    pairs := [];
    for ni := 0 to |notes|
      invariant forall p | p in pairs :: p.note < |notes| && p.key < |keys| && p == PairOf(keys, notes, p.note, p.key)
      invariant FoundUpTo(pairs, ni, 0)
      invariant StrictlyIncreasing(keys) ==> PairsUpTo(pairs, keys, notes, w50, preempt, ni, 0)
    {
      var nt := notes[ni];
      var hi := nt + w50;
      var start := SearchFrom(keys, nt - w50);
      var ki := start;
      if StrictlyIncreasing(keys) {
        KeysSkipped(pairs, keys, notes, w50, preempt, ni, 0, start);
      }
      hide PairsUpTo;
      while ki < |keys|
        invariant start <= ki <= |keys|
        invariant forall p | p in pairs ::
          p.note < |notes| && p.key < |keys| && p == PairOf(keys, notes, p.note, p.key)
        invariant FoundUpTo(pairs, ni, ki)
        invariant StrictlyIncreasing(keys) ==> PairsUpTo(pairs, keys, notes, w50, preempt, ni, ki)
      {
        if keys[ki] > hi {
          if StrictlyIncreasing(keys) {
            KeysSkipped(pairs, keys, notes, w50, preempt, ni, ki, |keys|);
          }
          break;
        }
        if StrictlyIncreasing(keys) {
          KeySeen(pairs, keys, notes, w50, preempt, ni, ki);
        }
        if keys[ki] >= nt - preempt {
          pairs := pairs + [Pair(Abs(keys[ki] - nt), ni, ki)];
        }
        ki := ki + 1;
      }
    }
  }

  // ----- greedy assignment -----

  predicate ErrLe(a: Pair, b: Pair) {
    a.err <= b.err
  }

  datatype Hit = Hit(time: real, grade: int, key: Option<real>)

  function Grade(err: real, w300: real, w100: real): int {
    if err <= w300 then 3 else if err <= w100 then 2 else 1
  }

  predicate Chosen(keyOf: seq<Option<nat>>, p: Pair) {
    p.note < |keyOf| && keyOf[p.note] == Some(p.key)
  }

  /** Smaller errors first, then earlier notes, then earlier keys. */
  predicate NoLater(a: Pair, b: Pair) {
    a.err < b.err || (a.err == b.err && (a.note < b.note || (a.note == b.note && a.key <= b.key)))
  }

  /** Sorting by error alone also decides between equal errors, since it is stable. */
  lemma SortedByRank(pairs: seq<Pair>)
    requires InOrder(pairs)
    ensures SortedBy(SortBy(pairs, ErrLe), NoLater)
  {
    var sorted := SortBy(pairs, ErrLe);
    SortBySorted(pairs, ErrLe);
    SortByStable(pairs, ErrLe, ByPlace);
    forall i, j | 0 <= i < j < |sorted| ensures NoLater(sorted[i], sorted[j]) {
      assert ErrLe(sorted[i], sorted[j]);
      assert ErrLe(sorted[j], sorted[i]) ==> ByPlace(sorted[i], sorted[j]);
    }
  }

  /** `q` takes the note or the key of `p`, and comes no later. */
  predicate Blocks(q: Pair, p: Pair) {
    (q.note == p.note || q.key == p.key) && NoLater(q, p)
  }

  ghost predicate Offered(pairs: seq<Pair>, n: nat, k: nat) {
    exists p :: p in pairs && p.note == n && p.key == k
  }

  /** A chosen pair blocks `p`. */
  ghost predicate Beaten(pairs: seq<Pair>, keyOf: seq<Option<nat>>, p: Pair) {
    exists q :: q in pairs && Chosen(keyOf, q) && Blocks(q, p)
  }

  /** Only offered pairs are chosen, no key is used twice, and each pair left out loses to a chosen one. */
  ghost predicate Stable(pairs: seq<Pair>, keyOf: seq<Option<nat>>) {
    && (forall n | 0 <= n < |keyOf| && keyOf[n].Some? :: Offered(pairs, n, keyOf[n].value))
    && (forall n, m | 0 <= n < m < |keyOf| && keyOf[n].Some? :: keyOf[n] != keyOf[m])
    && (forall p | p in pairs :: Chosen(keyOf, p) || Beaten(pairs, keyOf, p))
  }

  /** There is only one stable choice. */
  lemma {:induction false} StableUnique(sorted: seq<Pair>, a: seq<Option<nat>>, b: seq<Option<nat>>, j: nat)
    requires Ranked(sorted) && SameErrors(sorted)
    requires Stable(sorted, a) && Stable(sorted, b) && j < |sorted|
    ensures Chosen(a, sorted[j]) <==> Chosen(b, sorted[j])
    decreases j
  {
    if Chosen(a, sorted[j]) && !Chosen(b, sorted[j]) {
      ChosenTransfers(sorted, a, b, j);
    } else if Chosen(b, sorted[j]) && !Chosen(a, sorted[j]) {
      ChosenTransfers(sorted, b, a, j);
    }
  }

  /** In the order in which pairs are considered, none twice. */
  predicate Ranked(sorted: seq<Pair>) {
    forall x, y | 0 <= x < y < |sorted| :: !NoLater(sorted[y], sorted[x])
  }

  /** The error of a pair is that of its note and its key. */
  predicate SameErrors(sorted: seq<Pair>) {
    forall x, y | 0 <= x < |sorted| && 0 <= y < |sorted|
        && sorted[x].note == sorted[y].note && sorted[x].key == sorted[y].key ::
      sorted[x].err == sorted[y].err
  }

  lemma {:induction false} ChosenTransfers(sorted: seq<Pair>, a: seq<Option<nat>>, b: seq<Option<nat>>, j: nat)
    requires Ranked(sorted) && SameErrors(sorted)
    requires Stable(sorted, a) && Stable(sorted, b) && j < |sorted|
    requires Chosen(a, sorted[j])
    ensures Chosen(b, sorted[j])
    decreases j
  {
    if !Chosen(b, sorted[j]) {
      var i := EarlierRival(sorted, b, j);
      ChosenTransfers(sorted, b, a, i);
      OneOfRivals(sorted, a, i, j);
      assert false;
    }
  }

  /** A pair left out lost to a chosen one considered before it. */
  lemma EarlierRival(sorted: seq<Pair>, b: seq<Option<nat>>, j: nat) returns (i: nat)
    requires Ranked(sorted)
    requires Stable(sorted, b) && j < |sorted| && !Chosen(b, sorted[j])
    ensures i < j && Chosen(b, sorted[i])
    ensures sorted[i].note == sorted[j].note || sorted[i].key == sorted[j].key
  {
    assert sorted[j] in sorted;
    assert Beaten(sorted, b, sorted[j]);
    var q :| q in sorted && Chosen(b, q) && Blocks(q, sorted[j]);
    i :| 0 <= i < |sorted| && sorted[i] == q;
  }

  /** Two different pairs that share a note or a key are never both chosen. */
  lemma OneOfRivals(sorted: seq<Pair>, a: seq<Option<nat>>, i: nat, j: nat)
    requires Stable(sorted, a) && i < j < |sorted|
    requires sorted[i].note == sorted[j].note || sorted[i].key == sorted[j].key
    requires Ranked(sorted) && SameErrors(sorted)
    ensures !(Chosen(a, sorted[i]) && Chosen(a, sorted[j]))
  {
  }

  /** Each owned note knows its pair, and the pair's key has the same owner. */
  predicate NotesOwned(sorted: seq<Pair>, i: nat, noteOwner: seq<Option<nat>>, keyOwner: seq<Option<nat>>)
    requires i <= |sorted|
  {
    forall n | 0 <= n < |noteOwner| && noteOwner[n].Some? ::
      && noteOwner[n].value < i && sorted[noteOwner[n].value].note == n
      && sorted[noteOwner[n].value].key < |keyOwner|
      && keyOwner[sorted[noteOwner[n].value].key] == noteOwner[n]
  }

  predicate KeysOwned(sorted: seq<Pair>, i: nat, noteOwner: seq<Option<nat>>, keyOwner: seq<Option<nat>>)
    requires i <= |sorted|
  {
    forall k | 0 <= k < |keyOwner| && keyOwner[k].Some? ::
      && keyOwner[k].value < i && sorted[keyOwner[k].value].key == k
      && sorted[keyOwner[k].value].note < |noteOwner|
      && noteOwner[sorted[keyOwner[k].value].note] == keyOwner[k]
  }

  predicate PairsSettled(sorted: seq<Pair>, i: nat, noteOwner: seq<Option<nat>>, keyOwner: seq<Option<nat>>)
    requires i <= |sorted|
  {
    forall j | 0 <= j < i && sorted[j].note < |noteOwner| && sorted[j].key < |keyOwner| ::
      || (noteOwner[sorted[j].note].Some? && noteOwner[sorted[j].note].value <= j)
      || (keyOwner[sorted[j].key].Some? && keyOwner[sorted[j].key].value <= j)
  }

  /** What the loop has decided about the first `i` pairs: which of them owns each note and key. */
  predicate Decided(sorted: seq<Pair>, i: nat, noteOwner: seq<Option<nat>>, keyOwner: seq<Option<nat>>)
    requires i <= |sorted|
  {
    && NotesOwned(sorted, i, noteOwner, keyOwner)
    && KeysOwned(sorted, i, noteOwner, keyOwner)
    && PairsSettled(sorted, i, noteOwner, keyOwner)
  }

  function KeyOf(sorted: seq<Pair>, noteOwner: seq<Option<nat>>): seq<Option<nat>> {
    seq(|noteOwner|, n requires 0 <= n < |noteOwner| =>
      if noteOwner[n].Some? && noteOwner[n].value < |sorted| then Some(sorted[noteOwner[n].value].key) else None)
  }

  lemma DecidedBeaten(sorted: seq<Pair>, noteOwner: seq<Option<nat>>, keyOwner: seq<Option<nat>>, j: nat)
    requires SortedBy(sorted, NoLater)
    requires Decided(sorted, |sorted|, noteOwner, keyOwner)
    requires j < |sorted| && sorted[j].note < |noteOwner| && sorted[j].key < |keyOwner|
    ensures Beaten(sorted, KeyOf(sorted, noteOwner), sorted[j])
  {
    var p := sorted[j];
    var i := if noteOwner[p.note].Some? && noteOwner[p.note].value <= j
             then noteOwner[p.note].value else keyOwner[p.key].value;
    BlockedBy(sorted, noteOwner, keyOwner, i, j);
    assert sorted[i] in sorted;
  }

  lemma DecidedOneToOne(
      sorted: seq<Pair>, noteOwner: seq<Option<nat>>, keyOwner: seq<Option<nat>>, n: nat, m: nat)
    requires Decided(sorted, |sorted|, noteOwner, keyOwner)
    requires n < m < |noteOwner| && KeyOf(sorted, noteOwner)[n].Some?
    ensures KeyOf(sorted, noteOwner)[n] != KeyOf(sorted, noteOwner)[m]
  {
  }

  lemma DecidedStable(sorted: seq<Pair>, noteOwner: seq<Option<nat>>, keyOwner: seq<Option<nat>>)
    requires SortedBy(sorted, NoLater)
    requires forall j | 0 <= j < |sorted| :: sorted[j].note < |noteOwner| && sorted[j].key < |keyOwner|
    requires Decided(sorted, |sorted|, noteOwner, keyOwner)
    ensures Stable(sorted, KeyOf(sorted, noteOwner))
  {
    var keyOf := KeyOf(sorted, noteOwner);
    forall n | 0 <= n < |keyOf| && keyOf[n].Some? ensures Offered(sorted, n, keyOf[n].value) {
      assert sorted[noteOwner[n].value] in sorted;
    }
    forall n, m | 0 <= n < m < |keyOf| && keyOf[n].Some? ensures keyOf[n] != keyOf[m] {
      DecidedOneToOne(sorted, noteOwner, keyOwner, n, m);
    }
    forall p | p in sorted ensures Beaten(sorted, keyOf, p) {
      var j :| 0 <= j < |sorted| && sorted[j] == p;
      DecidedBeaten(sorted, noteOwner, keyOwner, j);
    }
  }

  lemma BlockedBy(sorted: seq<Pair>, noteOwner: seq<Option<nat>>, keyOwner: seq<Option<nat>>, i: nat, j: nat)
    requires SortedBy(sorted, NoLater) && i <= j < |sorted|
    requires sorted[i].note < |noteOwner| && noteOwner[sorted[i].note] == Some(i)
    requires sorted[i].note == sorted[j].note || sorted[i].key == sorted[j].key
    ensures Chosen(KeyOf(sorted, noteOwner), sorted[i]) && Blocks(sorted[i], sorted[j])
  {
    assert i < j ==> NoLater(sorted[i], sorted[j]);
  }

  /** The results say for each note which key it got and how good it was. */
  predicate Reports(
      results: seq<Hit>, keyOf: seq<Option<nat>>, keys: seq<real>, notes: seq<real>, w300: real, w100: real)
  {
    && |results| == |keyOf| == |notes|
    && forall n | 0 <= n < |notes| ::
         match keyOf[n]
         case None => results[n] == Hit(notes[n], 0, None)
         case Some(k) =>
           k < |keys| && results[n] == Hit(notes[n], Grade(Abs(keys[k] - notes[n]), w300, w100), Some(keys[k]))
  }

  predicate BothFree(sorted: seq<Pair>, i: nat, noteOwner: seq<Option<nat>>, keyOwner: seq<Option<nat>>)
    requires i < |sorted| && sorted[i].note < |noteOwner| && sorted[i].key < |keyOwner|
  {
    noteOwner[sorted[i].note].None? && keyOwner[sorted[i].key].None?
  }

  lemma DecideOne(sorted: seq<Pair>, i: nat, noteOwner: seq<Option<nat>>, keyOwner: seq<Option<nat>>)
    requires i < |sorted| && sorted[i].note < |noteOwner| && sorted[i].key < |keyOwner|
    requires Decided(sorted, i, noteOwner, keyOwner)
    ensures if BothFree(sorted, i, noteOwner, keyOwner)
      then Decided(sorted, i + 1, noteOwner[sorted[i].note := Some(i)], keyOwner[sorted[i].key := Some(i)])
      else Decided(sorted, i + 1, noteOwner, keyOwner)
  {
    if BothFree(sorted, i, noteOwner, keyOwner) {
      TakeNotes(sorted, i, noteOwner, keyOwner);
      TakeKeys(sorted, i, noteOwner, keyOwner);
      TakePairs(sorted, i, noteOwner, keyOwner);
    } else {
      hide NotesOwned, KeysOwned;
      SkipPair(sorted, i, noteOwner, keyOwner);
    }
  }

  lemma SkipPair(sorted: seq<Pair>, i: nat, noteOwner: seq<Option<nat>>, keyOwner: seq<Option<nat>>)
    requires i < |sorted| && sorted[i].note < |noteOwner| && sorted[i].key < |keyOwner|
    requires Decided(sorted, i, noteOwner, keyOwner) && !BothFree(sorted, i, noteOwner, keyOwner)
    ensures NotesOwned(sorted, i + 1, noteOwner, keyOwner) && KeysOwned(sorted, i + 1, noteOwner, keyOwner)
    ensures PairsSettled(sorted, i + 1, noteOwner, keyOwner)
  {
  }

  lemma TakeNotes(sorted: seq<Pair>, i: nat, noteOwner: seq<Option<nat>>, keyOwner: seq<Option<nat>>)
    requires i < |sorted| && sorted[i].note < |noteOwner| && sorted[i].key < |keyOwner|
    requires NotesOwned(sorted, i, noteOwner, keyOwner) && BothFree(sorted, i, noteOwner, keyOwner)
    ensures NotesOwned(sorted, i + 1, noteOwner[sorted[i].note := Some(i)], keyOwner[sorted[i].key := Some(i)])
  {
  }

  lemma TakeKeys(sorted: seq<Pair>, i: nat, noteOwner: seq<Option<nat>>, keyOwner: seq<Option<nat>>)
    requires i < |sorted| && sorted[i].note < |noteOwner| && sorted[i].key < |keyOwner|
    requires KeysOwned(sorted, i, noteOwner, keyOwner) && BothFree(sorted, i, noteOwner, keyOwner)
    ensures KeysOwned(sorted, i + 1, noteOwner[sorted[i].note := Some(i)], keyOwner[sorted[i].key := Some(i)])
  {
  }

  lemma TakePairs(sorted: seq<Pair>, i: nat, noteOwner: seq<Option<nat>>, keyOwner: seq<Option<nat>>)
    requires i < |sorted| && sorted[i].note < |noteOwner| && sorted[i].key < |keyOwner|
    requires PairsSettled(sorted, i, noteOwner, keyOwner) && BothFree(sorted, i, noteOwner, keyOwner)
    ensures PairsSettled(sorted, i + 1, noteOwner[sorted[i].note := Some(i)], keyOwner[sorted[i].key := Some(i)])
  {
  }

  lemma ReportOne(
      sorted: seq<Pair>, i: nat, noteOwner: seq<Option<nat>>, results: seq<Hit>, keys: seq<real>,
      notes: seq<real>, w300: real, w100: real)
    requires i < |sorted| && sorted[i].note < |noteOwner| == |notes| && sorted[i].key < |keys|
    requires sorted[i] == PairOf(keys, notes, sorted[i].note, sorted[i].key)
    requires Reports(results, KeyOf(sorted, noteOwner), keys, notes, w300, w100)
    ensures
      var p := sorted[i];
      Reports(results[p.note := Hit(notes[p.note], Grade(p.err, w300, w100), Some(keys[p.key]))],
              KeyOf(sorted, noteOwner[p.note := Some(i)]), keys, notes, w300, w100)
  {
    var p := sorted[i];
    assert KeyOf(sorted, noteOwner[p.note := Some(i)]) == KeyOf(sorted, noteOwner)[p.note := Some(p.key)];
  }

  predicate Proper(pairs: seq<Pair>, keys: seq<real>, notes: seq<real>) {
    forall j | 0 <= j < |pairs| ::
      pairs[j].note < |notes| && pairs[j].key < |keys| && pairs[j] == PairOf(keys, notes, pairs[j].note, pairs[j].key)
  }

  /** The results report a stable choice among the offered pairs. */
  ghost predicate StableResults(
      results: seq<Hit>, pairs: seq<Pair>, keys: seq<real>, notes: seq<real>, w300: real, w100: real)
  {
    exists keyOf :: Reports(results, keyOf, keys, notes, w300, w100) && Stable(pairs, keyOf)
  }

  /** Steps 2 and 3 of `match_hits`: sort by error, then take every pair whose note and key are both free. */
  method AssignGreedily(pairs: seq<Pair>, keys: seq<real>, notes: seq<real>, w300: real, w100: real)
    returns (results: seq<Hit>)
    requires forall p | p in pairs :: p.note < |notes| && p.key < |keys| && p == PairOf(keys, notes, p.note, p.key)
    requires InOrder(pairs)
    ensures StableResults(results, pairs, keys, notes, w300, w100)
  {
    var sorted := SortBy(pairs, ErrLe);
    SortedByRank(pairs);
    SortByMembers(pairs, ErrLe);
    ghost var keyOf;
    results, keyOf := AssignSorted(sorted, keys, notes, w300, w100);
    SameMembersStable(sorted, pairs, keyOf);
  }

  /** The flags and results of the greedy loop, in terms of which pair owns what. */
  ghost predicate Progress(
      sorted: seq<Pair>, i: nat, noteUsed: seq<bool>, keyUsed: seq<bool>, noteOwner: seq<Option<nat>>,
      keyOwner: seq<Option<nat>>)
    requires i <= |sorted|
  {
    && |noteUsed| == |noteOwner| && |keyUsed| == |keyOwner|
    && (forall n | 0 <= n < |noteUsed| :: noteUsed[n] <==> noteOwner[n].Some?)
    && (forall k | 0 <= k < |keyUsed| :: keyUsed[k] <==> keyOwner[k].Some?)
    && Decided(sorted, i, noteOwner, keyOwner)
  }

  lemma ProgressOne(
      sorted: seq<Pair>, i: nat, noteUsed: seq<bool>, keyUsed: seq<bool>, noteOwner: seq<Option<nat>>,
      keyOwner: seq<Option<nat>>)
    requires i < |sorted| && Progress(sorted, i, noteUsed, keyUsed, noteOwner, keyOwner)
    requires sorted[i].note < |noteUsed| && sorted[i].key < |keyUsed|
    ensures
      var n, k := sorted[i].note, sorted[i].key;
      if !noteUsed[n] && !keyUsed[k]
      then Progress(sorted, i + 1, noteUsed[n := true], keyUsed[k := true],
                    noteOwner[n := Some(i)], keyOwner[k := Some(i)])
      else Progress(sorted, i + 1, noteUsed, keyUsed, noteOwner, keyOwner)
  {
    DecideOne(sorted, i, noteOwner, keyOwner);
  }

  method AssignSorted(sorted: seq<Pair>, keys: seq<real>, notes: seq<real>, w300: real, w100: real)
    returns (results: seq<Hit>, ghost keyOf: seq<Option<nat>>)
    requires Proper(sorted, keys, notes) && SortedBy(sorted, NoLater)
    ensures Reports(results, keyOf, keys, notes, w300, w100)
    ensures Stable(sorted, keyOf)
  {
    var noteUsed := seq(|notes|, _ => false);
    var keyUsed := seq(|keys|, _ => false);
    results := seq(|notes|, n requires 0 <= n < |notes| => Hit(notes[n], 0, None));
    ghost var noteOwner: seq<Option<nat>> := seq(|notes|, _ => None);
    ghost var keyOwner: seq<Option<nat>> := seq(|keys|, _ => None);
    var i := 0;
    while i < |sorted|
      invariant 0 <= i <= |sorted|
      invariant |noteUsed| == |notes| && |keyUsed| == |keys|
      invariant Progress(sorted, i, noteUsed, keyUsed, noteOwner, keyOwner)
      invariant Reports(results, KeyOf(sorted, noteOwner), keys, notes, w300, w100)
    {
      var p := sorted[i];
      ProgressOne(sorted, i, noteUsed, keyUsed, noteOwner, keyOwner);
      if !noteUsed[p.note] && !keyUsed[p.key] {
        ReportOne(sorted, i, noteOwner, results, keys, notes, w300, w100);
        noteUsed := noteUsed[p.note := true];
        keyUsed := keyUsed[p.key := true];
        results := results[p.note := Hit(notes[p.note], Grade(p.err, w300, w100), Some(keys[p.key]))];
        noteOwner := noteOwner[p.note := Some(i)];
        keyOwner := keyOwner[p.key := Some(i)];
      }
      i := i + 1;
    }
    keyOf := KeyOf(sorted, noteOwner);
    DecidedStable(sorted, noteOwner, keyOwner);
  }

  lemma SameMembersStable(a: seq<Pair>, b: seq<Pair>, keyOf: seq<Option<nat>>)
    requires Stable(a, keyOf) && forall p :: p in a <==> p in b
    ensures Stable(b, keyOf)
  {
    forall p | p in b ensures Chosen(keyOf, p) || Beaten(b, keyOf, p) {
      assert p in a;
      if !Chosen(keyOf, p) {
        var q :| q in a && Chosen(keyOf, q) && Blocks(q, p);
        assert q in b;
      }
    }
    forall n | 0 <= n < |keyOf| && keyOf[n].Some? ensures Offered(b, n, keyOf[n].value) {
      assert Offered(a, n, keyOf[n].value);
    }
  }

  /** One-to-one, within the windows, and without a blocking pair among all eligible ones. */
  ghost predicate BestMatching(
      keyOf: seq<Option<nat>>, keys: seq<real>, notes: seq<real>, w50: real, preempt: real)
  {
    && |keyOf| == |notes|
    && (forall n: nat | n < |notes| && keyOf[n].Some? :: Eligible(keys, notes, w50, preempt, n, keyOf[n].value))
    && (forall n, m | 0 <= n < m < |notes| && keyOf[n].Some? :: keyOf[n] != keyOf[m])
    && (forall n: nat, k: nat | Eligible(keys, notes, w50, preempt, n, k) :: Served(keyOf, keys, notes, n, k))
  }

  /** Key `l` is nearer to note `m` than key `k` is to note `n`; of equal distances the earlier note, then key, wins. */
  predicate Wins(keys: seq<real>, notes: seq<real>, m: nat, l: nat, n: nat, k: nat)
    requires m < |notes| && n < |notes| && l < |keys| && k < |keys|
  {
    var d, e := Abs(keys[l] - notes[m]), Abs(keys[k] - notes[n]);
    d < e || (d == e && (m < n || (m == n && l < k)))
  }

  /** Note `n` and key `k` are matched, or one of them is matched to another that wins. */
  ghost predicate Served(keyOf: seq<Option<nat>>, keys: seq<real>, notes: seq<real>, n: nat, k: nat)
    requires |keyOf| == |notes| && n < |notes| && k < |keys|
  {
    || keyOf[n] == Some(k)
    || (keyOf[n].Some? && keyOf[n].value < |keys| && Wins(keys, notes, n, keyOf[n].value, n, k))
    || (exists m: nat :: m < |notes| && keyOf[m] == Some(k) && Wins(keys, notes, m, k, n, k))
  }

  /** The pairs that win against note `n` and key `k`. */
  ghost function Winners(keys: seq<real>, notes: seq<real>, n: nat, k: nat): set<(nat, nat)>
    requires n < |notes| && k < |keys|
  {
    set m: nat, l: nat | m < |notes| && l < |keys| && Wins(keys, notes, m, l, n, k) :: (m, l)
  }

  lemma FewerWinners(keys: seq<real>, notes: seq<real>, m: nat, l: nat, n: nat, k: nat)
    requires m < |notes| && n < |notes| && l < |keys| && k < |keys| && Wins(keys, notes, m, l, n, k)
    ensures Winners(keys, notes, m, l) < Winners(keys, notes, n, k)
  {
    hide Abs;
    assert (m, l) in Winners(keys, notes, n, k) && (m, l) !in Winners(keys, notes, m, l);
  }

  lemma {:induction false} MatchTransfers(
      a: seq<Option<nat>>, b: seq<Option<nat>>, keys: seq<real>, notes: seq<real>, w50: real, preempt: real,
      n: nat, k: nat)
    requires BestMatching(a, keys, notes, w50, preempt) && BestMatching(b, keys, notes, w50, preempt)
    requires n < |notes| && k < |keys| && a[n] == Some(k)
    ensures b[n] == Some(k)
    decreases Winners(keys, notes, n, k)
  {
    assert Served(b, keys, notes, n, k);
    if b[n] == Some(k) {
    } else if b[n].Some? && b[n].value < |keys| && Wins(keys, notes, n, b[n].value, n, k) {
      FewerWinners(keys, notes, n, b[n].value, n, k);
      MatchTransfers(b, a, keys, notes, w50, preempt, n, b[n].value);
    } else {
      var m: nat :| m < |notes| && b[m] == Some(k) && Wins(keys, notes, m, k, n, k);
      FewerWinners(keys, notes, m, k, n, k);
      MatchTransfers(b, a, keys, notes, w50, preempt, m, k);
    }
  }

  /** The keys and notes determine the matching: there is no second one like it. */
  lemma MatchingUnique(
      a: seq<Option<nat>>, b: seq<Option<nat>>, keys: seq<real>, notes: seq<real>, w50: real, preempt: real)
    requires BestMatching(a, keys, notes, w50, preempt) && BestMatching(b, keys, notes, w50, preempt)
    ensures a == b
  {
    forall n | 0 <= n < |notes| ensures a[n] == b[n] {
      if a[n].Some? {
        MatchTransfers(a, b, keys, notes, w50, preempt, n, a[n].value);
      } else if b[n].Some? {
        MatchTransfers(b, a, keys, notes, w50, preempt, n, b[n].value);
      }
    }
  }

  lemma StableIsBest(
      pairs: seq<Pair>, keyOf: seq<Option<nat>>, keys: seq<real>, notes: seq<real>, w50: real, preempt: real)
    requires |keyOf| == |notes| && Stable(pairs, keyOf)
    requires PairsUpTo(pairs, keys, notes, w50, preempt, |notes|, 0)
    ensures BestMatching(keyOf, keys, notes, w50, preempt)
  {
    forall n: nat, k: nat | Eligible(keys, notes, w50, preempt, n, k) ensures Served(keyOf, keys, notes, n, k) {
      var p := PairOf(keys, notes, n, k);
      assert p in pairs;
      if !Chosen(keyOf, p) {
        assert Beaten(pairs, keyOf, p);
        var q :| q in pairs && Chosen(keyOf, q) && Blocks(q, p);
      }
    }
    forall n: nat | n < |notes| && keyOf[n].Some?
      ensures Eligible(keys, notes, w50, preempt, n, keyOf[n].value)
    {
      assert Offered(pairs, n, keyOf[n].value);
    }
  }

  /** The results report a matching that gives no key to two notes; for keys in order it is a best one. */
  ghost predicate MatchedResults(
      results: seq<Hit>, keys: seq<real>, notes: seq<real>, w300: real, w100: real, w50: real, preempt: real)
  {
    exists keyOf: seq<Option<nat>> ::
      && Reports(results, keyOf, keys, notes, w300, w100)
      && (forall n, m | 0 <= n < m < |keyOf| && keyOf[n].Some? :: keyOf[n] != keyOf[m])
      && (StrictlyIncreasing(keys) ==> BestMatching(keyOf, keys, notes, w50, preempt))
  }

  /** Each note keeps its time, and its grade says within which window its key is. */
  predicate GradedByDistance(results: seq<Hit>, notes: seq<real>, w300: real, w100: real) {
    && |results| == |notes|
    && forall n | 0 <= n < |notes| ::
         && results[n].time == notes[n]
         && results[n].grade ==
              match results[n].key
              case None => 0
              case Some(t) =>
                if notes[n] - w300 <= t <= notes[n] + w300 then 3
                else if notes[n] - w100 <= t <= notes[n] + w100 then 2
                else 1
  }

  lemma ReportsGrade(
      results: seq<Hit>, keyOf: seq<Option<nat>>, keys: seq<real>, notes: seq<real>, w300: real, w100: real)
    requires Reports(results, keyOf, keys, notes, w300, w100)
    ensures GradedByDistance(results, notes, w300, w100)
  {
  }

  /**
   * `match_hits`. Each note is reported with at most one key, no key twice, and graded by their distance. For
   * strictly increasing key times only keys inside the 50-window and after the note is visible are used, and every
   * eligible pair left out loses its note or its key to a pair that wins: the one matching of this kind.
   */
  method MatchHits(keys: seq<real>, notes: seq<real>, od: real, ar: real) returns (results: seq<Hit>)
    ensures
      var (w300, w100, w50) := HitWindows(od);
      && MatchedResults(results, keys, notes, w300, w100, w50, PreemptFromAr(ar))
      && GradedByDistance(results, notes, w300, w100)
  {
    var (w300, w100, w50) := HitWindows(od);
    var preempt := PreemptFromAr(ar);
    var pairs := CandidatePairs(keys, notes, w50, preempt);
    results := AssignGreedily(pairs, keys, notes, w300, w100);
    ghost var keyOf :| Reports(results, keyOf, keys, notes, w300, w100) && Stable(pairs, keyOf);
    ReportsGrade(results, keyOf, keys, notes, w300, w100);
    if StrictlyIncreasing(keys) {
      StableIsBest(pairs, keyOf, keys, notes, w50, preempt);
    }
  }
}
