/** Key press times of a replay: corrected frames to deltas and back to times, with the offset rule. */
module ReplayTimes {
  import opened Wrappers

  /** The key mask of a frame: the positions of its set bits. */
  type Keys = set<nat>

  datatype Frame = Frame(time: int, x: real, y: real, keys: Keys)

  const MAX_FIRST_DELTA := 10000

  // ----- correction of the leading frames -----

  predicate IsMarker(f: Frame) {
    f.x == 256.0 && f.y == -500.0
  }

  function CorrectionB(frames: seq<Frame>): seq<Frame>
    requires |frames| >= 3
  {
    if frames[0].time > frames[2].time then
      frames[0 := frames[0].(time := frames[2].time)][1 := frames[1].(time := frames[2].time)]
    else frames
  }

  /** How many marker frames lead the list. */
  function LeadingMarkers(frames: seq<Frame>): (n: nat)
    ensures n <= |frames|
    ensures forall i | 0 <= i < n :: IsMarker(frames[i])
    ensures n < |frames| ==> !IsMarker(frames[n])
  {
    if frames == [] || !IsMarker(frames[0]) then 0 else 1 + LeadingMarkers(frames[1..])
  }

  /** What is left of the list from frame `n` on, the first two frames being not later than the third was. */
  predicate LeftOver(raw: seq<Frame>, frames: seq<Frame>, n: nat)
    requires |raw| >= 3
  {
    && n <= |raw| && |frames| == |raw| - n
    && forall i | 0 <= i < |frames| ::
         frames[i] == if n + i < 2 && raw[0].time > raw[2].time then raw[n + i].(time := raw[2].time) else raw[n + i]
  }

  /** Exactly the frames at (256, -500) that lead the list are gone. */
  ghost predicate Stripped(raw: seq<Frame>, frames: seq<Frame>)
    requires |raw| >= 3
  {
    exists n: nat ::
      && LeftOver(raw, frames, n)
      && (forall i | 0 <= i < n :: raw[i].x == 256.0 && raw[i].y == -500.0)
      && (n < |raw| ==> !(raw[n].x == 256.0 && raw[n].y == -500.0))
  }

  lemma CorrectedStripped(raw: seq<Frame>)
    requires |raw| >= 3
    ensures Stripped(raw, CorrectionB(raw)[LeadingMarkers(CorrectionB(raw))..])
  {
    var c := CorrectionB(raw);
    var n := LeadingMarkers(c);
    assert forall i | 0 <= i < |raw| :: IsMarker(c[i]) <==> raw[i].x == 256.0 && raw[i].y == -500.0;
    assert LeftOver(raw, c[n..], n);
  }

  /** `apply_correction_b_and_strip_markers`. */
  method CorrectAndStrip(raw: seq<Frame>) returns (frames: seq<Frame>)
    ensures |raw| < 3 ==> frames == raw
    ensures |raw| >= 3 ==> frames == CorrectionB(raw)[LeadingMarkers(CorrectionB(raw))..]
    ensures |raw| >= 3 ==> Stripped(raw, frames)
  {
    frames := raw;
    if |frames| < 3 {
      return;
    }
    if frames[0].time > frames[2].time {
      var newTime := frames[2].time;
      frames := frames[0 := frames[0].(time := newTime)];
      frames := frames[1 := frames[1].(time := newTime)];
    }
    CorrectedStripped(raw);
    ghost var corrected := frames;
    assert corrected == CorrectionB(raw);
    ghost var stripped := 0;
    while frames != [] && IsMarker(frames[0])
      invariant 0 <= stripped <= |corrected| && frames == corrected[stripped..]
      invariant LeadingMarkers(corrected) == stripped + LeadingMarkers(frames)
      decreases |frames|
    {
      assert frames[1..] == corrected[stripped + 1..];
      frames := frames[1..];
      stripped := stripped + 1;
    }
  }

  // ----- times to deltas -----

  datatype Delta = Delta(time: int, keys: Keys)

  function DeltasOf(frames: seq<Frame>): (r: seq<Delta>)
    ensures |r| == |frames|
  {
    seq(|frames|, i requires 0 <= i < |frames| =>
      Delta(if i == 0 then frames[0].time else frames[i].time - frames[i - 1].time, frames[i].keys))
  }

  method ToDeltas(frames: seq<Frame>) returns (deltas: seq<Delta>)
    ensures deltas == DeltasOf(frames)
  {
    deltas := [];
    for i := 0 to |frames|
      invariant |deltas| == i && forall k | 0 <= k < i :: deltas[k] == DeltasOf(frames)[k]
    {
      var delta := if i == 0 then frames[i].time else frames[i].time - frames[i - 1].time;
      deltas := deltas + [Delta(delta, frames[i].keys)];
    }
  }

  // ----- deltas to key times -----

  /** A bit is set that was not set before. */
  predicate Pressed(before: Keys, now: Keys) {
    now - before != {}
  }

  predicate Normal(delta: int) {
    0 <= delta <= MAX_FIRST_DELTA
  }

  /** Times of the presses from event `i` on, the clock standing at `clock` and `keys` being down. */
  function PressTimes(deltas: seq<Delta>, i: nat, clock: int, keys: Keys): seq<int>
    requires i <= |deltas|
    decreases |deltas| - i
  {
    if i == |deltas| then []
    else
      var now := clock + deltas[i].time;
      (if Pressed(keys, deltas[i].keys) then [now] else [])
        + PressTimes(deltas, i + 1, now, deltas[i].keys)
  }

  function Magnitude(n: int): nat {
    if n < 0 then -n else n
  }

  /** The key times and the offset they are shifted by. */
  function KeyTimes(deltas: seq<Delta>): (seq<int>, int) {
    if deltas != [] && !Normal(deltas[0].time) then (PressTimes(deltas, 1, 0, {}), Magnitude(deltas[0].time))
    else (PressTimes(deltas, 0, 0, {}), 0)
  }

  lemma PressStep(deltas: seq<Delta>, i: nat, clock: int, keys: Keys, found: seq<int>)
    requires i < |deltas|
    ensures
      var now := clock + deltas[i].time;
      found + PressTimes(deltas, i, clock, keys)
        == (if Pressed(keys, deltas[i].keys) then found + [now] else found)
           + PressTimes(deltas, i + 1, now, deltas[i].keys)
  {
  }

  /** `extract_key_times_from_deltas`: an abnormal first delta is taken for the offset and skipped. */
  method ExtractKeyTimes(deltas: seq<Delta>) returns (r: Option<(seq<int>, int)>)
    ensures r == if KeyTimes(deltas).0 == [] then None else Some(KeyTimes(deltas))
  {
    var cumulative, offset := 0, 0;
    var keyTimes: seq<int> := [];
    var prevKeys: Keys := {};
    var first := true;
    var i := 0;
    while i < |deltas|
      invariant 0 <= i <= |deltas| && (first <==> i == 0)
      invariant first ==> keyTimes == [] && cumulative == 0 && prevKeys == {} && offset == 0
      invariant !first ==> offset == KeyTimes(deltas).1
      invariant !first ==> keyTimes + PressTimes(deltas, i, cumulative, prevKeys) == KeyTimes(deltas).0
    {
      var delta, keys := deltas[i].time, deltas[i].keys;
      if first {
        first := false;
        if !Normal(delta) {
          offset := Magnitude(delta);
          i := i + 1;
          continue;
        }
      }
      PressStep(deltas, i, cumulative, prevKeys, keyTimes);
      cumulative := cumulative + delta;
      if Pressed(prevKeys, keys) {
        keyTimes := keyTimes + [cumulative];
      }
      prevKeys := keys;
      i := i + 1;
    }
    assert keyTimes == KeyTimes(deltas).0;
    if keyTimes == [] {
      return None;
    }
    r := Some((keyTimes, offset));
  }

  // ----- the round trip -----

  /** The frames from `i` on at which a key goes down. */
  function Presses(frames: seq<Frame>, i: nat, keys: Keys): (r: seq<nat>)
    requires i <= |frames|
    ensures forall k | 0 <= k < |r| :: i <= r[k] < |frames|
    decreases |frames| - i
  {
    if i == |frames| then []
    else (if Pressed(keys, frames[i].keys) then [i] else []) + Presses(frames, i + 1, frames[i].keys)
  }

  /** The detected presses: with an abnormal first frame detection starts at the second. */
  function DetectedPresses(frames: seq<Frame>): (r: seq<nat>)
    ensures forall k | 0 <= k < |r| :: r[k] < |frames|
  {
    if frames != [] && !Normal(frames[0].time) then Presses(frames, 1, {}) else Presses(frames, 0, {})
  }

  /** The first frame examined: the second one if the first starts before zero or later than ten seconds. */
  function FirstExamined(frames: seq<Frame>): nat {
    if frames != [] && (frames[0].time < 0 || frames[0].time > 10000) then 1 else 0
  }

  /** Some key is down now that was not down before. */
  predicate NewKey(before: Keys, now: Keys) {
    exists key | key in now :: key !in before
  }

  /** A key goes down in frame `i`: it was not down in the frame examined before, if there was one. */
  predicate GoesDown(frames: seq<Frame>, i: nat) {
    && FirstExamined(frames) <= i < |frames|
    && NewKey(if i == FirstExamined(frames) then {} else frames[i - 1].keys, frames[i].keys)
  }

  predicate Ascending(s: seq<nat>) {
    forall k, l | 0 <= k < l < |s| :: s[k] < s[l]
  }

  lemma PressedMeans(before: Keys, now: Keys)
    ensures Pressed(before, now) <==> NewKey(before, now)
  {
    if Pressed(before, now) {
      var key :| key in now - before;
    } else {
      assert forall key | key in now :: key in now - before || key in before;
    }
  }

  lemma {:induction false} PressesAscend(frames: seq<Frame>, i: nat, keys: Keys)
    requires i <= |frames|
    ensures Ascending(Presses(frames, i, keys))
    decreases |frames| - i
  {
    hide Pressed;
    if i < |frames| {
      PressesAscend(frames, i + 1, frames[i].keys);
    }
  }

  /** The keys that were down before frame `j`, the list being examined from frame `i` on with `keys` down. */
  function KeysBefore(frames: seq<Frame>, i: nat, keys: Keys, j: nat): Keys
    requires i <= j <= |frames|
  {
    if j == i then keys else frames[j - 1].keys
  }

  lemma {:induction false} PressAt(frames: seq<Frame>, i: nat, keys: Keys, j: nat)
    requires i <= |frames|
    ensures j in Presses(frames, i, keys) <==>
      i <= j < |frames| && NewKey(KeysBefore(frames, i, keys, j), frames[j].keys)
    decreases |frames| - i
  {
    hide NewKey, Pressed;
    if i < |frames| {
      var now := frames[i].keys;
      var rest := Presses(frames, i + 1, now);
      assert Presses(frames, i, keys) == (if Pressed(keys, now) then [i] else []) + rest;
      hide Presses;
      PressAt(frames, i + 1, now, j);
      if j == i {
        PressedMeans(keys, now);
      } else {
        assert j in Presses(frames, i, keys) <==> j in rest;
        assert i < j < |frames| ==> KeysBefore(frames, i, keys, j) == KeysBefore(frames, i + 1, now, j);
      }
    }
  }

  /** Detected are, each once and in order, exactly the frames in which a key goes down. */
  lemma DetectedExact(frames: seq<Frame>)
    ensures Ascending(DetectedPresses(frames))
    ensures forall i: nat :: i in DetectedPresses(frames) <==> GoesDown(frames, i)
  {
    hide NewKey, Presses;
    var first := FirstExamined(frames);
    assert DetectedPresses(frames) == Presses(frames, first, {});
    PressesAscend(frames, first, {});
    forall i: nat ensures i in DetectedPresses(frames) <==> GoesDown(frames, i) {
      PressAt(frames, first, {}, i);
    }
  }

  /** A frame in which no key is down that was not down before, in particular one that releases keys, is no press. */
  lemma ReleaseIsNoPress(frames: seq<Frame>, i: nat)
    requires 0 < i < |frames| && frames[i].keys <= frames[i - 1].keys && i > FirstExamined(frames)
    ensures i !in DetectedPresses(frames)
  {
    DetectedExact(frames);
  }

  /** Each time is that of its frame, moved by `shift`. */
  predicate ShiftedTimes(times: seq<int>, presses: seq<nat>, frames: seq<Frame>, shift: int) {
    && |times| == |presses|
    && forall k | 0 <= k < |times| :: presses[k] < |frames| && times[k] == frames[presses[k]].time + shift
  }

  lemma ShiftedCons(t: int, times: seq<int>, i: nat, presses: seq<nat>, frames: seq<Frame>, shift: int)
    requires ShiftedTimes(times, presses, frames, shift) && i < |frames| && t == frames[i].time + shift
    ensures ShiftedTimes([t] + times, [i] + presses, frames, shift)
  {
  }

  /** Re-accumulated deltas give the frames' own times, shifted by what the clock was off at the start. */
  lemma {:induction false} PressTimesShifted(frames: seq<Frame>, i: nat, clock: int, keys: Keys, shift: int)
    requires i <= |frames|
    requires i == 0 ==> clock == shift == 0
    requires i > 0 ==> clock == frames[i - 1].time + shift
    ensures ShiftedTimes(PressTimes(DeltasOf(frames), i, clock, keys), Presses(frames, i, keys), frames, shift)
    decreases |frames| - i
  {
    hide ShiftedTimes, Pressed;
    if i == |frames| {
      ShiftedNil(frames, shift);
    } else {
      var deltas := DeltasOf(frames);
      var now := clock + deltas[i].time;
      PressTimesShifted(frames, i + 1, now, frames[i].keys, shift);
      var times, presses := PressTimes(deltas, i + 1, now, frames[i].keys), Presses(frames, i + 1, frames[i].keys);
      ShiftedCons(now, times, i, presses, frames, shift);
      assert [] + times == times && [] + presses == presses;
    }
  }

  lemma ShiftedNil(frames: seq<Frame>, shift: int)
    ensures ShiftedTimes([], [], frames, shift)
  {
  }

  function AlignedNote(note: real, offset: int): real {
    if offset > 0 then note + offset as real else note
  }

  lemma KeyTimesOf(frames: seq<Frame>)
    requires frames != []
    ensures
      var (times, offset) := KeyTimes(DeltasOf(frames));
      var presses := DetectedPresses(frames);
      var shift := if 0 <= frames[0].time <= 10000 then 0 else -frames[0].time;
      && |times| == |presses|
      && (forall k | 0 <= k < |times| :: times[k] == frames[presses[k]].time + shift)
      && offset == (if shift < 0 then -shift else shift)
      && forall i: nat :: i in presses <==> GoesDown(frames, i)
  {
    DetectedExact(frames);
    if Normal(frames[0].time) {
      PressTimesShifted(frames, 0, 0, {}, 0);
    } else {
      PressTimesShifted(frames, 1, 0, {}, -frames[0].time);
    }
  }

  /** Every detected press keeps its distance to every note. */
  ghost predicate Aligned(frames: seq<Frame>) {
    var (times, offset) := KeyTimes(DeltasOf(frames));
    var presses := DetectedPresses(frames);
    |times| == |presses| && forall k, note: real | 0 <= k < |times| ::
      times[k] as real - AlignedNote(note, offset) == frames[presses[k]].time as real - note
  }

  /**
   * Converting frames to deltas and back keeps every press aligned with the notes exactly when the first
   * frame is not later than ten seconds. A later first frame is taken for an offset with the wrong sign, and
   * every press ends up twice that far off.
   */
  lemma AlignedIff(frames: seq<Frame>)
    requires frames != [] && DetectedPresses(frames) != []
    ensures Aligned(frames) <==> frames[0].time <= 10000
  {
    KeyTimesOf(frames);
    var (times, offset) := KeyTimes(DeltasOf(frames));
    var presses := DetectedPresses(frames);
    if frames[0].time > MAX_FIRST_DELTA {
      assert times[0] as real - AlignedNote(0.0, offset) != frames[presses[0]].time as real - 0.0;
    }
  }

  /** Three frames in order, the first at 20 s, and a key pressed at the second. */
  const LATE := [Frame(20000, 0.0, 0.0, {}), Frame(20010, 0.0, 0.0, {0}), Frame(20020, 0.0, 0.0, {})]

  /** A replay that starts late is matched against notes that are off by twice its start. */
  lemma LateStartMisaligned()
    ensures LATE[0].time <= LATE[1].time <= LATE[2].time && DetectedPresses(LATE) != [] && !Aligned(LATE)
  {
    assert Pressed(LATE[0].keys, LATE[1].keys) by {
      assert 0 in LATE[1].keys - LATE[0].keys;
    }
    assert Presses(LATE, 1, {}) == [1] + Presses(LATE, 2, {0});
    AlignedIff(LATE);
  }
}
