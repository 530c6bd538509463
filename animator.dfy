/**
 * The keyframe animation of the `/dev` demo page: a reverse scan for the
 * keyframe at or before the elapsed time, linear interpolation towards the
 * next one, and a per-frame callback that fixes the run's start on its first
 * call and either reschedules itself or stops at the last keyframe.
 * Times are seconds, timestamps milliseconds, all modelled as `real`.
 */
module Animator {
  import opened Wrappers

  datatype Keyframe = Keyframe(time: real, value: real)

  /** The demo's keyframes: from 10 at 0 s to 200 at 2 s. */
  function DemoKeyframes(): seq<Keyframe>
  {
    [Keyframe(0.0, 10.0), Keyframe(2.0, 200.0)]
  }

  /** Keyframe times never decrease; equal times are allowed. */
  predicate Sorted(kf: seq<Keyframe>)
  {
    forall i, j :: 0 <= i < j < |kf| ==> kf[i].time <= kf[j].time
  }

  function Min(a: real, b: real): real { if a <= b then a else b }
  function Max(a: real, b: real): real { if a <= b then b else a }

  /** The blend: the start value at t = 0, the end value at t = 1. */
  function LinearInterpolate(start: real, end: real, t: real): (r: real)
    ensures t == 0.0 ==> r == start
    ensures t == 1.0 ==> r == end
  {
    start + t * (end - start)
  }

  /** For t in [0, 1] the blend lies between the two values. */
  lemma LinearInterpolateBetween(start: real, end: real, t: real)
    requires 0.0 <= t <= 1.0
    ensures Min(start, end) <= LinearInterpolate(start, end, t) <= Max(start, end)
  {
    if start <= end {
      ScaleBounds(t, end - start);
    } else {
      ScaleBounds(t, start - end);
      assert t * (end - start) == -(t * (start - end));
    }
  }

  lemma ScaleBounds(t: real, d: real)
    requires 0.0 <= t <= 1.0 && d >= 0.0
    ensures 0.0 <= t * d <= d
  {
    assert d - t * d == (1.0 - t) * d;
  }

  /** `r` is what the reverse scan answers for elapsed time `e`: the last keyframe at or before `e`, if any. */
  predicate IsPrevIndex(kf: seq<Keyframe>, e: real, r: Option<nat>)
  {
    match r
    case None => forall j :: 0 <= j < |kf| ==> kf[j].time > e
    case Some(i) => i < |kf| && kf[i].time <= e && forall j :: i < j < |kf| ==> kf[j].time > e
  }

  /** The specification of the scan. */
  function PrevIndex(kf: seq<Keyframe>, e: real): (r: Option<nat>)
    ensures IsPrevIndex(kf, e, r)
    decreases |kf|
  {
    if |kf| == 0 then None
    else if kf[|kf| - 1].time <= e then Some(|kf| - 1)
    else PrevIndex(kf[..|kf| - 1], e)
  }

  /** At most one answer fits the scan's description, so `PrevIndex` is the largest index at or before `e`. */
  lemma PrevIndexUnique(kf: seq<Keyframe>, e: real, a: Option<nat>, b: Option<nat>)
    requires IsPrevIndex(kf, e, a) && IsPrevIndex(kf, e, b)
    ensures a == b
  {
  }

  /** `getPrevKeyframeIndex`: counts down from the last keyframe and returns at the first fit. */
  method GetPrevKeyframeIndex(kf: seq<Keyframe>, elapsedSec: real) returns (r: Option<nat>)
    ensures r == PrevIndex(kf, elapsedSec)
  {
    var i := |kf| - 1;
    while i >= 0
      invariant -1 <= i < |kf|
      invariant forall j :: i < j < |kf| ==> kf[j].time > elapsedSec
      decreases i
    {
      if kf[i].time <= elapsedSec {
        r := Some(i);
        PrevIndexUnique(kf, elapsedSec, r, PrevIndex(kf, elapsedSec));
        return;
      }
      i := i - 1;
    }
    r := None;
    PrevIndexUnique(kf, elapsedSec, r, PrevIndex(kf, elapsedSec));
  }

  /** For sorted keyframes the scan finds nothing exactly when `e` is before the first keyframe. */
  lemma PrevIndexNoneIff(kf: seq<Keyframe>, e: real)
    requires Sorted(kf)
    ensures PrevIndex(kf, e).None? <==> (|kf| == 0 || e < kf[0].time)
  {
    if |kf| > 0 && e < kf[0].time {
      forall j | 0 <= j < |kf| ensures kf[j].time > e {
        if j > 0 { assert kf[0].time <= kf[j].time; }
      }
      PrevIndexUnique(kf, e, None, PrevIndex(kf, e));
    }
  }

  /** The scan stops at the last keyframe exactly when `e` has reached its time. */
  lemma PrevIndexLastIff(kf: seq<Keyframe>, e: real)
    requires |kf| > 0
    ensures PrevIndex(kf, e) == Some(|kf| - 1) <==> kf[|kf| - 1].time <= e
  {
    if kf[|kf| - 1].time <= e {
      PrevIndexUnique(kf, e, Some(|kf| - 1), PrevIndex(kf, e));
    }
  }

  /** How far `e` has gone from `prev` towards `next`. */
  function Progress(prev: Keyframe, next: Keyframe, e: real): (t: real)
    requires prev.time <= e < next.time
    ensures 0.0 <= t < 1.0
  {
    var d := next.time - prev.time;
    var t := (e - prev.time) / d;
    assert t * d == e - prev.time;
    t
  }

  /** What one frame does apart from the start timestamp: the value written, if any, and whether it reschedules. */
  datatype FrameOutcome = FrameOutcome(update: Option<real>, reschedule: bool)

  /** The frame's outcome at elapsed time `e`. */
  function Outcome(kf: seq<Keyframe>, e: real): (o: FrameOutcome)
    ensures o.update.None? ==> o.reschedule
    ensures !o.reschedule ==> |kf| > 0 && o.update == Some(kf[|kf| - 1].value)
  {
    match PrevIndex(kf, e)
    case None => FrameOutcome(None, true)
    case Some(i) =>
      if i + 1 >= |kf| then FrameOutcome(Some(kf[i].value), false)
      else FrameOutcome(Some(LinearInterpolate(kf[i].value, kf[i + 1].value, Progress(kf[i], kf[i + 1], e))), true)
  }

  /** Before every keyframe the frame writes nothing, and then always reschedules. */
  lemma OutcomeNoUpdateIff(kf: seq<Keyframe>, e: real)
    ensures Outcome(kf, e).update.None? <==> forall j :: 0 <= j < |kf| ==> kf[j].time > e
    ensures Outcome(kf, e).update.None? ==> Outcome(kf, e).reschedule
  {
    if forall j :: 0 <= j < |kf| ==> kf[j].time > e {
      PrevIndexUnique(kf, e, None, PrevIndex(kf, e));
    }
  }

  /** The run stops exactly when `e` reaches the last keyframe's time, and then writes that keyframe's value. */
  lemma OutcomeTerminatesIff(kf: seq<Keyframe>, e: real)
    requires |kf| > 0
    ensures !Outcome(kf, e).reschedule <==> kf[|kf| - 1].time <= e
    ensures !Outcome(kf, e).reschedule ==> Outcome(kf, e).update == Some(kf[|kf| - 1].value)
  {
    PrevIndexLastIff(kf, e);
  }

  /** Between two keyframes the value written is the blend of their values, and lies between them. */
  lemma OutcomeInterpolates(kf: seq<Keyframe>, e: real, i: nat)
    requires i + 1 < |kf| && kf[i].time <= e < kf[i + 1].time
    requires Sorted(kf)
    ensures Outcome(kf, e).reschedule
    ensures Outcome(kf, e).update ==
      Some(LinearInterpolate(kf[i].value, kf[i + 1].value, (e - kf[i].time) / (kf[i + 1].time - kf[i].time)))
    ensures Min(kf[i].value, kf[i + 1].value) <= Outcome(kf, e).update.value <= Max(kf[i].value, kf[i + 1].value)
  {
    forall j | i < j < |kf| ensures kf[j].time > e {
      if j > i + 1 { assert kf[i + 1].time <= kf[j].time; }
    }
    PrevIndexUnique(kf, e, Some(i), PrevIndex(kf, e));
    LinearInterpolateBetween(kf[i].value, kf[i + 1].value, Progress(kf[i], kf[i + 1], e));
  }

  /** The run's state after a frame, and what that frame did. */
  datatype StepResult = StepResult(startTimestampMs: Option<real>, update: Option<real>, reschedule: bool)

  /** Seconds from `startMs` to `timestampMs`, both in milliseconds. */
  function ElapsedSec(startMs: real, timestampMs: real): (r: real)
    ensures startMs + 1000.0 * r == timestampMs
  {
    (timestampMs - startMs) / 1000.0
  }

  /** One call of `animate` on the run state `startTimestampMs`. */
  function Step(kf: seq<Keyframe>, startTimestampMs: Option<real>, timestampMs: real): (r: StepResult)
    ensures r.startTimestampMs.Some?
    ensures FrameOutcome(r.update, r.reschedule) == Outcome(kf, ElapsedSec(r.startTimestampMs.value, timestampMs))
  {
    var start := if startTimestampMs.Some? then startTimestampMs.value else timestampMs;
    var o := Outcome(kf, ElapsedSec(start, timestampMs));
    StepResult(Some(start), o.update, o.reschedule)
  }

  /** The first frame fixes the start at its own timestamp; later frames keep it. */
  lemma StepStart(kf: seq<Keyframe>, startTimestampMs: Option<real>, timestampMs: real)
    ensures startTimestampMs.None? ==> Step(kf, startTimestampMs, timestampMs).startTimestampMs == Some(timestampMs)
    ensures startTimestampMs.Some? ==> Step(kf, startTimestampMs, timestampMs).startTimestampMs == startTimestampMs
  {
  }

  /** The frames a run processes, from run state `st`: it stops after the first frame that does not reschedule. */
  function RunFrames(kf: seq<Keyframe>, st: Option<real>, timestamps: seq<real>): (rs: seq<StepResult>)
    ensures |rs| <= |timestamps|
    ensures |rs| == |timestamps| || (|rs| > 0 && !rs[|rs| - 1].reschedule)
    decreases |timestamps|
  {
    if |timestamps| == 0 then []
    else
      var r := Step(kf, st, timestamps[0]);
      if r.reschedule then [r] + RunFrames(kf, r.startTimestampMs, timestamps[1..]) else [r]
  }

  /**
   * Frame-rate independence: in a run from an existing start, every frame's
   * start is unchanged and its outcome depends only on its own timestamp.
   */
  lemma {:induction false} RunFramesFromStart(kf: seq<Keyframe>, start: real, timestamps: seq<real>)
    ensures var rs := RunFrames(kf, Some(start), timestamps);
      forall k :: 0 <= k < |rs| ==>
        rs[k].startTimestampMs == Some(start) &&
        FrameOutcome(rs[k].update, rs[k].reschedule) == Outcome(kf, ElapsedSec(start, timestamps[k]))
    ensures var rs := RunFrames(kf, Some(start), timestamps);
      forall k :: 0 <= k < |rs| - 1 ==> rs[k].reschedule
    decreases |timestamps|
  {
    if |timestamps| > 0 {
      var r := Step(kf, Some(start), timestamps[0]);
      if r.reschedule {
        RunFramesFromStart(kf, start, timestamps[1..]);
        var rs := RunFrames(kf, Some(start), timestamps);
        assert rs == [r] + RunFrames(kf, Some(start), timestamps[1..]);
      }
    }
  }

  /** A fresh run measures every frame from the first frame's timestamp. */
  lemma RunFramesFresh(kf: seq<Keyframe>, timestamps: seq<real>)
    requires |timestamps| > 0
    ensures var rs := RunFrames(kf, None, timestamps);
      |rs| > 0 &&
      forall k :: 0 <= k < |rs| ==>
        rs[k].startTimestampMs == Some(timestamps[0]) &&
        FrameOutcome(rs[k].update, rs[k].reschedule) == Outcome(kf, ElapsedSec(timestamps[0], timestamps[k]))
    ensures var rs := RunFrames(kf, None, timestamps);
      forall k :: 0 <= k < |rs| - 1 ==> rs[k].reschedule
  {
    var r := Step(kf, None, timestamps[0]);
    if r.reschedule {
      RunFramesFromStart(kf, timestamps[0], timestamps[1..]);
      var rs := RunFrames(kf, None, timestamps);
      assert rs == [r] + RunFrames(kf, Some(timestamps[0]), timestamps[1..]);
    }
  }

  /**
   * A fresh run goes on until the first frame whose elapsed time reaches the
   * last keyframe's time, and stops there.
   */
  lemma RunFramesStopsWhenDone(kf: seq<Keyframe>, timestamps: seq<real>)
    requires |kf| > 0 && |timestamps| > 0
    ensures var rs := RunFrames(kf, None, timestamps);
      forall k :: 0 <= k < |rs| - 1 ==> ElapsedSec(timestamps[0], timestamps[k]) < kf[|kf| - 1].time
    ensures var rs := RunFrames(kf, None, timestamps);
      |rs| < |timestamps| ==> ElapsedSec(timestamps[0], timestamps[|rs| - 1]) >= kf[|kf| - 1].time
  {
    var rs := RunFrames(kf, None, timestamps);
    RunFramesFresh(kf, timestamps);
    forall k | 0 <= k < |rs| ensures rs[k].reschedule <==> ElapsedSec(timestamps[0], timestamps[k]) < kf[|kf| - 1].time {
      OutcomeTerminatesIff(kf, ElapsedSec(timestamps[0], timestamps[k]));
    }
  }

  /** The demo's first frame writes the start value 10. */
  lemma DemoAtStart()
    ensures Outcome(DemoKeyframes(), 0.0) == FrameOutcome(Some(10.0), true)
  {
    var kf := DemoKeyframes();
    PrevIndexUnique(kf, 0.0, Some(0), PrevIndex(kf, 0.0));
    var t := Progress(kf[0], kf[1], 0.0);
    assert t == 0.0;
  }

  /** Halfway through, at 1 s, the demo writes the midpoint 105. */
  lemma DemoAtMidpoint()
    ensures Outcome(DemoKeyframes(), 1.0) == FrameOutcome(Some(105.0), true)
  {
    var kf := DemoKeyframes();
    PrevIndexUnique(kf, 1.0, Some(0), PrevIndex(kf, 1.0));
    var t := Progress(kf[0], kf[1], 1.0);
    assert t == 0.5;
    assert LinearInterpolate(10.0, 200.0, 0.5) == 105.0;
  }

  /** The demo from 2 s on writes 200 and stops; before 0 s it writes nothing and waits. */
  lemma DemoEnds(e: real)
    ensures e >= 2.0 ==> Outcome(DemoKeyframes(), e) == FrameOutcome(Some(200.0), false)
    ensures e < 0.0 ==> Outcome(DemoKeyframes(), e) == FrameOutcome(None, true)
  {
    var kf := DemoKeyframes();
    if e >= 2.0 {
      PrevIndexLastIff(kf, e);
    }
    if e < 0.0 {
      PrevIndexUnique(kf, e, None, PrevIndex(kf, e));
    }
  }

  /** The demo's run state: the captured start timestamp and the last value written to the text's margin. */
  class Animation {
    const keyframes: seq<Keyframe>
    var startTimestampMs: Option<real>
    var marginLeft: Option<real>

    constructor (keyframes: seq<Keyframe>)
      ensures this.keyframes == keyframes && startTimestampMs == None && marginLeft == None
    {
      this.keyframes := keyframes;
      startTimestampMs := None;
      marginLeft := None;
    }

    /** `animate`: one frame callback; the result says whether it requests another frame. */
    method Animate(timestampMs: real) returns (reschedule: bool)
      modifies this
      ensures var r := Step(keyframes, old(startTimestampMs), timestampMs);
        startTimestampMs == r.startTimestampMs &&
        reschedule == r.reschedule &&
        marginLeft == (if r.update.Some? then r.update else old(marginLeft))
    {
      if startTimestampMs.None? {
        startTimestampMs := Some(timestampMs);
      }
      var elapsedMs := timestampMs - startTimestampMs.value;
      var elapsedSec := elapsedMs / 1000.0;
      var prevIndex := GetPrevKeyframeIndex(keyframes, elapsedSec);
      if prevIndex.None? {
        return true;
      }
      var prev := keyframes[prevIndex.value];
      var nextIndex := prevIndex.value + 1;
      if nextIndex >= |keyframes| {
        marginLeft := Some(prev.value);
        return false;
      }
      var next := keyframes[nextIndex];
      var progress := (elapsedSec - prev.time) / (next.time - prev.time);
      marginLeft := Some(LinearInterpolate(prev.value, next.value, progress));
      return true;
    }
  }
}
