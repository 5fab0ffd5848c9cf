/**
 * The Rust `FrameTimer`: a bounded history of frame durations and the delay
 * that pads a frame to the target rate. Durations are whole nanoseconds; the
 * clock readings are parameters.
 */
module Timing {
  import opened Wrappers

  /** The number of frame durations kept. */
  const FrameTimeBufferSize: nat := 100

  const NanosPerSecond: nat := 1_000_000_000

  datatype FrameTimer = FrameTimer(delta: nat, frameTimes: seq<nat>)

  datatype TimingError = ZeroTargetRate

  /** `FrameTimer::new`. */
  function New(): (t: FrameTimer)
    ensures t.delta == 0 && t.frameTimes == []
  {
    FrameTimer(0, [])
  }

  /** `update`, given the time elapsed since `start`. */
  function Update(t: FrameTimer, elapsed: nat): (t': FrameTimer)
    ensures t'.delta == elapsed
    ensures |t.frameTimes| <= FrameTimeBufferSize ==> |t'.frameTimes| <= FrameTimeBufferSize
    ensures |t'.frameTimes| > 0 && t'.frameTimes[|t'.frameTimes| - 1] == elapsed
    // Either nothing is dropped, or exactly the oldest entry is.
    ensures var pushed := t.frameTimes + [elapsed];
      if |pushed| > FrameTimeBufferSize then t'.frameTimes == pushed[1..] else t'.frameTimes == pushed
  {
    var pushed := t.frameTimes + [elapsed];
    var times := if |pushed| > FrameTimeBufferSize then pushed[1..] else pushed;
    FrameTimer(elapsed, times)
  }

  /** The last n entries of s (all of s when it is shorter). */
  function LastN(s: seq<nat>, n: nat): (r: seq<nat>)
    ensures |r| <= n && |r| <= |s|
  {
    if |s| <= n then s else s[|s| - n..]
  }

  function UpdateAll(t: FrameTimer, elapsed: seq<nat>): FrameTimer
  {
    if |elapsed| == 0 then t else Update(UpdateAll(t, elapsed[..|elapsed| - 1]), elapsed[|elapsed| - 1])
  }

  /** From a fresh timer, the history is always the latest 100 frame durations in order. */
  lemma {:induction false} HistoryIsLatestFrames(elapsed: seq<nat>)
    ensures UpdateAll(New(), elapsed).frameTimes == LastN(elapsed, FrameTimeBufferSize)
  {
    if |elapsed| > 0 {
      var init := elapsed[..|elapsed| - 1];
      HistoryIsLatestFrames(init);
      var last := elapsed[|elapsed| - 1];
      assert elapsed == init + [last];
      if |init| >= FrameTimeBufferSize {
        var n := FrameTimeBufferSize;
        assert LastN(init, n) == init[|init| - n..];
        assert LastN(elapsed, n) == elapsed[|elapsed| - n..];
        assert elapsed[|elapsed| - n..] == init[|init| - n + 1..] + [last];
        var w := init[|init| - n..];
        assert w[1..] == init[|init| - n + 1..];
        DropFirstOfPush(w, last);
      } else {
        assert LastN(init, FrameTimeBufferSize) == init;
        assert LastN(elapsed, FrameTimeBufferSize) == elapsed;
      }
    }
  }

  lemma DropFirstOfPush(w: seq<nat>, x: nat)
    requires |w| > 0
    ensures (w + [x])[1..] == w[1..] + [x]
  {
    assert forall k :: 0 <= k < |w| ==> (w + [x])[1..][k] == (w[1..] + [x])[k];
  }

  /**
   * The target frame time for a rate: `Duration::from_secs_f64(1.0 / fps)`,
   * which rounds 1/fps seconds to the nearest whole nanosecond. A rate of 0
   * makes the quotient infinite, which the conversion rejects.
   */
  function TargetFrameTime(targetFps: nat): (r: Result<nat, TimingError>)
    ensures r.Err? <==> targetFps == 0
    // Within half a nanosecond of 10^9 / fps: 2 r fps lies in (2 * 10^9 - fps, 2 * 10^9 + fps].
    ensures r.Ok? ==> 2 * NanosPerSecond - targetFps < 2 * r.value * targetFps <= 2 * NanosPerSecond + targetFps
  {
    if targetFps == 0 then Err(ZeroTargetRate)
    else
      var q := (2 * NanosPerSecond + targetFps) / (2 * targetFps);
      assert q * (2 * targetFps) <= 2 * NanosPerSecond + targetFps < (q + 1) * (2 * targetFps);
      Ok(q)
  }

  /** At 7 frames a second the target is 142857143 ns: 10^9 / 7 = 142857142.86 rounds up. */
  lemma TargetAtSeven()
    ensures TargetFrameTime(7) == Ok(142_857_143)
  {
  }

  /** `delay`: what is left of the target frame time after the last frame, or zero. */
  function Delay(t: FrameTimer, targetFps: nat): (r: Result<nat, TimingError>)
    ensures r.Err? <==> targetFps == 0
    ensures r.Ok? ==> r.value <= TargetFrameTime(targetFps).value
    ensures r.Ok? && t.delta < TargetFrameTime(targetFps).value ==> t.delta + r.value == TargetFrameTime(targetFps).value
    ensures r.Ok? && t.delta >= TargetFrameTime(targetFps).value ==> r.value == 0
  {
    var target :- TargetFrameTime(targetFps);
    if t.delta < target then Ok(target - t.delta) else Ok(0)
  }
}
