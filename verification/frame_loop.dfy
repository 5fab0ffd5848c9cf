/**
 * The per-frame position buffer of the C modern loop
 * (`process_modern_instruction` in `source/loop.c`). The buffer has
 * `instructions_per_frame + 1` slots, lives across frames, and
 * `num_positions` is reset to 0 before each frame.
 */
module FrameLoop {
  import opened Wrappers
  import opened Bytes
  import opened Trace
  import Win96

  /** The buffer and its live count after a frame, and the gun. */
  datatype Frame<G, S> = Frame(positions: seq<S>, count: nat, gun: G)

  /**
   * The eviction's shift loop `j < *num_positions - 1` runs over an unsigned
   * bound; with no position stored yet, `0 - 1` wraps to 2^32 - 1 and the
   * loop walks off the buffer.
   */
  datatype Fault = ShiftUnderflow

  /** What the renderer is handed: the first `count` slots. */
  function View<G, S>(f: Frame<G, S>): seq<S>
    requires f.count <= |f.positions|
  {
    f.positions[..f.count]
  }

  /** `positions[j] = positions[j + 1]` for `j < count`, left to right. */
  method ShiftLeft<S>(p: seq<S>, count: nat) returns (q: seq<S>)
    requires count < |p|
    ensures |q| == |p|
    ensures forall j :: 0 <= j < count ==> q[j] == p[j + 1]
    ensures forall j :: count <= j < |p| ==> q[j] == p[j]
  {
    q := p;
    var j := 0;
    while j < count
      invariant 0 <= j <= count && |q| == |p|
      invariant forall t :: 0 <= t < j ==> q[t] == p[t + 1]
      invariant forall t :: j <= t < |q| ==> q[t] == p[t]
    {
      q := q[j := q[j + 1]];
      j := j + 1;
    }
  }

  /**
   * The renderer's view after a frame, in closed form, for the frame's
   * samples s and the value `stale` left in slot 0 by earlier frames: slot 0
   * is never written before the eviction and sample i lands in slot i + 1.
   */
  function ViewAsWritten<S>(stale: S, s: seq<S>, ipf: nat): (v: seq<S>)
    requires 2 <= ipf && |s| <= ipf
    ensures |v| == if |s| < ipf then |s| else ipf - 1
  {
    var k := |s|;
    if k == 0 then []
    else if k < ipf then [stale] + s[..k - 1]
    else if ipf == 2 then [stale]
    else s[..ipf - 2] + [s[ipf - 3]]
  }

  /**
   * `process_modern_instruction` as written: instruction i (from 1) is stored
   * at `positions[i]` while `num_positions` counts from 0, and the last
   * instruction of a full frame first shifts the buffer left. With one
   * instruction per frame the shift bound `num_positions - 1` wraps.
   */
  method ProcessModern<G, I, S>(ipf: u32, positions: seq<S>, gun: G, results: seq<Option<I>>, step: (G, I) -> G, sampleOf: G -> S)
    returns (r: Result<Frame<G, S>, Fault>)
    requires |positions| == ipf + 1
    ensures var k := Consumed(results, ipf);
      r.Err? <==> ipf == 1 && k == 1
    ensures r.Ok? ==> var k := Consumed(results, ipf);
      r.value.gun == GunAfter(gun, results, k, step) && |r.value.positions| == |positions|
    ensures r.Ok? && ipf < 2 ==> r.value.count == 0
    ensures r.Ok? && ipf >= 2 ==>
      r.value.count <= |r.value.positions| &&
      View(r.value) == ViewAsWritten(positions[0], Samples(gun, results, Consumed(results, ipf), step, sampleOf), ipf)
  {
    var buf := positions;
    var num: int := 0;
    var g := gun;
    var i := 0;
    ghost var ss: seq<S> := [];
    while i < ipf
      invariant 0 <= i <= ipf && |buf| == |positions| && |ss| == i
      invariant forall t :: 0 <= t < i ==> ReadAt(results, t).Some?
      invariant g == GunAfter(gun, results, i, step)
      invariant ss == Samples(gun, results, i, step, sampleOf)
      invariant i < ipf || i == 0 ==> num == i && buf == [positions[0]] + ss + positions[i + 1..]
      invariant i == ipf && i > 0 ==> ipf >= 2 && num == ipf - 1 && buf[..num] == ViewAsWritten(positions[0], ss, ipf)
    {
      var instruction := ReadAt(results, i);
      if instruction.None? {
        break;
      }
      var index := i + 1;
      g := step(g, instruction.value);
      SamplesStep(gun, results, i, step, sampleOf);
      ss := ss + [sampleOf(g)];
      if index >= ipf {
        if num == 0 {
          return Err(ShiftUnderflow);
        }
        var before := buf;
        buf := ShiftLeft(buf, num - 1);
        num := num - 1;
        ShiftedView(positions[0], ss, positions[ipf..], before, buf, ipf);
      } else {
        AppendedView(positions[0], ss[..i], sampleOf(g), positions[i + 1..], buf);
      }
      buf := buf[index := sampleOf(g)];
      num := num + 1;
      i := i + 1;
    }
    if i < ipf || i == 0 {
      assert Consumed(results, ipf) == i;
      if i > 0 {
        assert buf[..num] == [positions[0]] + ss[..i - 1];
      }
    }
    r := Ok(Frame(buf, num, g));
  }

  /** Below a full frame, the next sample goes into the slot just past the earlier ones. */
  lemma AppendedView<S>(stale: S, s: seq<S>, x: S, tail: seq<S>, buf: seq<S>)
    requires |tail| >= 2 && buf == [stale] + s + tail
    ensures buf[|s| + 1 := x] == [stale] + (s + [x]) + tail[1..]
  {
    assert buf[|s| + 1 := x] == [stale] + (s + [x]) + tail[1..];
  }

  /** The full-frame shift leaves the closed-form view in the first ipf - 1 slots. */
  lemma ShiftedView<S>(stale: S, samples: seq<S>, tail: seq<S>, before: seq<S>, after: seq<S>, ipf: nat)
    requires ipf >= 2 && |samples| == ipf && |tail| == 1
    requires before == [stale] + samples[..ipf - 1] + tail
    requires |after| == |before|
    requires forall j :: 0 <= j < ipf - 2 ==> after[j] == before[j + 1]
    requires forall j :: ipf - 2 <= j < |before| ==> after[j] == before[j]
    ensures after[..ipf - 1] == ViewAsWritten(stale, samples, ipf)
  {
    assert after[ipf - 2] == before[ipf - 2];
    if ipf > 2 {
      assert after[..ipf - 1] == after[..ipf - 2] + [after[ipf - 2]];
      assert after[..ipf - 2] == samples[..ipf - 2];
    }
  }

  /** The smallest case: two slots per frame, one instruction, and the renderer sees only the previous frame's slot 0. */
  lemma ViewAsWrittenCounterexample()
    ensures ViewAsWritten(0, [7], 2) == [0]
    ensures ViewAsWritten(0, [7, 8], 2) == [0]
    ensures ViewAsWritten(0, [7, 8, 9], 3) == [7, 7]
  {
  }

  /**
   * Below a full frame the renderer sees the frame's samples exactly when
   * every one of them equals what slot 0 held already: in general the view
   * is off by one slot.
   */
  lemma {:induction false} ViewAsWrittenExactOnlyWhenConstant<S>(stale: S, s: seq<S>, ipf: nat)
    requires 2 <= ipf && |s| < ipf
    ensures ViewAsWritten(stale, s, ipf) == s <==> forall i :: 0 <= i < |s| ==> s[i] == stale
  {
    if |s| > 0 {
      var v := ViewAsWritten(stale, s, ipf);
      if v == s {
        forall i | 0 <= i < |s|
          ensures s[i] == stale
        {
          ConstantByShift(stale, s, i);
        }
      } else {
        var i :| 0 <= i < |s| && v[i] != s[i];
        assert s[i] != stale || (i > 0 && s[i - 1] != stale);
      }
    }
  }

  /** A sequence equal to itself shifted right behind `stale` is constant, by induction on the position. */
  lemma {:induction false} ConstantByShift<S>(stale: S, s: seq<S>, i: nat)
    requires i < |s| && [stale] + s[..|s| - 1] == s
    ensures s[i] == stale
  {
    assert s[i] == ([stale] + s[..|s| - 1])[i];
    if i > 0 {
      ConstantByShift(stale, s, i - 1);
    }
  }

  /**
   * The loop with its evident intent: each sample appended at
   * `num_positions` and the oldest evicted only once the window is full, as
   * the Windows 96 loop does. The renderer sees every sample of the frame.
   */
  method ProcessModernCorrected<G, I, S>(ipf: u32, positions: seq<S>, gun: G, results: seq<Option<I>>, step: (G, I) -> G, sampleOf: G -> S)
    returns (f: Frame<G, S>)
    requires |positions| == ipf + 1
    ensures var k := Consumed(results, ipf);
      f.count == k && f.gun == GunAfter(gun, results, k, step) && |f.positions| == |positions|
    ensures View(f) == Samples(gun, results, f.count, step, sampleOf)
  {
    var w := Win96.EventLoop(ipf, positions, gun, results, step, sampleOf);
    f := Frame(w.buffer, w.count, w.gun);
  }
}
