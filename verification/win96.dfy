/**
 * The position window of the Windows 96 event loop
 * (`source/support/win96.c`): one sample of the gun per instruction read
 * this frame, appended at `num_positions`, with the oldest evicted when the
 * window is full.
 */
module Win96 {
  import opened Wrappers
  import opened Bytes
  import opened Trace

  /** The buffer and its live count after a frame, and the gun. */
  datatype Frame<G, S> = Frame(buffer: seq<S>, count: nat, gun: G)

  /** The shift loop of the eviction: every slot below `count - 1` takes its right neighbour; nothing else moves. */
  function Evict<S>(buffer: seq<S>, count: int): (b: seq<S>)
    ensures |b| == |buffer|
    ensures forall j :: 0 <= j < |buffer| ==> b[j] == if j + 1 < count && j + 1 < |buffer| then buffer[j + 1] else buffer[j]
  {
    seq(|buffer|, j requires 0 <= j < |buffer| => if j + 1 < count && j + 1 < |buffer| then buffer[j + 1] else buffer[j])
  }

  /**
   * `mv_support_win96_event_loop`, up to the renderer call. The buffer
   * `malloc`'d at line 18 holds `instruction_per_frame` samples; the
   * renderer receives it together with `num_positions`.
   */
  method EventLoop<G, I, S>(ipf: u64, buffer: seq<S>, gun: G, results: seq<Option<I>>, step: (G, I) -> G, sampleOf: G -> S)
    returns (f: Frame<G, S>)
    requires |buffer| >= ipf
    ensures var k := Consumed(results, ipf);
      f.count == k && f.gun == GunAfter(gun, results, k, step)
    ensures f.count <= ipf && |f.buffer| == |buffer|
    ensures f.buffer[..f.count] == Samples(gun, results, f.count, step, sampleOf)
    ensures f.buffer[f.count..] == buffer[f.count..]
  {
    var buf := buffer;
    var num: int := 0;
    var g := gun;
    var i := 0;
    while i < ipf
      invariant 0 <= i <= ipf && num == i
      invariant forall t :: 0 <= t < i ==> ReadAt(results, t).Some?
      invariant g == GunAfter(gun, results, i, step)
      invariant |buf| == |buffer|
      invariant buf[..i] == Samples(gun, results, i, step, sampleOf)
      invariant buf[i..] == buffer[i..]
    {
      var instruction := ReadAt(results, i);
      if instruction.None? {
        break;
      }
      g := step(g, instruction.value);
      if num + 1 > ipf {
        // Unreachable within one call, since num == i < ipf.
        buf := Evict(buf, num);
        num := num - 1;
      }
      SamplesStep(gun, results, i, step, sampleOf);
      buf := buf[num := sampleOf(g)];
      num := num + 1;
      i := i + 1;
    }
    f := Frame(buf, num, g);
  }
}
