/**
 * What the C frame loops see of the pipe and the gun: the results of
 * successive `mv_read_instruction_from_pipe` calls, and the gun state after
 * each instruction has been processed and the gun updated. Both the
 * processing and the gun update are opaque steps, so they are parameters.
 */
module Trace {
  import opened Wrappers

  /** The result of the i-th read of the frame; results past the given ones find the pipe empty. */
  function ReadAt<I>(results: seq<Option<I>>, i: nat): Option<I>
  {
    if i < |results| then results[i] else None
  }

  /** The number of instructions a frame consumes: at most `limit`, stopping at the first NULL. */
  function Consumed<I>(results: seq<Option<I>>, limit: nat): (k: nat)
    ensures k <= limit
    ensures forall i :: 0 <= i < k ==> ReadAt(results, i).Some?
    ensures k < limit ==> ReadAt(results, k).None?
  {
    if limit == 0 then 0
    else
      var k := Consumed(results, limit - 1);
      if k == limit - 1 && ReadAt(results, k).Some? then limit else k
  }

  /** The gun after the first k instructions, each processed and followed by an update. */
  function GunAfter<G, I>(gun: G, results: seq<Option<I>>, k: nat, step: (G, I) -> G): G
    requires forall i :: 0 <= i < k ==> ReadAt(results, i).Some?
  {
    if k == 0 then gun
    else step(GunAfter(gun, results, k - 1, step), ReadAt(results, k - 1).value)
  }

  /** The samples of the first k instructions, oldest first: sample i is taken after instruction i. */
  function Samples<G, I, S>(gun: G, results: seq<Option<I>>, k: nat, step: (G, I) -> G, sampleOf: G -> S): (s: seq<S>)
    requires forall i :: 0 <= i < k ==> ReadAt(results, i).Some?
    ensures |s| == k
  {
    seq(k, i requires 0 <= i < k => sampleOf(GunAfter(gun, results, i + 1, step)))
  }

  /** One more instruction adds its sample at the end and changes none of the earlier ones. */
  lemma SamplesStep<G, I, S>(gun: G, results: seq<Option<I>>, k: nat, step: (G, I) -> G, sampleOf: G -> S)
    requires forall i :: 0 <= i < k + 1 ==> ReadAt(results, i).Some?
    ensures Samples(gun, results, k + 1, step, sampleOf)
      == Samples(gun, results, k, step, sampleOf) + [sampleOf(GunAfter(gun, results, k + 1, step))]
  {
  }
}
