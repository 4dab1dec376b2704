/**
 * The records the overlay code works on: underlay triples, mixes and paths.
 * The collection of mixes is an arena: the mix with id `i` sits at position `i`.
 */
module Mixes {
  import opened Outcomes
  import opened Dictionaries

  /** One line of the underlay dataset: two node ids and the latency between them. */
  datatype Item = Item(first: int, second: int, latency: int)

  /**
   * A forwarding path from the owning (entry) mix to `rendezvous`, through
   * `first` and, for a two-hop path, `second`. The probability is exact.
   */
  datatype Path = Path(rendezvous: int, first: int, second: Option<int>, latency: int, probability: real)

  /** A mix: its id, underlay latencies (self included), overlay neighbors with latencies, and its paths. */
  datatype Mix = Mix(id: int, underlay: Dict, neighbors: Dict, paths: seq<Path>)

  /** Ids are positions, so `mixes.First(m => m.Id == x)` is `ms[x]` when `0 <= x < |ms|`. */
  ghost predicate Arena(ms: seq<Mix>) {
    forall i :: 0 <= i < |ms| ==> ms[i].id == i
  }

  const TwoTo31: int := 0x8000_0000
  const TwoTo32: int := 0x1_0000_0000

  /** `x` is a value of C#'s 32-bit `int`. */
  predicate InInt32(x: int) {
    -TwoTo31 <= x < TwoTo31
  }

  /** The value an unchecked C# `int` addition leaves: `x` wrapped into [-2^31, 2^31). */
  function Int32(x: int): (r: int)
    ensures -TwoTo31 <= r < TwoTo31
    ensures (r - x) % TwoTo32 == 0
    ensures -TwoTo31 <= x < TwoTo31 ==> r == x
  {
    (x + TwoTo31) % TwoTo32 - TwoTo31
  }
}
