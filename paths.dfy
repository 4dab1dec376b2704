/**
 * PathCalculator: for every mix (the entry mix) and every node of its underlay dictionary
 * (the rendezvous, the entry mix itself included), the forwarding paths through one or two
 * middle relays of the overlay, with cyclic paths dropped and selection probabilities assigned
 * by the path selection policy. The overlay graph is frozen while paths are computed.
 */
module PathCalculator {
  import opened Outcomes
  import opened Dictionaries
  import opened Mixes

  /** The latency-aware policy only selects paths whose latency is below this bound. */
  const FastLatency: int := 150000

  /** Ids are positions and every neighbor dictionary is well formed. */
  ghost predicate Graph(ms: seq<Mix>) {
    Arena(ms) && forall i :: 0 <= i < |ms| ==> ms[i].neighbors.Valid()
  }

  /** The neighbor latency map of mix `x`. */
  function N(ms: seq<Mix>, x: int): map<int, int>
    requires 0 <= x < |ms|
  {
    ms[x].neighbors.values
  }

  ghost predicate Distinct(xs: seq<int>) {
    forall i, j :: 0 <= i < j < |xs| ==> xs[i] != xs[j]
  }

  // ---------------------------------------------------------------- relays

  /** `Enumerable.Intersect` of a key sequence with the keys of `b`: the keys of `xs`, in order, that `b` has. */
  function Common(xs: seq<int>, b: map<int, int>): (r: seq<int>)
    ensures forall z :: z in r <==> z in xs && z in b
  {
    if xs == [] then []
    else Common(xs[..|xs| - 1], b) + (if xs[|xs| - 1] in b then [xs[|xs| - 1]] else [])
  }

  lemma {:induction false} CommonDistinct(xs: seq<int>, b: map<int, int>)
    requires Distinct(xs)
    ensures Distinct(Common(xs, b))
  {
    if xs != [] {
      var init, last := xs[..|xs| - 1], xs[|xs| - 1];
      assert Distinct(init) by {
        forall i, j | 0 <= i < j < |init| ensures init[i] != init[j] {
          assert init[i] == xs[i] && init[j] == xs[j];
        }
      }
      CommonDistinct(init, b);
      assert last !in init by {
        forall i | 0 <= i < |init| ensures init[i] != last {
          assert init[i] == xs[i];
        }
      }
      var c := Common(init, b);
      var r := Common(xs, b);
      forall i, j | 0 <= i < j < |r| ensures r[i] != r[j] {
        if j < |c| {
          assert r[i] == c[i] && r[j] == c[j];
        } else {
          assert r[j] == last && r[i] == c[i];
          assert c[i] in c;
        }
      }
    }
  }

  /**
   * GetMiddleRelaysForTwoNodes: the neighbors of mix `x`, in its dictionary order and each once,
   * that are also neighbors of mix `y`; a lookup of an id that names no mix fails.
   */
  function GetMiddleRelaysForTwoNodes(ms: seq<Mix>, x: int, y: int): (r: Result<seq<int>>)
    requires Graph(ms)
    ensures r.Ok? <==> 0 <= x < |ms| && 0 <= y < |ms|
    ensures r.Ok? ==> forall z :: z in r.value <==> z in N(ms, x) && z in N(ms, y)
    ensures r.Ok? ==> Distinct(r.value)
  {
    if 0 <= x < |ms| && 0 <= y < |ms| then
      var n := ms[x].neighbors;
      CommonDistinct(n.keys, N(ms, y));
      Ok(Common(n.keys, N(ms, y)))
    else Err(NoSuchMix)
  }

  // ---------------------------------------------------------------- candidates

  /** Latency of the one-hop path `m -> relay -> r`: each end's neighbor latency to the relay, summed as C# `int`. */
  function OneHopLatency(ms: seq<Mix>, m: int, r: int, relay: int): int
    requires 0 <= m < |ms| && 0 <= r < |ms| && relay in N(ms, m) && relay in N(ms, r)
  {
    Int32(N(ms, m)[relay] + N(ms, r)[relay])
  }

  /** Latency of the two-hop path `m -> f -> s -> r`, added left to right as C# `int`. */
  function TwoHopLatency(ms: seq<Mix>, m: int, r: int, f: int, s: int): int
    requires 0 <= m < |ms| && 0 <= r < |ms| && 0 <= f < |ms|
    requires f in N(ms, m) && s in N(ms, f) && s in N(ms, r)
  {
    Int32(Int32(N(ms, m)[f] + N(ms, f)[s]) + N(ms, r)[s])
  }

  /** `p` is the one-hop path from `m` to `r` through a common neighbor of both; its probability is not yet set. */
  ghost predicate IsOneHop(ms: seq<Mix>, m: int, r: int, p: Path)
    requires 0 <= m < |ms| && 0 <= r < |ms|
  {
    && p.rendezvous == r && p.second.None? && p.probability == 0.0
    && p.first in N(ms, m) && p.first in N(ms, r)
    && p.latency == OneHopLatency(ms, m, r, p.first)
  }

  /** `p` is a two-hop path from `m` through neighbor `f` and a common neighbor of `f` and `r`. */
  ghost predicate IsTwoHop(ms: seq<Mix>, m: int, r: int, p: Path)
    requires 0 <= m < |ms| && 0 <= r < |ms|
  {
    && p.rendezvous == r && p.second.Some? && p.probability == 0.0
    && 0 <= p.first < |ms| && p.first in N(ms, m)
    && p.second.value in N(ms, p.first) && p.second.value in N(ms, r)
    && p.latency == TwoHopLatency(ms, m, r, p.first, p.second.value)
  }

  /** The one-hop paths through `relays`, in order. */
  function OneHopPaths(ms: seq<Mix>, m: int, r: int, relays: seq<int>): seq<Path>
    requires 0 <= m < |ms| && 0 <= r < |ms|
    requires forall z :: z in relays ==> z in N(ms, m) && z in N(ms, r)
  {
    if relays == [] then []
    else
      var z := relays[|relays| - 1];
      OneHopPaths(ms, m, r, relays[..|relays| - 1]) + [Path(r, z, None, OneHopLatency(ms, m, r, z), 0.0)]
  }

  /** The two-hop paths with first relay `f` and second relays `seconds`, in order. */
  function TwoHopPaths(ms: seq<Mix>, m: int, r: int, f: int, seconds: seq<int>): seq<Path>
    requires 0 <= m < |ms| && 0 <= r < |ms| && 0 <= f < |ms| && f in N(ms, m)
    requires forall s :: s in seconds ==> s in N(ms, f) && s in N(ms, r)
  {
    if seconds == [] then []
    else
      var s := seconds[|seconds| - 1];
      TwoHopPaths(ms, m, r, f, seconds[..|seconds| - 1]) + [Path(r, f, Some(s), TwoHopLatency(ms, m, r, f, s), 0.0)]
  }

  /** One-hop candidates: none when the rendezvous is the entry mix itself. */
  function OneHop(ms: seq<Mix>, m: int, r: int): Result<seq<Path>>
    requires Graph(ms) && 0 <= m < |ms|
  {
    if r == m then Ok([])
    else
      var relays :- GetMiddleRelaysForTwoNodes(ms, m, r);
      Ok(OneHopPaths(ms, m, r, relays))
  }

  /** Two-hop candidates over the first relays `fs` (a part of `m`'s neighbor keys), in order. */
  function TwoHopFrom(ms: seq<Mix>, m: int, r: int, fs: seq<int>): Result<seq<Path>>
    requires Graph(ms) && 0 <= m < |ms|
    requires forall f :: f in fs ==> f in N(ms, m)
  {
    if fs == [] then Ok([])
    else
      var before :- TwoHopFrom(ms, m, r, fs[..|fs| - 1]);
      var f := fs[|fs| - 1];
      var seconds :- GetMiddleRelaysForTwoNodes(ms, f, r);
      Ok(before + TwoHopPaths(ms, m, r, f, seconds))
  }

  function TwoHop(ms: seq<Mix>, m: int, r: int): Result<seq<Path>>
    requires Graph(ms) && 0 <= m < |ms|
  {
    TwoHopFrom(ms, m, r, ms[m].neighbors.keys)
  }

  /** The candidates of one (entry mix, rendezvous) pair: the one-hop paths, or the two-hop ones if there are none. */
  function Candidates(ms: seq<Mix>, m: int, r: int): Result<seq<Path>>
    requires Graph(ms) && 0 <= m < |ms|
  {
    var one :- OneHop(ms, m, r);
    if one == [] then TwoHop(ms, m, r) else Ok(one)
  }

  // ---------------------------------------------------------------- cycles and probabilities

  /** A path that repeats a node: a relay equal to the other relay, the rendezvous or the entry mix `m`. */
  predicate IsCyclic(p: Path, m: int) {
    || p.second == Some(p.first) || p.second == Some(p.rendezvous) || p.second == Some(m)
    || p.first == p.rendezvous || p.first == m
  }

  function RemoveCycles(ps: seq<Path>, m: int): seq<Path> {
    if ps == [] then []
    else RemoveCycles(ps[..|ps| - 1], m) + (if IsCyclic(ps[|ps| - 1], m) then [] else [ps[|ps| - 1]])
  }

  predicate IsFast(p: Path) {
    p.latency < FastLatency
  }

  /** `paths.Count(p => p.Latency < 150000)`. */
  function CountFast(ps: seq<Path>): nat {
    if ps == [] then 0 else CountFast(ps[..|ps| - 1]) + (if IsFast(ps[|ps| - 1]) then 1 else 0)
  }

  /** Every path with probability `q`. */
  function WithProbability(ps: seq<Path>, q: real): seq<Path> {
    if ps == [] then [] else WithProbability(ps[..|ps| - 1], q) + [ps[|ps| - 1].(probability := q)]
  }

  /** Fast paths get `q`, the others 0. */
  function FastProbability(ps: seq<Path>, q: real): seq<Path> {
    if ps == [] then []
    else
      var p := ps[|ps| - 1];
      FastProbability(ps[..|ps| - 1], q) + [p.(probability := if IsFast(p) then q else 0.0)]
  }

  /** What a fast path gets: one over the number of fast paths (no path gets it when there are none). */
  function FastShare(ps: seq<Path>): real {
    if CountFast(ps) == 0 then 0.0 else 1.0 / (CountFast(ps) as real)
  }

  /** Every path with probability `1 / |ps|`. */
  function Uniform(ps: seq<Path>): seq<Path> {
    if ps == [] then [] else WithProbability(ps, 1.0 / (|ps| as real))
  }

  /** The probability step for a policy: "Random", "Latency-aware", or an error for any other value. */
  function Assign(ps: seq<Path>, policy: string): Result<seq<Path>> {
    if policy == "Random" then Ok(Uniform(ps))
    else if policy == "Latency-aware" then Ok(FastProbability(ps, FastShare(ps)))
    else Err(UnknownPolicy)
  }

  /** `paths.Where(p => p.Probability > 0)`. */
  function Positive(ps: seq<Path>): seq<Path> {
    if ps == [] then []
    else Positive(ps[..|ps| - 1]) + (if ps[|ps| - 1].probability > 0.0 then [ps[|ps| - 1]] else [])
  }

  /** The paths an entry mix keeps for one rendezvous. */
  function Group(ms: seq<Mix>, m: int, r: int, policy: string): Result<seq<Path>>
    requires Graph(ms) && 0 <= m < |ms|
  {
    var candidates :- Candidates(ms, m, r);
    var weighted :- Assign(RemoveCycles(candidates, m), policy);
    Ok(Positive(weighted))
  }

  /** The groups for the rendezvous `rs`, concatenated in order; the first failing group fails all. */
  function GroupsFrom(ms: seq<Mix>, m: int, rs: seq<int>, policy: string): Result<seq<Path>>
    requires Graph(ms) && 0 <= m < |ms|
  {
    if rs == [] then Ok([])
    else
      var before :- GroupsFrom(ms, m, rs[..|rs| - 1], policy);
      var group :- Group(ms, m, rs[|rs| - 1], policy);
      Ok(before + group)
  }

  /** The new `Paths` of mix `m`: its groups over all its underlay keys, in dictionary order. */
  function MixPaths(ms: seq<Mix>, m: int, policy: string): Result<seq<Path>>
    requires Graph(ms) && 0 <= m < |ms|
  {
    GroupsFrom(ms, m, ms[m].underlay.keys, policy)
  }

  // ---------------------------------------------------------------- candidate lemmas

  lemma {:induction false} OneHopPathsSpec(ms: seq<Mix>, m: int, r: int, relays: seq<int>)
    requires 0 <= m < |ms| && 0 <= r < |ms|
    requires forall z :: z in relays ==> z in N(ms, m) && z in N(ms, r)
    ensures |OneHopPaths(ms, m, r, relays)| == |relays|
    ensures forall p :: p in OneHopPaths(ms, m, r, relays) <==> p.first in relays && IsOneHop(ms, m, r, p)
  {
    if relays != [] {
      OneHopPathsSpec(ms, m, r, relays[..|relays| - 1]);
      forall z | z in relays[..|relays| - 1] ensures z in relays {}
    }
  }

  lemma {:induction false} TwoHopPathsSpec(ms: seq<Mix>, m: int, r: int, f: int, seconds: seq<int>)
    requires 0 <= m < |ms| && 0 <= r < |ms| && 0 <= f < |ms| && f in N(ms, m)
    requires forall s :: s in seconds ==> s in N(ms, f) && s in N(ms, r)
    ensures forall p :: p in TwoHopPaths(ms, m, r, f, seconds) <==>
      p.first == f && p.second.Some? && p.second.value in seconds && IsTwoHop(ms, m, r, p)
  {
    if seconds != [] {
      TwoHopPathsSpec(ms, m, r, f, seconds[..|seconds| - 1]);
      forall s | s in seconds[..|seconds| - 1] ensures s in seconds {}
    }
  }

  /**
   * Two-hop candidates over first relays `fs`: they exist unless a lookup fails (the rendezvous
   * or a first relay names no mix), and they are exactly the two-hop paths whose first relay is in `fs`.
   */
  lemma {:induction false} TwoHopFromSpec(ms: seq<Mix>, m: int, r: int, fs: seq<int>)
    requires Graph(ms) && 0 <= m < |ms|
    requires forall f :: f in fs ==> f in N(ms, m)
    ensures TwoHopFrom(ms, m, r, fs).Ok? <==> fs == [] || (0 <= r < |ms| && forall f :: f in fs ==> 0 <= f < |ms|)
    ensures TwoHopFrom(ms, m, r, fs).Ok? && 0 <= r < |ms| ==>
      forall p :: p in TwoHopFrom(ms, m, r, fs).value <==> p.first in fs && IsTwoHop(ms, m, r, p)
    ensures TwoHopFrom(ms, m, r, fs).Ok? && fs == [] ==> TwoHopFrom(ms, m, r, fs).value == []
  {
    if fs != [] {
      var init, f := fs[..|fs| - 1], fs[|fs| - 1];
      forall g | g in init ensures g in fs {}
      TwoHopFromSpec(ms, m, r, init);
      assert forall g :: g in fs ==> g in init || g == f;
      assert f in fs;
      var inRange := forall g :: g in fs ==> 0 <= g < |ms|;
      assert inRange <==> (forall g :: g in init ==> 0 <= g < |ms|) && 0 <= f < |ms|;
      assert TwoHopFrom(ms, m, r, fs).Ok? <==> TwoHopFrom(ms, m, r, init).Ok? && 0 <= f < |ms| && 0 <= r < |ms|;
      if TwoHopFrom(ms, m, r, fs).Ok? {
        var seconds := GetMiddleRelaysForTwoNodes(ms, f, r).value;
        TwoHopPathsSpec(ms, m, r, f, seconds);
        assert TwoHopFrom(ms, m, r, init).Ok?;
        forall p ensures p in TwoHopFrom(ms, m, r, fs).value <==> p.first in fs && IsTwoHop(ms, m, r, p) {
          assert p.first in fs <==> p.first in init || p.first == f;
        }
      }
    }
  }

  lemma {:induction false} CommonNone(xs: seq<int>, b: map<int, int>, a: map<int, int>)
    requires forall z :: z in xs ==> z in a
    requires forall z :: z in a ==> z !in b
    ensures Common(xs, b) == []
  {
    if xs != [] {
      forall z | z in xs[..|xs| - 1] ensures z in a {
        assert z in xs;
      }
      CommonNone(xs[..|xs| - 1], b, a);
      var last := xs[|xs| - 1];
      assert last in xs;
      assert last in a;
      assert last !in b;
      assert Common(xs, b) == Common(xs[..|xs| - 1], b) + [];
    }
  }

  /** `m` and `r` have a neighbor in common. */
  ghost predicate HaveCommonNeighbor(ms: seq<Mix>, m: int, r: int)
    requires 0 <= m < |ms| && 0 <= r < |ms|
  {
    exists z :: z in N(ms, m) && z in N(ms, r)
  }

  /**
   * The candidate paths of (entry `m`, rendezvous `r`): the one-hop paths through common
   * neighbors when `r` is not `m` and there are such neighbors; otherwise the two-hop paths.
   * A rendezvous that names no mix fails, and when the two-hop search runs it also fails if a
   * neighbor of `m` names no mix.
   */
  lemma CandidatesSpec(ms: seq<Mix>, m: int, r: int)
    requires Graph(ms) && 0 <= m < |ms|
    ensures Candidates(ms, m, r).Ok? ==> 0 <= r < |ms|
    ensures 0 <= r < |ms| ==>
      var oneHop := r != m && HaveCommonNeighbor(ms, m, r);
      && (oneHop ==>
            && Candidates(ms, m, r).Ok?
            && forall p :: p in Candidates(ms, m, r).value <==> IsOneHop(ms, m, r, p))
      && (!oneHop ==> (Candidates(ms, m, r).Ok? <==> forall f :: f in N(ms, m) ==> 0 <= f < |ms|))
      && (!oneHop && Candidates(ms, m, r).Ok? ==>
            forall p :: p in Candidates(ms, m, r).value <==> IsTwoHop(ms, m, r, p))
  {
    var keys := ms[m].neighbors.keys;
    forall f | f in keys ensures f in N(ms, m) {}
    TwoHopFromSpec(ms, m, r, keys);
    if 0 <= r < |ms| {
      forall p | IsTwoHop(ms, m, r, p) ensures p.first in keys {}
      assert (forall f :: f in keys ==> 0 <= f < |ms|) <==> (forall f :: f in N(ms, m) ==> 0 <= f < |ms|) by {
        forall f | f in N(ms, m) ensures f in keys {}
      }
      if r != m {
        var relays := GetMiddleRelaysForTwoNodes(ms, m, r).value;
        OneHopPathsSpec(ms, m, r, relays);
        if HaveCommonNeighbor(ms, m, r) {
          var z :| z in N(ms, m) && z in N(ms, r);
          assert z in relays;
          assert relays != [];
        } else {
          CommonNone(ms[m].neighbors.keys, N(ms, r), N(ms, m));
        }
      }
    }
  }

  // ---------------------------------------------------------------- cycle and probability lemmas

  /** Cycle removal keeps exactly the acyclic paths. */
  lemma {:induction false} RemoveCyclesSpec(ps: seq<Path>, m: int)
    ensures forall p :: p in RemoveCycles(ps, m) <==> p in ps && !IsCyclic(p, m)
  {
    if ps != [] {
      RemoveCyclesSpec(ps[..|ps| - 1], m);
      assert forall p :: p in ps <==> p in ps[..|ps| - 1] || p == ps[|ps| - 1];
    }
  }

  /** The fast paths, in order. */
  function FastOnly(ps: seq<Path>): seq<Path> {
    if ps == [] then [] else FastOnly(ps[..|ps| - 1]) + (if IsFast(ps[|ps| - 1]) then [ps[|ps| - 1]] else [])
  }

  /** The paths a policy can select: all of them, or the fast ones under "Latency-aware". */
  function Selected(ps: seq<Path>, policy: string): seq<Path> {
    if policy == "Latency-aware" then FastOnly(ps) else ps
  }

  function SumProbability(ps: seq<Path>): real {
    if ps == [] then 0.0 else SumProbability(ps[..|ps| - 1]) + ps[|ps| - 1].probability
  }

  lemma {:induction false} FastOnlySpec(ps: seq<Path>)
    ensures |FastOnly(ps)| == CountFast(ps)
    ensures forall p :: p in FastOnly(ps) <==> p in ps && IsFast(p)
  {
    if ps != [] {
      FastOnlySpec(ps[..|ps| - 1]);
      assert forall p :: p in ps <==> p in ps[..|ps| - 1] || p == ps[|ps| - 1];
    }
  }

  /** Setting every probability to `q` keeps the paths in their order. */
  lemma {:induction false} WithProbabilitySpec(ps: seq<Path>, q: real)
    ensures |WithProbability(ps, q)| == |ps|
    ensures forall k :: 0 <= k < |ps| ==> WithProbability(ps, q)[k] == ps[k].(probability := q)
  {
    if ps != [] {
      var init, last := ps[..|ps| - 1], ps[|ps| - 1];
      WithProbabilitySpec(init, q);
      var wi := WithProbability(init, q);
      assert WithProbability(ps, q) == wi + [last.(probability := q)];
      forall k | 0 <= k < |ps| ensures (wi + [last.(probability := q)])[k] == ps[k].(probability := q) {
        if k < |init| {
          assert init[k] == ps[k];
        }
      }
    }
  }

  /** Setting every probability to `q` makes them sum to `|ps| * q`. */
  lemma {:induction false} WithProbabilitySum(ps: seq<Path>, q: real)
    ensures SumProbability(WithProbability(ps, q)) == (|ps| as real) * q
  {
    if ps != [] {
      var init, last := ps[..|ps| - 1], ps[|ps| - 1];
      WithProbabilitySum(init, q);
      var wi, p := WithProbability(init, q), last.(probability := q);
      assert WithProbability(ps, q) == wi + [p];
      SumSnoc(wi, p);
      Distribute(|init|, q);
      calc {
        SumProbability(wi + [p]);
        SumProbability(wi) + q;
        (|init| as real) * q + q;
        (|ps| as real) * q;
      }
    }
  }

  lemma SumSnoc(ps: seq<Path>, p: Path)
    ensures SumProbability(ps + [p]) == SumProbability(ps) + p.probability
  {
    assert (ps + [p])[..|ps|] == ps;
  }

  lemma Distribute(n: nat, q: real)
    ensures (n as real) * q + q == ((n + 1) as real) * q
  {
  }

  /**
   * The uniform assignment: each path keeps its route and latency and gets probability
   * `1 / |ps|`, so the probabilities of a non-empty group sum to 1.
   */
  lemma UniformSpec(ps: seq<Path>)
    ensures |Uniform(ps)| == |ps|
    ensures forall k :: 0 <= k < |ps| ==> Uniform(ps)[k] == ps[k].(probability := 1.0 / (|ps| as real))
    ensures ps != [] ==> SumProbability(Uniform(ps)) == 1.0
    ensures forall p :: p in Uniform(ps) ==> p.probability > 0.0
  {
    if ps != [] {
      WithProbabilitySpec(ps, 1.0 / (|ps| as real));
      WithProbabilitySum(ps, 1.0 / (|ps| as real));
    }
  }

  lemma {:induction false} PositiveAll(ps: seq<Path>)
    requires forall p :: p in ps ==> p.probability > 0.0
    ensures Positive(ps) == ps
  {
    if ps != [] {
      var init := ps[..|ps| - 1];
      forall p | p in init ensures p.probability > 0.0 {
        assert p in ps;
      }
      PositiveAll(init);
      assert ps[|ps| - 1] in ps;
      assert ps == init + [ps[|ps| - 1]];
    }
  }

  /** Under "Latency-aware" with `c` fast paths, the positive ones are the fast paths at `1 / c` each. */
  lemma {:induction false} FastPositive(ps: seq<Path>, q: real)
    requires q > 0.0
    ensures Positive(FastProbability(ps, q)) == WithProbability(FastOnly(ps), q)
  {
    if ps != [] {
      var init, p := ps[..|ps| - 1], ps[|ps| - 1];
      FastPositive(init, q);
      var p' := p.(probability := if IsFast(p) then q else 0.0);
      var s0 := FastProbability(init, q);
      assert FastProbability(ps, q) == s0 + [p'];
      PositiveSnoc(s0, p');
      assert FastOnly(ps) == FastOnly(init) + (if IsFast(p) then [p] else []);
      if IsFast(p) {
        assert p' == p.(probability := q);
        WithProbabilitySnoc(FastOnly(init), p, q);
        assert Positive(s0 + [p']) == Positive(s0) + [p'];
      } else {
        assert p'.probability == 0.0;
        assert Positive(s0 + [p']) == Positive(s0);
        assert FastOnly(ps) == FastOnly(init);
      }
    }
  }

  lemma PositiveSnoc(ps: seq<Path>, p: Path)
    ensures Positive(ps + [p]) == Positive(ps) + (if p.probability > 0.0 then [p] else [])
  {
    assert (ps + [p])[..|ps|] == ps;
  }

  lemma WithProbabilitySnoc(ps: seq<Path>, p: Path, q: real)
    ensures WithProbability(ps + [p], q) == WithProbability(ps, q) + [p.(probability := q)]
  {
    assert (ps + [p])[..|ps|] == ps;
  }

  lemma {:induction false} NoFastPositive(ps: seq<Path>, q: real)
    requires CountFast(ps) == 0
    ensures Positive(FastProbability(ps, q)) == []
  {
    if ps != [] {
      NoFastPositive(ps[..|ps| - 1], q);
    }
  }

  /**
   * The probability step followed by the positive filter: a known policy keeps the paths it
   * can select, each at probability one over their number; any other policy fails.
   */
  lemma AssignSpec(ps: seq<Path>, policy: string)
    ensures Assign(ps, policy).Ok? <==> policy == "Random" || policy == "Latency-aware"
    ensures Assign(ps, policy).Ok? ==> Positive(Assign(ps, policy).value) == Uniform(Selected(ps, policy))
  {
    if policy == "Random" {
      UniformSpec(ps);
      PositiveAll(Uniform(ps));
    } else if policy == "Latency-aware" {
      FastOnlySpec(ps);
      if CountFast(ps) == 0 {
        NoFastPositive(ps, FastShare(ps));
      } else {
        FastPositive(ps, FastShare(ps));
      }
    }
  }

  // ---------------------------------------------------------------- group lemmas

  /** The candidate kind for (`m`, `r`): one-hop when `r` is not `m` and they share a neighbor, else two-hop. */
  ghost predicate IsCandidate(ms: seq<Mix>, m: int, r: int, p: Path)
    requires 0 <= m < |ms| && 0 <= r < |ms|
  {
    if r != m && HaveCommonNeighbor(ms, m, r) then IsOneHop(ms, m, r, p) else IsTwoHop(ms, m, r, p)
  }

  /** A group is the uniform assignment over the acyclic candidates the policy selects. */
  lemma GroupSpec(ms: seq<Mix>, m: int, r: int, policy: string)
    requires Graph(ms) && 0 <= m < |ms|
    ensures Group(ms, m, r, policy).Ok? <==>
      Candidates(ms, m, r).Ok? && (policy == "Random" || policy == "Latency-aware")
    ensures Group(ms, m, r, policy).Ok? ==>
      Group(ms, m, r, policy).value == Uniform(Selected(RemoveCycles(Candidates(ms, m, r).value, m), policy))
  {
    if Candidates(ms, m, r).Ok? {
      AssignSpec(RemoveCycles(Candidates(ms, m, r).value, m), policy);
    }
  }

  lemma KeptSpec(cs: seq<Path>, m: int, policy: string)
    ensures forall p :: p in Selected(RemoveCycles(cs, m), policy) <==>
      p in cs && !IsCyclic(p, m) && (policy == "Latency-aware" ==> IsFast(p))
  {
    RemoveCyclesSpec(cs, m);
    FastOnlySpec(RemoveCycles(cs, m));
  }

  /**
   * What every path of a group is: a candidate of the right kind for (`m`, `r`) with its
   * probability set, acyclic, fast under "Latency-aware", at probability one over the group's
   * size; so a non-empty group's probabilities sum to 1.
   */
  lemma GroupSound(ms: seq<Mix>, m: int, r: int, policy: string)
    requires Graph(ms) && 0 <= m < |ms| && Group(ms, m, r, policy).Ok?
    ensures 0 <= r < |ms|
    ensures var g := Group(ms, m, r, policy).value;
      && (g != [] ==> SumProbability(g) == 1.0)
      && forall p :: p in g ==>
        && p.rendezvous == r && !IsCyclic(p, m)
        && p.probability == 1.0 / (|g| as real)
        && (policy == "Latency-aware" ==> IsFast(p))
        && IsCandidate(ms, m, r, p.(probability := 0.0))
  {
    CandidatesSpec(ms, m, r);
    GroupSpec(ms, m, r, policy);
    var cs := Candidates(ms, m, r).value;
    var kept := Selected(RemoveCycles(cs, m), policy);
    KeptSpec(cs, m, policy);
    UniformSpec(kept);
    var g := Group(ms, m, r, policy).value;
    forall p | p in g
      ensures p.rendezvous == r && !IsCyclic(p, m)
      ensures p.probability == 1.0 / (|g| as real)
      ensures policy == "Latency-aware" ==> IsFast(p)
      ensures IsCandidate(ms, m, r, p.(probability := 0.0))
    {
      var k :| 0 <= k < |g| && g[k] == p;
      assert kept[k] in kept;
      assert p.(probability := 0.0) == kept[k];
    }
  }

  /** Every acyclic candidate the policy selects is in the group, at probability one over the group's size. */
  lemma GroupComplete(ms: seq<Mix>, m: int, r: int, policy: string, p: Path)
    requires Graph(ms) && 0 <= m < |ms| && 0 <= r < |ms| && Group(ms, m, r, policy).Ok?
    requires IsCandidate(ms, m, r, p) && !IsCyclic(p, m) && (policy == "Latency-aware" ==> IsFast(p))
    ensures Group(ms, m, r, policy).value != []
    ensures p.(probability := 1.0 / (|Group(ms, m, r, policy).value| as real)) in Group(ms, m, r, policy).value
  {
    CandidatesSpec(ms, m, r);
    GroupSpec(ms, m, r, policy);
    var cs := Candidates(ms, m, r).value;
    var kept := Selected(RemoveCycles(cs, m), policy);
    KeptSpec(cs, m, policy);
    UniformSpec(kept);
    if r != m && HaveCommonNeighbor(ms, m, r) {
      assert IsOneHop(ms, m, r, p);
    } else {
      assert IsTwoHop(ms, m, r, p);
    }
    assert p in cs;
    assert p in kept;
    var k :| 0 <= k < |kept| && kept[k] == p;
    assert Group(ms, m, r, policy).value[k] == p.(probability := 1.0 / (|kept| as real));
  }

  /** A rendezvous that is the entry mix itself only ever gets two-hop paths. */
  lemma SelfRendezvousTwoHop(ms: seq<Mix>, m: int, policy: string)
    requires Graph(ms) && 0 <= m < |ms| && Group(ms, m, m, policy).Ok?
    ensures forall p :: p in Group(ms, m, m, policy).value ==> p.second.Some?
  {
    GroupSound(ms, m, m, policy);
  }

  // ---------------------------------------------------------------- lemmas about a mix's paths

  /** The paths of `ps` to rendezvous `r`, in order. */
  function ForRendezvous(ps: seq<Path>, r: int): seq<Path> {
    if ps == [] then []
    else ForRendezvous(ps[..|ps| - 1], r) + (if ps[|ps| - 1].rendezvous == r then [ps[|ps| - 1]] else [])
  }

  lemma {:induction false} ForRendezvousAppend(a: seq<Path>, b: seq<Path>, r: int)
    ensures ForRendezvous(a + b, r) == ForRendezvous(a, r) + ForRendezvous(b, r)
  {
    if b == [] {
      assert a + b == a;
    } else {
      ForRendezvousAppend(a, b[..|b| - 1], r);
      assert (a + b)[..|a + b| - 1] == a + b[..|b| - 1];
    }
  }

  lemma {:induction false} ForRendezvousAll(ps: seq<Path>, r: int)
    requires forall p :: p in ps ==> p.rendezvous == r
    ensures ForRendezvous(ps, r) == ps
  {
    if ps != [] {
      var init := ps[..|ps| - 1];
      forall p | p in init ensures p.rendezvous == r {
        assert p in ps;
      }
      ForRendezvousAll(init, r);
      assert ps[|ps| - 1] in ps;
      assert ps == init + [ps[|ps| - 1]];
    }
  }

  lemma {:induction false} ForRendezvousNone(ps: seq<Path>, r: int)
    requires forall p :: p in ps ==> p.rendezvous != r
    ensures ForRendezvous(ps, r) == []
  {
    if ps != [] {
      var init := ps[..|ps| - 1];
      forall p | p in init ensures p.rendezvous != r {
        assert p in ps;
      }
      ForRendezvousNone(init, r);
      assert ps[|ps| - 1] in ps;
    }
  }

  /**
   * The concatenated groups over the rendezvous `rs` exist exactly when every group does, hold
   * only paths to those rendezvous, and, the rendezvous being distinct, split back into the groups.
   */
  lemma {:induction false} GroupsFromSpec(ms: seq<Mix>, m: int, rs: seq<int>, policy: string)
    requires Graph(ms) && 0 <= m < |ms|
    ensures GroupsFrom(ms, m, rs, policy).Ok? <==> forall r :: r in rs ==> Group(ms, m, r, policy).Ok?
    ensures GroupsFrom(ms, m, rs, policy).Ok? ==>
      forall p :: p in GroupsFrom(ms, m, rs, policy).value ==> p.rendezvous in rs
    ensures GroupsFrom(ms, m, rs, policy).Ok? && Distinct(rs) ==>
      forall r :: r in rs ==> ForRendezvous(GroupsFrom(ms, m, rs, policy).value, r) == Group(ms, m, r, policy).value
  {
    if rs != [] {
      var init, last := rs[..|rs| - 1], rs[|rs| - 1];
      GroupsFromSpec(ms, m, init, policy);
      assert forall r :: r in rs <==> r in init || r == last;
      if GroupsFrom(ms, m, rs, policy).Ok? {
        var before, group := GroupsFrom(ms, m, init, policy).value, Group(ms, m, last, policy).value;
        GroupSound(ms, m, last, policy);
        if Distinct(rs) {
          assert Distinct(init) by {
            forall i, j | 0 <= i < j < |init| ensures init[i] != init[j] {
              assert init[i] == rs[i] && init[j] == rs[j];
            }
          }
          assert last !in init by {
            forall i | 0 <= i < |init| ensures init[i] != last {
              assert init[i] == rs[i];
            }
          }
          forall r | r in rs
            ensures ForRendezvous(before + group, r) == Group(ms, m, r, policy).value
          {
            ForRendezvousAppend(before, group, r);
            if r == last {
              ForRendezvousAll(group, r);
              ForRendezvousNone(before, r);
            } else {
              ForRendezvousNone(group, r);
            }
          }
        }
      }
    }
  }

  /** An unknown policy fails as soon as there is one rendezvous. */
  lemma {:induction false} GroupsFromUnknownPolicy(ms: seq<Mix>, m: int, rs: seq<int>, policy: string)
    requires Graph(ms) && 0 <= m < |ms|
    requires policy != "Random" && policy != "Latency-aware" && rs != []
    ensures GroupsFrom(ms, m, rs, policy).Err?
  {
    GroupSpec(ms, m, rs[|rs| - 1], policy);
  }

  /**
   * The paths of mix `m`: they exist exactly when every rendezvous group does; they lead to
   * underlay nodes of `m` only, and those to one rendezvous are exactly its group.
   */
  lemma MixPathsSpec(ms: seq<Mix>, m: int, policy: string)
    requires Graph(ms) && 0 <= m < |ms| && ms[m].underlay.Valid()
    ensures var u := ms[m].underlay.values;
      && (MixPaths(ms, m, policy).Ok? <==> forall r :: r in u ==> Group(ms, m, r, policy).Ok?)
      && (MixPaths(ms, m, policy).Ok? ==>
            && (forall p :: p in MixPaths(ms, m, policy).value ==> p.rendezvous in u)
            && forall r :: r in u ==> ForRendezvous(MixPaths(ms, m, policy).value, r) == Group(ms, m, r, policy).value)
  {
    var keys := ms[m].underlay.keys;
    GroupsFromSpec(ms, m, keys, policy);
    assert forall r :: r in keys <==> r in ms[m].underlay.values;
  }

  /**
   * For each underlay node of `m` as rendezvous, the paths of `m` to it are acyclic, share
   * probability one over their number, and sum to 1 unless there are none.
   */
  lemma MixPathsNormalised(ms: seq<Mix>, m: int, policy: string, r: int)
    requires Graph(ms) && 0 <= m < |ms| && ms[m].underlay.Valid()
    requires MixPaths(ms, m, policy).Ok? && r in ms[m].underlay.values
    ensures var g := ForRendezvous(MixPaths(ms, m, policy).value, r);
      && (g != [] ==> SumProbability(g) == 1.0)
      && forall p :: p in g ==> !IsCyclic(p, m) && p.probability == 1.0 / (|g| as real)
  {
    MixPathsSpec(ms, m, policy);
    GroupSound(ms, m, r, policy);
  }

  /** A mix whose underlay holds at least one node (its own id always is one) fails on an unknown policy. */
  lemma MixPathsUnknownPolicy(ms: seq<Mix>, m: int, policy: string)
    requires Graph(ms) && 0 <= m < |ms| && ms[m].underlay.keys != []
    requires policy != "Random" && policy != "Latency-aware"
    ensures MixPaths(ms, m, policy).Err?
  {
    GroupsFromUnknownPolicy(ms, m, ms[m].underlay.keys, policy);
  }

  // ---------------------------------------------------------------- CalculatePaths, step by step

  /** One more first relay whose common neighbors with the rendezvous exist: its block is appended. */
  lemma TwoHopFromSnoc(ms: seq<Mix>, m: int, r: int, fs: seq<int>, j: nat, before: seq<Path>, seconds: seq<int>)
    requires Graph(ms) && 0 <= m < |ms| && j < |fs| && fs[j] in N(ms, m)
    requires forall f :: f in fs[..j + 1] ==> f in N(ms, m)
    requires TwoHopFrom(ms, m, r, fs[..j]) == Ok(before)
    requires GetMiddleRelaysForTwoNodes(ms, fs[j], r) == Ok(seconds)
    ensures TwoHopFrom(ms, m, r, fs[..j + 1]) == Ok(before + TwoHopPaths(ms, m, r, fs[j], seconds))
  {
    assert fs[..j + 1][..j] == fs[..j];
  }

  lemma {:induction false} TwoHopFromErrStays(ms: seq<Mix>, m: int, r: int, fs: seq<int>, j: nat)
    requires Graph(ms) && 0 <= m < |ms| && j <= |fs|
    requires forall f :: f in fs ==> f in N(ms, m)
    requires forall f :: f in fs[..j] ==> f in N(ms, m)
    requires TwoHopFrom(ms, m, r, fs[..j]).Err?
    ensures TwoHopFrom(ms, m, r, fs) == TwoHopFrom(ms, m, r, fs[..j])
    decreases |fs| - j
  {
    if j < |fs| {
      var init := fs[..|fs| - 1];
      forall f | f in init ensures f in N(ms, m) {
        assert f in fs;
      }
      assert init[..j] == fs[..j];
      TwoHopFromErrStays(ms, m, r, init, j);
    } else {
      assert fs[..j] == fs;
    }
  }

  lemma {:induction false} GroupsFromErrStays(ms: seq<Mix>, m: int, rs: seq<int>, policy: string, j: nat)
    requires Graph(ms) && 0 <= m < |ms| && j <= |rs|
    requires GroupsFrom(ms, m, rs[..j], policy).Err?
    ensures GroupsFrom(ms, m, rs, policy) == GroupsFrom(ms, m, rs[..j], policy)
    decreases |rs| - j
  {
    if j < |rs| {
      var init := rs[..|rs| - 1];
      assert init[..j] == rs[..j];
      GroupsFromErrStays(ms, m, init, policy, j);
    } else {
      assert rs[..j] == rs;
    }
  }

  /** The one-hop loop: a path per common relay, latency summed as C# `int`. */
  method CollectOneHop(ms: seq<Mix>, m: int, r: int) returns (res: Result<seq<Path>>)
    requires Graph(ms) && 0 <= m < |ms|
    ensures res == OneHop(ms, m, r)
  {
    if r == m {
      return Ok([]);
    }
    var relays :- GetMiddleRelaysForTwoNodes(ms, m, r);
    var paths: seq<Path> := [];
    for k := 0 to |relays|
      invariant forall z :: z in relays[..k] ==> z in relays
      invariant paths == OneHopPaths(ms, m, r, relays[..k])
    {
      var relay := relays[k];
      assert relay in relays;
      var latency := Int32(ms[m].neighbors.values[relay] + ms[r].neighbors.values[relay]);
      paths := paths + [Path(r, relay, None, latency, 0.0)];
      assert relays[..k + 1][..k] == relays[..k];
    }
    assert relays[..|relays|] == relays;
    res := Ok(paths);
  }

  /** The inner two-hop loop: a path `m -> first -> second -> r` per relay `second` shared by `first` and `r`. */
  method CollectSecondHops(ms: seq<Mix>, m: int, r: int, first: int, seconds: seq<int>) returns (block: seq<Path>)
    requires 0 <= m < |ms| && 0 <= r < |ms| && 0 <= first < |ms| && first in N(ms, m)
    requires forall s :: s in seconds ==> s in N(ms, first) && s in N(ms, r)
    ensures block == TwoHopPaths(ms, m, r, first, seconds)
  {
    block := [];
    for k := 0 to |seconds|
      invariant forall s :: s in seconds[..k] ==> s in seconds
      invariant block == TwoHopPaths(ms, m, r, first, seconds[..k])
    {
      var second := seconds[k];
      assert second in seconds;
      var latency := Int32(Int32(ms[m].neighbors.values[first] + ms[first].neighbors.values[second])
        + ms[r].neighbors.values[second]);
      block := block + [Path(r, first, Some(second), latency, 0.0)];
      assert seconds[..k + 1][..k] == seconds[..k];
    }
    assert seconds[..|seconds|] == seconds;
  }

  /** The two-hop loops: for each neighbor of `m` in order, a path per relay it shares with `r`. */
  method CollectTwoHop(ms: seq<Mix>, m: int, r: int) returns (res: Result<seq<Path>>)
    requires Graph(ms) && 0 <= m < |ms|
    ensures res == TwoHop(ms, m, r)
  {
    var firsts := ms[m].neighbors.keys;
    assert forall f :: f in firsts ==> f in N(ms, m);
    var paths: seq<Path> := [];
    for j := 0 to |firsts|
      invariant forall f :: f in firsts[..j] ==> f in firsts
      invariant TwoHopFrom(ms, m, r, firsts[..j]) == Ok(paths)
    {
      var first := firsts[j];
      assert first in firsts;
      assert firsts[..j + 1][..j] == firsts[..j];
      assert forall f :: f in firsts[..j + 1] ==> f in firsts;
      var seconds := GetMiddleRelaysForTwoNodes(ms, first, r);
      if seconds.Err? {
        TwoHopFromErrStays(ms, m, r, firsts, j + 1);
        return Err(seconds.error);
      }
      var block := CollectSecondHops(ms, m, r, first, seconds.value);
      TwoHopFromSnoc(ms, m, r, firsts, j, paths, seconds.value);
      paths := paths + block;
    }
    assert firsts[..|firsts|] == firsts;
    res := Ok(paths);
  }

  /** The cycle filter: mark the cyclic paths (by position, which stands for their unique ids), then keep the rest. */
  method DropCycles(ps: seq<Path>, m: int) returns (kept: seq<Path>)
    ensures kept == RemoveCycles(ps, m)
  {
    var cyclic: set<int> := {};
    for k := 0 to |ps|
      invariant forall j :: j in cyclic <==> 0 <= j < k && IsCyclic(ps[j], m)
    {
      if IsCyclic(ps[k], m) {
        cyclic := cyclic + {k};
      }
    }
    kept := [];
    for k := 0 to |ps|
      invariant kept == RemoveCycles(ps[..k], m)
    {
      if k !in cyclic {
        kept := kept + [ps[k]];
      }
      assert ps[..k + 1][..k] == ps[..k];
    }
    assert ps[..|ps|] == ps;
  }

  lemma CountFastPositive(ps: seq<Path>, k: int)
    requires 0 <= k < |ps| && IsFast(ps[k])
    ensures CountFast(ps) > 0
  {
    FastOnlySpec(ps);
    assert ps[k] in FastOnly(ps);
  }

  /** The random policy's loop: every path gets `1 / |ps|`. */
  method UniformLoop(ps: seq<Path>) returns (out: seq<Path>)
    ensures out == Uniform(ps)
  {
    out := [];
    for k := 0 to |ps|
      invariant |ps| == 0 ==> out == []
      invariant |ps| > 0 ==> out == WithProbability(ps[..k], 1.0 / (|ps| as real))
    {
      out := out + [ps[k].(probability := 1.0 / (|ps| as real))];
      assert ps[..k + 1][..k] == ps[..k];
    }
    assert ps[..|ps|] == ps;
  }

  /** The latency-aware policy's loop: a fast path gets one over the number of fast paths, a slow one 0. */
  method FastLoop(ps: seq<Path>) returns (out: seq<Path>)
    ensures out == FastProbability(ps, FastShare(ps))
  {
    out := [];
    for k := 0 to |ps|
      invariant out == FastProbability(ps[..k], FastShare(ps))
    {
      var p := ps[k];
      if p.latency < FastLatency {
        CountFastPositive(ps, k);
        out := out + [p.(probability := 1.0 / (CountFast(ps) as real))];
      } else {
        out := out + [p.(probability := 0.0)];
      }
      assert ps[..k + 1][..k] == ps[..k];
    }
    assert ps[..|ps|] == ps;
  }

  /** The probability step: the loop of the chosen policy; any other policy is an error. */
  method AssignProbabilities(ps: seq<Path>, policy: string) returns (res: Result<seq<Path>>)
    ensures res == Assign(ps, policy)
  {
    if policy == "Random" {
      var out := UniformLoop(ps);
      res := Ok(out);
    } else if policy == "Latency-aware" {
      var out := FastLoop(ps);
      res := Ok(out);
    } else {
      res := Err(UnknownPolicy);
    }
  }

  /** The body for one rendezvous: candidates, cycle filter, probabilities, positive filter. */
  method RendezvousPaths(ms: seq<Mix>, m: int, r: int, policy: string) returns (res: Result<seq<Path>>)
    requires Graph(ms) && 0 <= m < |ms|
    ensures res == Group(ms, m, r, policy)
  {
    var one := CollectOneHop(ms, m, r);
    if one.Err? {
      return Err(one.error);
    }
    var paths := one.value;
    if paths == [] {
      var two := CollectTwoHop(ms, m, r);
      if two.Err? {
        return Err(two.error);
      }
      paths := two.value;
    }
    paths := DropCycles(paths, m);
    var weighted := AssignProbabilities(paths, policy);
    if weighted.Err? {
      return Err(weighted.error);
    }
    res := Ok(Positive(weighted.value));
  }

  /** One more rendezvous: its group is appended, or its failure becomes the result. */
  lemma GroupsFromPrefix(ms: seq<Mix>, m: int, rs: seq<int>, policy: string, j: nat)
    requires Graph(ms) && 0 <= m < |ms| && j < |rs| && GroupsFrom(ms, m, rs[..j], policy).Ok?
    ensures GroupsFrom(ms, m, rs[..j + 1], policy) ==
      if Group(ms, m, rs[j], policy).Ok?
      then Ok(GroupsFrom(ms, m, rs[..j], policy).value + Group(ms, m, rs[j], policy).value)
      else Err(Group(ms, m, rs[j], policy).error)
  {
    assert rs[..j + 1][..j] == rs[..j];
  }

  /** The body for one mix: reset its paths, then append each rendezvous's group in underlay order. */
  method EnumerateMixPaths(ms: seq<Mix>, m: int, policy: string) returns (res: Result<seq<Path>>)
    requires Graph(ms) && 0 <= m < |ms|
    ensures res == MixPaths(ms, m, policy)
  {
    var rendezvous := ms[m].underlay.keys;
    var paths: seq<Path> := [];
    for j := 0 to |rendezvous|
      invariant GroupsFrom(ms, m, rendezvous[..j], policy) == Ok(paths)
    {
      GroupsFromPrefix(ms, m, rendezvous, policy, j);
      var group := RendezvousPaths(ms, m, rendezvous[j], policy);
      if group.Err? {
        GroupsFromErrStays(ms, m, rendezvous, policy, j + 1);
        return Err(group.error);
      }
      paths := paths + group.value;
    }
    assert rendezvous[..|rendezvous|] == rendezvous;
    res := Ok(paths);
  }

  /**
   * CalculatePaths: every mix's paths, one mix after the other, from the graph as it was on
   * entry (no mix reads another's paths, which is what makes the parallel loop of the source
   * equivalent to this one). Only the `paths` fields change. On an error the loop stops, and
   * the mixes before the failing one already hold their new paths.
   */
  method CalculatePaths(a: array<Mix>, policy: string) returns (failure: Option<Error>)
    requires Graph(a[..])
    modifies a
    ensures forall i :: 0 <= i < a.Length ==> a[i] == old(a[i]).(paths := a[i].paths)
    ensures failure.None? <==> forall i :: 0 <= i < a.Length ==> MixPaths(old(a[..]), i, policy).Ok?
    ensures failure.None? ==> forall i :: 0 <= i < a.Length ==> a[i].paths == MixPaths(old(a[..]), i, policy).value
  {
    var graph := a[..];
    for i := 0 to a.Length
      invariant forall j :: 0 <= j < i ==>
        MixPaths(graph, j, policy).Ok? && a[j] == graph[j].(paths := MixPaths(graph, j, policy).value)
      invariant forall j :: i <= j < a.Length ==> a[j] == graph[j]
    {
      var paths := EnumerateMixPaths(graph, i, policy);
      if paths.Err? {
        return Some(paths.error);
      }
      a[i] := a[i].(paths := paths.value);
    }
    failure := None;
  }
}
