/**
 * TopologyConstructor: building the overlay neighbor graph over the mixes,
 * by random picks or by nearest underlay nodes followed by random picks.
 * The random generator is a stream of draws, each in [0, number of mixes),
 * that the whole construction consumes in order.
 */
module Topology {
  import opened Outcomes
  import opened Dictionaries
  import opened Mixes
  import opened Underlay
  import opened NearestNodes

  function Max0(n: int): nat {
    if n < 0 then 0 else n
  }

  /** Arena of mixes whose dictionaries are well formed. */
  ghost predicate Wellformed(ms: seq<Mix>) {
    && Arena(ms)
    && forall a :: 0 <= a < |ms| ==> ms[a].underlay.Valid() && ms[a].neighbors.Valid()
  }

  /** No mix is its own neighbor. */
  ghost predicate NoSelfEdges(ms: seq<Mix>) {
    forall a :: 0 <= a < |ms| ==> a !in ms[a].neighbors.values
  }

  /** Every neighbor id names a mix. */
  ghost predicate EdgesInRange(ms: seq<Mix>) {
    forall a, b :: 0 <= a < |ms| && b in ms[a].neighbors.values ==> 0 <= b < |ms|
  }

  /** `b` is a neighbor of `a` exactly when `a` is a neighbor of `b`. */
  ghost predicate Symmetric(ms: seq<Mix>) {
    forall a, b :: 0 <= a < |ms| && 0 <= b < |ms| ==>
      (b in ms[a].neighbors.values <==> a in ms[b].neighbors.values)
  }

  /** Each neighbor latency is the owner's underlay latency to that neighbor. */
  ghost predicate LatenciesFromUnderlay(ms: seq<Mix>) {
    forall a, b :: 0 <= a < |ms| && b in ms[a].neighbors.values ==>
      b in ms[a].underlay.values && ms[a].neighbors.values[b] == ms[a].underlay.values[b]
  }

  /** The invariant every construction step keeps. */
  ghost predicate Overlay(ms: seq<Mix>) {
    Wellformed(ms) && NoSelfEdges(ms) && EdgesInRange(ms) && Symmetric(ms) && LatenciesFromUnderlay(ms)
  }

  /** Freshly initialized mixes: no neighbors yet. */
  ghost predicate Initial(ms: seq<Mix>) {
    Wellformed(ms) && forall a :: 0 <= a < |ms| ==> ms[a].neighbors == Empty
  }

  /**
   * `after` differs from `before` only by added neighbors: same mixes, underlays and paths,
   * every neighbor dictionary extended (old keys first, old latencies kept).
   */
  ghost predicate Grown(before: seq<Mix>, after: seq<Mix>) {
    && |after| == |before|
    && forall a :: 0 <= a < |before| ==>
      && after[a].id == before[a].id
      && after[a].underlay == before[a].underlay
      && after[a].paths == before[a].paths
      && before[a].neighbors.keys <= after[a].neighbors.keys
      && (forall b :: b in before[a].neighbors.values ==>
            b in after[a].neighbors.values && after[a].neighbors.values[b] == before[a].neighbors.values[b])
  }

  /** The mixes that chose `x`. */
  function ChosenBy(chosen: seq<set<int>>, x: int): set<int> {
    set y | 0 <= y < |chosen| && x in chosen[y]
  }

  /** The edges are exactly those some mix chose: `y` neighbors `x` iff `x` chose `y` or `y` chose `x`. */
  ghost predicate EdgesFrom(ms: seq<Mix>, chosen: seq<set<int>>) {
    forall x :: 0 <= x < |ms| ==>
      ms[x].neighbors.values.Keys == (if x < |chosen| then chosen[x] else {}) + ChosenBy(chosen, x)
  }

  lemma InitialIsOverlay(ms: seq<Mix>)
    requires Initial(ms)
    ensures Overlay(ms) && EdgesFrom(ms, [])
  {
  }

  lemma GrownTrans(a: seq<Mix>, b: seq<Mix>, c: seq<Mix>)
    requires Grown(a, b) && Grown(b, c)
    ensures Grown(a, c)
  {
    forall x | 0 <= x < |a| ensures a[x].neighbors.keys <= c[x].neighbors.keys {
      var ka, kb, kc := a[x].neighbors.keys, b[x].neighbors.keys, c[x].neighbors.keys;
      assert kb[..|ka|] == ka && kc[..|kb|] == kb;
      assert kc[..|ka|] == kb[..|ka|];
    }
  }

  /**
   * The edge step of both builders: unless `b` already neighbors `a`, add `b` to `a`'s neighbors
   * with `a`'s underlay latency, then `a` to `b`'s with `b`'s underlay latency.
   * Fails when `a` has no underlay latency for `b`, `b` names no mix, or `b` has none for `a`.
   */
  function Link(ms: seq<Mix>, a: int, b: int): (r: Result<seq<Mix>>)
    requires Overlay(ms) && 0 <= a < |ms| && b != a
    ensures r.Ok? <==> b in ms[a].neighbors.values || Reachable(ms, a, b)
    ensures r.Err? ==> LinkError(r.error)
    ensures r.Ok? ==> Overlay(r.value) && Grown(ms, r.value)
    ensures r.Ok? ==> forall x, y :: 0 <= x < |ms| ==>
      (y in r.value[x].neighbors.values <==>
        y in ms[x].neighbors.values || (x == a && y == b) || (x == b && y == a))
  {
    if ms[a].neighbors.ContainsKey(b) then Ok(ms)
    else
      var latency :- ms[a].underlay.Get(b);
      if !(0 <= b < |ms|) then Err(NoSuchMix)
      else
        var ms1 := ms[a := ms[a].(neighbors := ms[a].neighbors.Add(b, latency).value)];
        if ms1[b].neighbors.ContainsKey(a) then Ok(ms1)
        else
          var back :- ms1[b].underlay.Get(a);
          LinkKeeps(ms, a, b, latency, back);
          Ok(ms1[b := ms1[b].(neighbors := ms1[b].neighbors.Add(a, back).value)])
  }

  /** The two Adds of a new edge keep the overlay invariant. */
  lemma LinkKeeps(ms: seq<Mix>, a: int, b: int, latency: int, back: int)
    requires Overlay(ms) && 0 <= a < |ms| && 0 <= b < |ms| && b != a
    requires b !in ms[a].neighbors.values && a !in ms[b].neighbors.values
    requires b in ms[a].underlay.values && latency == ms[a].underlay.values[b]
    requires a in ms[b].underlay.values && back == ms[b].underlay.values[a]
    ensures var ms1 := ms[a := ms[a].(neighbors := ms[a].neighbors.Add(b, latency).value)];
      var ms2 := ms1[b := ms1[b].(neighbors := ms1[b].neighbors.Add(a, back).value)];
      && Overlay(ms2) && Grown(ms, ms2)
      && forall x, y :: 0 <= x < |ms| ==>
        (y in ms2[x].neighbors.values <==> y in ms[x].neighbors.values || (x == a && y == b) || (x == b && y == a))
  {
    var ms1 := ms[a := ms[a].(neighbors := ms[a].neighbors.Add(b, latency).value)];
    var ms2 := ms1[b := ms1[b].(neighbors := ms1[b].neighbors.Add(a, back).value)];
    var na, nb := ms[a].neighbors.Add(b, latency).value, ms[b].neighbors.Add(a, back).value;
    assert ms2 == ms[a := ms[a].(neighbors := na)][b := ms[b].(neighbors := nb)];
    AddEdgeKeeps(ms, a, b, na, nb);
  }

  /**
   * An edge from `a` to `b` can be added: `b` is in `a`'s underlay, names a mix, and that
   * mix has `a` in its underlay.
   */
  ghost predicate Reachable(ms: seq<Mix>, a: int, b: int)
    requires 0 <= a < |ms|
  {
    b in ms[a].underlay.values && 0 <= b < |ms| && a in ms[b].underlay.values
  }

  /** The errors `Link` reports: a missing underlay latency, or an id that names no mix. */
  predicate LinkError(e: Error) {
    e == KeyNotFound || e == NoSuchMix
  }

  /**
   * A node that mix `a` may try to link (another mix, or another node of its underlay)
   * but cannot, whatever neighbors the mixes have.
   */
  ghost predicate Unlinkable(ms: seq<Mix>, a: int, b: int)
    requires 0 <= a < |ms|
  {
    b != a && (0 <= b < |ms| || b in ms[a].underlay.values) && !Reachable(ms, a, b)
  }

  /** Some mix cannot be linked to some other mix. */
  ghost predicate SomePairUnlinkable(ms: seq<Mix>) {
    exists a, b :: 0 <= a < |ms| && 0 <= b < |ms| && Unlinkable(ms, a, b)
  }

  /** Some mix cannot be linked to some mix or node of its underlay. */
  ghost predicate SomeUnlinkable(ms: seq<Mix>) {
    exists a, b :: 0 <= a < |ms| && Unlinkable(ms, a, b)
  }

  /** Adding neighbors changes nothing about which links are possible. */
  lemma UnlinkableGrown(ms: seq<Mix>, cur: seq<Mix>, a: int, b: int)
    requires Grown(ms, cur) && 0 <= a < |ms|
    ensures Reachable(cur, a, b) == Reachable(ms, a, b)
    ensures Unlinkable(cur, a, b) == Unlinkable(ms, a, b)
  {
    if 0 <= b < |ms| {
      assert cur[b].underlay == ms[b].underlay;
    }
  }

  /** Setting the two extended neighbor dictionaries of a new edge keeps the overlay invariant. */
  lemma AddEdgeKeeps(ms: seq<Mix>, a: int, b: int, na: Dict, nb: Dict)
    requires Overlay(ms) && 0 <= a < |ms| && 0 <= b < |ms| && b != a
    requires b !in ms[a].neighbors.values && a !in ms[b].neighbors.values
    requires b in ms[a].underlay.values && a in ms[b].underlay.values
    requires na.Valid() && na.keys == ms[a].neighbors.keys + [b]
    requires na.values == ms[a].neighbors.values[b := ms[a].underlay.values[b]]
    requires nb.Valid() && nb.keys == ms[b].neighbors.keys + [a]
    requires nb.values == ms[b].neighbors.values[a := ms[b].underlay.values[a]]
    ensures var ms2 := ms[a := ms[a].(neighbors := na)][b := ms[b].(neighbors := nb)];
      && Overlay(ms2) && Grown(ms, ms2)
      && forall x, y :: 0 <= x < |ms| ==>
        (y in ms2[x].neighbors.values <==> y in ms[x].neighbors.values || (x == a && y == b) || (x == b && y == a))
  {
    var ms2 := ms[a := ms[a].(neighbors := na)][b := ms[b].(neighbors := nb)];
    assert AddsEdge(ms, ms2, a, b) by {
      forall x | 0 <= x < |ms|
        ensures SameMix(ms[x], ms2[x])
        ensures EdgeAt(ms[x], ms2[x], x, a, b)
      {
        if x == a {
          assert ms2[x].neighbors == na;
        } else if x == b {
          assert ms2[x].neighbors == nb;
        } else {
          assert ms2[x] == ms[x];
        }
      }
    }
    AddsEdgeKeeps(ms, ms2, a, b);
  }

  /** Two mix records agree on everything but their neighbors. */
  ghost predicate SameMix(m: Mix, m2: Mix) {
    m2.id == m.id && m2.underlay == m.underlay && m2.paths == m.paths
  }

  /**
   * Mix `x`'s neighbors in `m2` are those in `m`, extended (keys appended, old latencies kept)
   * by the edge between `a` and `b` where `x` is one of its ends, at `x`'s underlay latency.
   */
  ghost predicate EdgeAt(m: Mix, m2: Mix, x: int, a: int, b: int) {
    && m2.neighbors.Valid()
    && m.neighbors.keys <= m2.neighbors.keys
    && (forall y :: y in m2.neighbors.values <==> y in m.neighbors.values || (x == a && y == b) || (x == b && y == a))
    && (forall y :: y in m.neighbors.values ==> m2.neighbors.values[y] == m.neighbors.values[y])
    && (forall y :: y in m2.neighbors.values && y !in m.neighbors.values ==>
          y in m.underlay.values && m2.neighbors.values[y] == m.underlay.values[y])
  }

  ghost predicate AddsEdge(ms: seq<Mix>, ms2: seq<Mix>, a: int, b: int) {
    && |ms2| == |ms|
    && forall x :: 0 <= x < |ms| ==> SameMix(ms[x], ms2[x]) && EdgeAt(ms[x], ms2[x], x, a, b)
  }

  lemma AddsEdgeKeeps(ms: seq<Mix>, ms2: seq<Mix>, a: int, b: int)
    requires Overlay(ms) && 0 <= a < |ms| && 0 <= b < |ms| && b != a
    requires AddsEdge(ms, ms2, a, b)
    ensures Overlay(ms2) && Grown(ms, ms2)
    ensures forall x, y :: 0 <= x < |ms| ==>
      (y in ms2[x].neighbors.values <==> y in ms[x].neighbors.values || (x == a && y == b) || (x == b && y == a))
  {
    forall x, y | 0 <= x < |ms| && 0 <= y < |ms|
      ensures y in ms2[x].neighbors.values <==> x in ms2[y].neighbors.values
    {
      assert EdgeAt(ms[x], ms2[x], x, a, b) && EdgeAt(ms[y], ms2[y], y, a, b);
      assert y in ms[x].neighbors.values <==> x in ms[y].neighbors.values;
    }
  }

  /** The edges of `after` are those of `before` plus one between `a` and each of `chosen`. */
  ghost predicate StarAdded(before: seq<Mix>, after: seq<Mix>, a: int, chosen: set<int>)
    requires |after| == |before|
  {
    forall x :: 0 <= x < |before| ==>
      after[x].neighbors.values.Keys ==
        before[x].neighbors.values.Keys + (if x == a then chosen else {}) + (if x in chosen then {a} else {})
  }

  lemma StarStep(ms: seq<Mix>, cur: seq<Mix>, next: seq<Mix>, a: int, chosen: set<int>, c: int)
    requires |cur| == |ms| && |next| == |ms| && StarAdded(ms, cur, a, chosen)
    requires forall x, y :: 0 <= x < |cur| ==>
      (y in next[x].neighbors.values <==> y in cur[x].neighbors.values || (x == a && y == c) || (x == c && y == a))
    ensures StarAdded(ms, next, a, chosen + {c})
  {
    forall x | 0 <= x < |ms|
      ensures next[x].neighbors.values.Keys == ms[x].neighbors.values.Keys
        + (if x == a then chosen + {c} else {}) + (if x in chosen + {c} then {a} else {})
    {
      var n, m := next[x].neighbors.values, cur[x].neighbors.values;
      assert m.Keys == ms[x].neighbors.values.Keys + (if x == a then chosen else {}) + (if x in chosen then {a} else {});
      forall y ensures y in n.Keys <==> y in m.Keys + (if x == a then {c} else {}) + (if x == c then {a} else {}) {
        assert y in n <==> y in m || (x == a && y == c) || (x == c && y == a);
      }
    }
  }

  /** Ids `a` already neighbors count as a star that is already in place. */
  lemma StarStart(ms: seq<Mix>, a: int, chosen: set<int>)
    requires Overlay(ms) && 0 <= a < |ms|
    requires forall c :: c in chosen ==> c in ms[a].neighbors.values
    ensures StarAdded(ms, ms, a, chosen)
  {
    forall x | 0 <= x < |ms|
      ensures ms[x].neighbors.values.Keys ==
        ms[x].neighbors.values.Keys + (if x == a then chosen else {}) + (if x in chosen then {a} else {})
    {
      if x == a {
        forall c | c in chosen ensures c in ms[a].neighbors.values.Keys {
          assert c in ms[a].neighbors.values;
        }
      }
      if x in chosen {
        assert x in ms[a].neighbors.values;
        assert a in ms[x].neighbors.values;
      }
    }
  }

  /** Every draw from position `pos` on is `a` itself or in `c`: a turn that has chosen `c` redraws forever. */
  ghost predicate Exhausted(draws: seq<int>, pos: nat, a: int, c: set<int>) {
    Rejected(draws, pos, |draws|, a, c)
  }

  /** Every draw in positions `[from, to)` is `a` itself or in `c`. */
  ghost predicate Rejected(draws: seq<int>, from: nat, to: nat, a: int, c: set<int>) {
    forall j :: from <= j < to && j < |draws| ==> draws[j] == a || draws[j] in c
  }

  /** A drawn candidate, after rejected draws, extends the rejected stretch once it is chosen. */
  lemma RejectedStep(draws: seq<int>, cursor: nat, pos: nat, next: nat, a: int, c: set<int>)
    requires cursor <= pos < next <= |draws| && Rejected(draws, cursor, pos, a, c)
    requires forall j :: pos <= j < next - 1 ==> draws[j] == a || draws[j] in c
    ensures Rejected(draws, cursor, next, a, c + {draws[next - 1]})
  {
  }

  /** Rejected draws up to `pos`, and every draw after it rejected too: the stream is exhausted from `cursor`. */
  lemma RejectedAll(draws: seq<int>, cursor: nat, pos: nat, a: int, c: set<int>)
    requires cursor <= pos <= |draws| && Rejected(draws, cursor, pos, a, c)
    requires forall j :: pos <= j < |draws| ==> draws[j] == a || draws[j] in c
    ensures Exhausted(draws, cursor, a, c)
  {
  }

  /** The mix state after one turn, the turn's chosen neighbor set, and the draw stream's position. */
  datatype Turn = Turn(mixes: seq<Mix>, chosen: set<int>, cursor: nat)

  /**
   * The random part of a mix's turn (the counted `for` loop of both builders): `count` more
   * candidates drawn from the stream, redrawing while a draw is the mix itself or already chosen,
   * each linked to the mix. The chosen set grows by exactly `count` ids, all of them neighbors
   * afterwards, and the only edges added are between the mix and what it chose.
   */
  method RandomFill(ms: seq<Mix>, a: int, chosen0: set<int>, count: int, draws: seq<int>, cursor: nat)
    returns (r: Result<Turn>)
    requires Overlay(ms) && 0 <= a < |ms|
    requires a !in chosen0 && forall c :: c in chosen0 ==> c in ms[a].neighbors.values
    requires cursor <= |draws| && forall d :: d in draws ==> 0 <= d < |ms|
    ensures r.Ok? ==>
      && Overlay(r.value.mixes) && Grown(ms, r.value.mixes)
      && chosen0 <= r.value.chosen && |r.value.chosen| == |chosen0| + Max0(count) && a !in r.value.chosen
      && (forall c :: c in r.value.chosen ==> c in r.value.mixes[a].neighbors.values)
      && StarAdded(ms, r.value.mixes, a, r.value.chosen)
      && cursor <= r.value.cursor <= |draws|
    ensures r.Err? ==>
      || r.error == DrawsExhausted
      || (LinkError(r.error) && exists b :: 0 <= b < |ms| && Unlinkable(ms, a, b))
    ensures r.Err? ==> 0 < count
    ensures r == Err(DrawsExhausted) ==>
      exists c :: chosen0 <= c && a !in c && |c| < |chosen0| + count && Exhausted(draws, cursor, a, c)
  {
    var cur, chosen, pos := ms, chosen0, cursor;
    var i := 0;
    StarStart(ms, a, chosen0);
    while i < count
      invariant i <= Max0(count)
      invariant Overlay(cur) && Grown(ms, cur)
      invariant chosen0 <= chosen && |chosen| == |chosen0| + i && a !in chosen
      invariant StarAdded(ms, cur, a, chosen)
      invariant cursor <= pos <= |draws|
      invariant Rejected(draws, cursor, pos, a, chosen)
    {
      var step := FillOne(ms, cur, a, chosen, draws, cursor, pos);
      if step.Err? {
        return Err(step.error);
      }
      cur, chosen, pos := step.value.mixes, step.value.chosen, step.value.cursor;
      i := i + 1;
    }
    r := Ok(Turn(cur, chosen, pos));
    assert cur[a].neighbors.values.Keys == ms[a].neighbors.values.Keys + chosen;
  }

  /**
   * One iteration of the counted loop: draw the next acceptable candidate and link it to `a`.
   * The chosen set grows by that one candidate; every draw consumed since `cursor` stays rejected.
   */
  method FillOne(ms: seq<Mix>, cur: seq<Mix>, a: int, chosen: set<int>, draws: seq<int>, cursor: nat, pos: nat)
    returns (r: Result<Turn>)
    requires Overlay(cur) && Grown(ms, cur) && 0 <= a < |ms| && a !in chosen
    requires StarAdded(ms, cur, a, chosen)
    requires cursor <= pos <= |draws| && Rejected(draws, cursor, pos, a, chosen)
    requires forall d :: d in draws ==> 0 <= d < |ms|
    ensures r.Ok? ==>
      && Overlay(r.value.mixes) && Grown(ms, r.value.mixes)
      && chosen <= r.value.chosen && |r.value.chosen| == |chosen| + 1 && a !in r.value.chosen
      && StarAdded(ms, r.value.mixes, a, r.value.chosen)
      && pos <= r.value.cursor <= |draws| && Rejected(draws, cursor, r.value.cursor, a, r.value.chosen)
    ensures r.Err? ==>
      || (r.error == DrawsExhausted && Exhausted(draws, cursor, a, chosen))
      || (LinkError(r.error) && exists b :: 0 <= b < |ms| && Unlinkable(ms, a, b))
  {
    var next := NextCandidate(a, chosen, draws, pos, |ms|);
    if next.Err? {
      RejectedAll(draws, cursor, pos, a, chosen);
      return Err(next.error);
    }
    var candidate := next.value.0;
    RejectedStep(draws, cursor, pos, next.value.1, a, chosen);
    var linked := Link(cur, a, candidate);
    if linked.Err? {
      UnlinkableGrown(ms, cur, a, candidate);
      assert Unlinkable(ms, a, candidate);
      return Err(linked.error);
    }
    GrownTrans(ms, cur, linked.value);
    StarStep(ms, cur, linked.value, a, chosen, candidate);
    r := Ok(Turn(linked.value, chosen + {candidate}, next.value.1));
  }

  /**
   * One draw of a turn: take draws from position `pos` until one is neither the mix `a` itself
   * nor already chosen. Yields that candidate and the position after it; every draw skipped on
   * the way was rejected. Running out of draws stands for the source redrawing forever.
   */
  method NextCandidate(a: int, chosen: set<int>, draws: seq<int>, pos: nat, n: int)
    returns (r: Result<(int, nat)>)
    requires pos <= |draws| && forall d :: d in draws ==> 0 <= d < n
    ensures r.Ok? ==>
      && pos < r.value.1 <= |draws| && r.value.0 == draws[r.value.1 - 1]
      && 0 <= r.value.0 < n && r.value.0 != a && r.value.0 !in chosen
      && forall j :: pos <= j < r.value.1 - 1 ==> draws[j] == a || draws[j] in chosen
    ensures r.Err? ==>
      && r.error == DrawsExhausted
      && forall j :: pos <= j < |draws| ==> draws[j] == a || draws[j] in chosen
  {
    var p := pos;
    while p < |draws| && (draws[p] == a || draws[p] in chosen)
      invariant pos <= p <= |draws|
      invariant forall j :: pos <= j < p ==> draws[j] == a || draws[j] in chosen
    {
      p := p + 1;
    }
    if p == |draws| {
      return Err(DrawsExhausted);
    }
    assert draws[p] in draws;
    r := Ok((draws[p], p + 1));
  }

  /** Composing two stars around `a`, the second's chosen set containing the first's. */
  lemma StarCompose(m0: seq<Mix>, m1: seq<Mix>, m2: seq<Mix>, a: int, c1: set<int>, c2: set<int>)
    requires |m1| == |m0| && |m2| == |m0| && c1 <= c2
    requires StarAdded(m0, m1, a, c1) && StarAdded(m1, m2, a, c2)
    ensures StarAdded(m0, m2, a, c2)
  {
    forall x | 0 <= x < |m0|
      ensures m2[x].neighbors.values.Keys ==
        m0[x].neighbors.values.Keys + (if x == a then c2 else {}) + (if x in c2 then {a} else {})
    {
      assert m1[x].neighbors.values.Keys ==
        m0[x].neighbors.values.Keys + (if x == a then c1 else {}) + (if x in c1 then {a} else {});
    }
  }

  /** The ids of a list of (id, latency) pairs. */
  function Ids(es: seq<(int, int)>): set<int> {
    set e | e in es :: e.0
  }

  lemma {:induction false} IdsCount(es: seq<(int, int)>)
    requires DistinctKeys(es)
    ensures |Ids(es)| == |es|
  {
    if es != [] {
      var init, last := es[..|es| - 1], es[|es| - 1];
      assert es == init + [last];
      assert Ids(es) == Ids(init) + {last.0};
      assert DistinctKeys(init) by {
        forall i, j | 0 <= i < j < |init| ensures init[i].0 != init[j].0 {
          assert init[i] == es[i] && init[j] == es[j];
        }
      }
      assert last.0 !in Ids(init) by {
        forall e | e in init ensures e.0 != last.0 {
          var i :| 0 <= i < |init| && init[i] == e;
          assert es[i] == e;
        }
      }
      IdsCount(init);
    }
  }

  lemma IdsSnoc(es: seq<(int, int)>, j: int)
    requires 0 <= j < |es|
    ensures Ids(es[..j + 1]) == Ids(es[..j]) + {es[j].0}
  {
    assert es[..j + 1] == es[..j] + [es[j]];
  }

  /**
   * The first part of a latency-aware turn: link the mix to each of its nearest underlay nodes
   * in order (the underlay latency `Link` reads is the pair's own latency).
   */
  method LinkNearest(ms: seq<Mix>, a: int, near: seq<(int, int)>) returns (r: Result<seq<Mix>>)
    requires Overlay(ms) && 0 <= a < |ms|
    requires forall e :: e in near ==> e.0 != a
    ensures r.Ok? ==> Overlay(r.value) && Grown(ms, r.value) && StarAdded(ms, r.value, a, Ids(near))
    ensures r.Err? ==> LinkError(r.error) && exists e :: e in near && !Reachable(ms, a, e.0)
  {
    var cur := ms;
    ghost var done: set<int> := {};
    StarStart(ms, a, {});
    for j := 0 to |near|
      invariant Overlay(cur) && Grown(ms, cur) && StarAdded(ms, cur, a, done)
      invariant done == Ids(near[..j])
    {
      var b := near[j].0;
      assert near[j] in near;
      var linked := Link(cur, a, b);
      if linked.Err? {
        UnlinkableGrown(ms, cur, a, b);
        return Err(linked.error);
      }
      GrownTrans(ms, cur, linked.value);
      StarStep(ms, cur, linked.value, a, done, b);
      IdsSnoc(near, j);
      cur, done := linked.value, done + {b};
    }
    assert near[..|near|] == near;
    r := Ok(cur);
  }

  /**
   * One mix's turn of the latency-aware builder: link its `l` nearest underlay nodes, then draw
   * `k - l` more at random as `RandomFill` does, the nearest ones counting as already chosen.
   * `k` and `l` are C# `int` settings, and so is their difference: it wraps around.
   */
  method LatencyAwareTurn(ms: seq<Mix>, a: int, k: int, l: int, draws: seq<int>, cursor: nat)
    returns (r: Result<Turn>)
    requires Overlay(ms) && 0 <= a < |ms| && InInt32(k) && InInt32(l)
    requires cursor <= |draws| && forall d :: d in draws ==> 0 <= d < |ms|
    ensures r.Ok? ==>
      var near := Nearest(ms[a].underlay, a, l);
      && Overlay(r.value.mixes) && Grown(ms, r.value.mixes)
      && Ids(near) <= r.value.chosen && |r.value.chosen| == |near| + Max0(Int32(k - l)) && a !in r.value.chosen
      && StarAdded(ms, r.value.mixes, a, r.value.chosen)
      && cursor <= r.value.cursor <= |draws|
    ensures r.Err? ==>
      || r.error == DrawsExhausted
      || (LinkError(r.error) && exists b :: Unlinkable(ms, a, b))
    ensures r == Err(DrawsExhausted) ==>
      var near := Nearest(ms[a].underlay, a, l);
      && 0 < Int32(k - l)
      && exists c :: Ids(near) <= c && a !in c && |c| < |near| + Int32(k - l) && Exhausted(draws, cursor, a, c)
  {
    var near := Nearest(ms[a].underlay, a, l);
    NearestSpec(ms[a].underlay, a, l);
    var linked := LinkNearest(ms, a, near);
    if linked.Err? {
      ghost var e :| e in near && !Reachable(ms, a, e.0);
      assert Unlinkable(ms, a, e.0);
      return Err(linked.error);
    }
    var mid := linked.value;
    assert mid[a].neighbors.values.Keys == ms[a].neighbors.values.Keys + Ids(near);
    IdsCount(near);
    r := RandomFill(mid, a, Ids(near), Int32(k - l), draws, cursor);
    if r.Ok? {
      GrownTrans(ms, mid, r.value.mixes);
      StarCompose(ms, mid, r.value.mixes, a, Ids(near), r.value.chosen);
    } else if r.error != DrawsExhausted {
      ghost var b :| 0 <= b < |mid| && Unlinkable(mid, a, b);
      UnlinkableGrown(ms, mid, a, b);
    }
  }

  /** The neighbor graph after a builder ran over all mixes, and what each mix chose in its turn. */
  datatype Built = Built(mixes: seq<Mix>, chosen: seq<set<int>>)

  /**
   * What both builders guarantee: the overlay invariant, one chosen set per mix that does not
   * contain the mix itself, and edges that are exactly the chosen pairs, in either direction.
   */
  ghost predicate ChosenEdges(b: Built) {
    && Overlay(b.mixes) && |b.chosen| == |b.mixes| && EdgesFrom(b.mixes, b.chosen)
    && forall x :: 0 <= x < |b.mixes| ==> x !in b.chosen[x]
  }

  /** The random builder: every mix chose exactly `k` others (none when `k` is negative). */
  ghost predicate RandomEdges(k: int, b: Built) {
    ChosenEdges(b) && forall x :: 0 <= x < |b.mixes| ==> |b.chosen[x]| == Max0(k)
  }

  /**
   * The latency-aware builder: every mix chose its `l` nearest underlay nodes (or all of them
   * when it has fewer) and `k - l` random others on top, that difference taken as a C# `int`.
   */
  ghost predicate LatencyAwareEdges(k: int, l: int, b: Built) {
    && ChosenEdges(b)
    && forall x :: 0 <= x < |b.mixes| ==>
      var near := Nearest(b.mixes[x].underlay, x, l);
      Ids(near) <= b.chosen[x] && |b.chosen[x]| == |near| + Max0(Int32(k - l))
  }

  /** A turn of mix `|chosen|` that added a star around it extends the chosen-edges relation. */
  lemma EdgesStep(cur: seq<Mix>, next: seq<Mix>, chosen: seq<set<int>>, c: set<int>)
    requires |chosen| < |cur| && |next| == |cur|
    requires EdgesFrom(cur, chosen) && StarAdded(cur, next, |chosen|, c)
    ensures EdgesFrom(next, chosen + [c])
  {
    var a := |chosen|;
    forall x | 0 <= x < |cur|
      ensures next[x].neighbors.values.Keys == (if x < a + 1 then (chosen + [c])[x] else {}) + ChosenBy(chosen + [c], x)
    {
      assert ChosenBy(chosen + [c], x) == ChosenBy(chosen, x) + (if x in c then {a} else {}) by {
        forall y ensures y in ChosenBy(chosen + [c], x) <==> y in ChosenBy(chosen, x) + (if x in c then {a} else {}) {
          if 0 <= y < a {
            assert (chosen + [c])[y] == chosen[y];
          }
        }
      }
      assert cur[x].neighbors.values.Keys == (if x < a then chosen[x] else {}) + ChosenBy(chosen, x);
    }
  }

  /**
   * CreateRandomTopology after initialization: each mix in id order takes its turn, drawing
   * `k` distinct others from the one shared stream of draws.
   */
  method BuildRandom(ms: seq<Mix>, k: int, draws: seq<int>) returns (r: Result<Built>)
    requires Initial(ms) && forall d :: d in draws ==> 0 <= d < |ms|
    ensures r.Ok? ==> Grown(ms, r.value.mixes) && RandomEdges(k, r.value)
    ensures r.Err? ==>
      || r.error == DrawsExhausted
      || (LinkError(r.error) && SomePairUnlinkable(ms))
    ensures k <= 0 ==> r.Ok?
  {
    InitialIsOverlay(ms);
    var cur, chosen, pos: nat := ms, [], 0;
    for a := 0 to |ms|
      invariant Overlay(cur) && Grown(ms, cur) && pos <= |draws|
      invariant |chosen| == a && EdgesFrom(cur, chosen)
      invariant RandomSizes(chosen, k)
    {
      var turn := RandomTurn(ms, cur, chosen, k, draws, pos);
      if turn.Err? {
        return Err(turn.error);
      }
      cur, chosen, pos := turn.value.0.mixes, turn.value.0.chosen, turn.value.1;
    }
    r := Ok(Built(cur, chosen));
  }

  /**
   * The turn of mix `|chosen|` in the random builder: its `RandomFill`, recorded as the next
   * chosen set. Fails only when `k` is positive.
   */
  method RandomTurn(ms: seq<Mix>, cur: seq<Mix>, chosen: seq<set<int>>, k: int, draws: seq<int>, pos: nat)
    returns (r: Result<(Built, nat)>)
    requires Overlay(cur) && Grown(ms, cur) && pos <= |draws| && |chosen| < |cur|
    requires EdgesFrom(cur, chosen) && RandomSizes(chosen, k)
    requires forall d :: d in draws ==> 0 <= d < |ms|
    ensures r.Ok? ==>
      && Overlay(r.value.0.mixes) && Grown(ms, r.value.0.mixes) && r.value.1 <= |draws|
      && |r.value.0.chosen| == |chosen| + 1 && EdgesFrom(r.value.0.mixes, r.value.0.chosen)
      && RandomSizes(r.value.0.chosen, k)
    ensures r.Err? ==> 0 < k && (r.error == DrawsExhausted || (LinkError(r.error) && SomePairUnlinkable(ms)))
  {
    var a := |chosen|;
    var turn := RandomFill(cur, a, {}, k, draws, pos);
    if turn.Err? {
      TurnFailure(ms, cur, a, turn.error);
      return Err(turn.error);
    }
    GrownTrans(ms, cur, turn.value.mixes);
    EdgesStep(cur, turn.value.mixes, chosen, turn.value.chosen);
    SizesStep(chosen, turn.value.chosen, k);
    r := Ok((Built(turn.value.mixes, chosen + [turn.value.chosen]), turn.value.cursor));
  }

  /** A turn's link failure on grown mixes is a link failure on the mixes the builder started from. */
  lemma TurnFailure(ms: seq<Mix>, cur: seq<Mix>, a: int, e: Error)
    requires Grown(ms, cur) && 0 <= a < |ms|
    requires e == DrawsExhausted || (LinkError(e) && exists b :: 0 <= b < |cur| && Unlinkable(cur, a, b))
    ensures e == DrawsExhausted || (LinkError(e) && SomePairUnlinkable(ms))
  {
    if e != DrawsExhausted {
      var b :| 0 <= b < |cur| && Unlinkable(cur, a, b);
      UnlinkableGrown(ms, cur, a, b);
    }
  }

  /** The same for a latency-aware turn, whose failing link may be to any underlay node. */
  lemma NearTurnFailure(ms: seq<Mix>, cur: seq<Mix>, a: int, e: Error)
    requires Grown(ms, cur) && 0 <= a < |ms|
    requires e == DrawsExhausted || (LinkError(e) && exists b :: Unlinkable(cur, a, b))
    ensures e == DrawsExhausted || (LinkError(e) && SomeUnlinkable(ms))
  {
    if e != DrawsExhausted {
      var b :| Unlinkable(cur, a, b);
      UnlinkableGrown(ms, cur, a, b);
    }
  }

  /** Each mix with a chosen set chose `Max0(k)` others, never itself. */
  ghost predicate RandomSizes(chosen: seq<set<int>>, k: int) {
    forall x :: 0 <= x < |chosen| ==> x !in chosen[x] && |chosen[x]| == Max0(k)
  }

  lemma SizesStep(chosen: seq<set<int>>, c: set<int>, k: int)
    requires RandomSizes(chosen, k) && |chosen| !in c && |c| == Max0(k)
    ensures RandomSizes(chosen + [c], k)
  {
    forall x | 0 <= x < |chosen| + 1 ensures x !in (chosen + [c])[x] && |(chosen + [c])[x]| == Max0(k) {
      if x < |chosen| {
        assert (chosen + [c])[x] == chosen[x];
      }
    }
  }

  /**
   * CreateLatencyAwareTopology after initialization: each mix in id order takes a latency-aware
   * turn on the one shared stream of draws.
   */
  method BuildLatencyAware(ms: seq<Mix>, k: int, l: int, draws: seq<int>) returns (r: Result<Built>)
    requires Initial(ms) && InInt32(k) && InInt32(l) && forall d :: d in draws ==> 0 <= d < |ms|
    ensures r.Ok? ==> Grown(ms, r.value.mixes) && LatencyAwareEdges(k, l, r.value)
    ensures r.Err? ==>
      || r.error == DrawsExhausted
      || (LinkError(r.error) && SomeUnlinkable(ms))
    ensures r == Err(DrawsExhausted) ==> 0 < Int32(k - l)
  {
    InitialIsOverlay(ms);
    var cur, chosen, pos: nat := ms, [], 0;
    for a := 0 to |ms|
      invariant Overlay(cur) && Grown(ms, cur) && pos <= |draws|
      invariant |chosen| == a && EdgesFrom(cur, chosen)
      invariant forall x :: 0 <= x < a ==> NearChosen(ms, x, chosen[x], k, l)
    {
      var turn := NearTurn(ms, cur, chosen, k, l, draws, pos);
      if turn.Err? {
        return Err(turn.error);
      }
      cur, chosen, pos := turn.value.0.mixes, turn.value.0.chosen, turn.value.1;
    }
    NearFinal(ms, cur, chosen, k, l);
    r := Ok(Built(cur, chosen));
  }

  /**
   * The turn of mix `|chosen|` in the latency-aware builder: its `LatencyAwareTurn`, recorded as
   * the next chosen set.
   */
  method NearTurn(ms: seq<Mix>, cur: seq<Mix>, chosen: seq<set<int>>, k: int, l: int, draws: seq<int>, pos: nat)
    returns (r: Result<(Built, nat)>)
    requires Overlay(cur) && Grown(ms, cur) && pos <= |draws| && |chosen| < |cur|
    requires EdgesFrom(cur, chosen) && InInt32(k) && InInt32(l)
    requires forall x :: 0 <= x < |chosen| ==> NearChosen(ms, x, chosen[x], k, l)
    requires forall d :: d in draws ==> 0 <= d < |ms|
    ensures r.Ok? ==>
      && Overlay(r.value.0.mixes) && Grown(ms, r.value.0.mixes) && r.value.1 <= |draws|
      && |r.value.0.chosen| == |chosen| + 1 && EdgesFrom(r.value.0.mixes, r.value.0.chosen)
      && forall x :: 0 <= x < |chosen| + 1 ==> NearChosen(ms, x, r.value.0.chosen[x], k, l)
    ensures r.Err? ==>
      || (r.error == DrawsExhausted && 0 < Int32(k - l))
      || (LinkError(r.error) && SomeUnlinkable(ms))
  {
    var a := |chosen|;
    var turn := LatencyAwareTurn(cur, a, k, l, draws, pos);
    if turn.Err? {
      NearTurnFailure(ms, cur, a, turn.error);
      return Err(turn.error);
    }
    assert NearChosen(ms, a, turn.value.chosen, k, l) by {
      assert cur[a].underlay == ms[a].underlay;
    }
    GrownTrans(ms, cur, turn.value.mixes);
    EdgesStep(cur, turn.value.mixes, chosen, turn.value.chosen);
    NearStep(ms, chosen, turn.value.chosen, k, l);
    r := Ok((Built(turn.value.mixes, chosen + [turn.value.chosen]), turn.value.cursor));
  }

  /** Mix `x` of `ms` chose `c`: its nearest underlay ids and `k - l` (a C# `int`) more, never itself. */
  ghost predicate NearChosen(ms: seq<Mix>, x: int, c: set<int>, k: int, l: int) {
    && 0 <= x < |ms| && ms[x].underlay.Valid()
    && (var near := Nearest(ms[x].underlay, x, l);
        x !in c && Ids(near) <= c && |c| == |near| + Max0(Int32(k - l)))
  }

  lemma NearStep(ms: seq<Mix>, chosen: seq<set<int>>, c: set<int>, k: int, l: int)
    requires forall x :: 0 <= x < |chosen| ==> NearChosen(ms, x, chosen[x], k, l)
    requires NearChosen(ms, |chosen|, c, k, l)
    ensures forall x :: 0 <= x < |chosen| + 1 ==> NearChosen(ms, x, (chosen + [c])[x], k, l)
  {
    forall x | 0 <= x < |chosen| + 1 ensures NearChosen(ms, x, (chosen + [c])[x], k, l) {
      if x < |chosen| {
        assert (chosen + [c])[x] == chosen[x];
      } else {
        assert (chosen + [c])[x] == c;
      }
    }
  }

  lemma NearFinal(ms: seq<Mix>, cur: seq<Mix>, chosen: seq<set<int>>, k: int, l: int)
    requires Grown(ms, cur) && |chosen| == |ms|
    requires forall x :: 0 <= x < |ms| ==> NearChosen(ms, x, chosen[x], k, l)
    ensures forall x :: 0 <= x < |cur| ==> NearChosen(cur, x, chosen[x], k, l)
  {
    forall x | 0 <= x < |cur| ensures NearChosen(cur, x, chosen[x], k, l) {
      assert NearChosen(ms, x, chosen[x], k, l);
      assert cur[x].underlay == ms[x].underlay;
    }
  }

  lemma SubsetCard(a: set<int>, b: set<int>)
    requires a <= b
    ensures |a| <= |b|
  {
    forall x ensures x in b <==> x in a + (b - a) {}
    assert b == a + (b - a);
    forall x ensures x !in a * (b - a) {}
    assert a * (b - a) == {};
  }

  /**
   * After construction every mix neighbors all it chose, its chosen ids name mixes, and it has
   * at least as many neighbors (the dictionary's Count) as it chose.
   */
  lemma ChosenAreNeighbors(b: Built, x: int)
    requires ChosenEdges(b) && 0 <= x < |b.mixes|
    ensures b.chosen[x] <= b.mixes[x].neighbors.values.Keys
    ensures forall y :: y in b.chosen[x] ==> 0 <= y < |b.mixes|
    ensures |b.mixes[x].neighbors.keys| >= |b.chosen[x]|
  {
    var n := b.mixes[x].neighbors;
    SubsetCard(b.chosen[x], n.values.Keys);
    n.CountIsKeys();
  }

  /** Random strategy: every mix ends with at least `k` distinct neighbors. */
  lemma RandomDegree(k: int, b: Built, x: int)
    requires RandomEdges(k, b) && 0 <= x < |b.mixes|
    ensures |b.mixes[x].neighbors.keys| >= Max0(k)
  {
    ChosenAreNeighbors(b, x);
  }

  /**
   * Latency-aware strategy: every mix neighbors its `l` nearest non-self underlay nodes (fewer
   * when it has fewer), at their underlay latency, and ends with at least that many plus `k - l`
   * neighbors.
   */
  lemma LatencyAwareDegree(k: int, l: int, b: Built, x: int)
    requires LatencyAwareEdges(k, l, b) && 0 <= x < |b.mixes|
    ensures var u, n := b.mixes[x].underlay, b.mixes[x].neighbors;
      var others := OtherEntries(Entries(u), x);
      && |Nearest(u, x, l)| == (if l < 0 then 0 else if l > |others| then |others| else l)
      && (forall e :: e in Nearest(u, x, l) ==> e.0 in n.values && n.values[e.0] == e.1)
      && |n.keys| >= |Nearest(u, x, l)| + Max0(Int32(k - l))
  {
    var u, n := b.mixes[x].underlay, b.mixes[x].neighbors;
    NearestSpec(u, x, l);
    ChosenAreNeighbors(b, x);
    forall e | e in Nearest(u, x, l) ensures e.0 in n.values && n.values[e.0] == e.1 {
      assert e.0 in Ids(Nearest(u, x, l));
    }
  }

  /** Both directions of every edge carry the same latency when the underlay latencies are symmetric. */
  lemma EqualLatencies(ms: seq<Mix>, a: int, b: int)
    requires Overlay(ms) && 0 <= a < |ms| && b in ms[a].neighbors.values
    requires a in ms[b].underlay.values ==> ms[b].underlay.values[a] == ms[a].underlay.values[b]
    ensures a in ms[b].neighbors.values && ms[b].neighbors.values[a] == ms[a].neighbors.values[b]
  {
  }

  /** The mixes InitializeMixes builds from the dataset, whatever neighbors they gained since. */
  ghost predicate FromDataset(ds: seq<Item>, ms: seq<Mix>) {
    && |ms| == MixCount(ds)
    && forall i :: 0 <= i < |ms| ==>
      && FromEntries(UnderlayEntries(ds, i)).Ok?
      && ms[i].id == i && ms[i].underlay == FromEntries(UnderlayEntries(ds, i)).value && ms[i].paths == []
  }

  /** Whether InitializeMixes fills every mix's underlay dictionary without a repeated key. */
  ghost predicate UnderlayAdds(ds: seq<Item>) {
    forall i :: 0 <= i < MixCount(ds) ==> DistinctKeys(UnderlayEntries(ds, i))
  }

  lemma InitialFromInit(ds: seq<Item>, ms: seq<Mix>)
    requires |ms| == MixCount(ds) && forall i :: 0 <= i < |ms| ==> IsInitialMix(ds, i, ms[i])
    ensures Initial(ms) && FromDataset(ds, ms)
  {
    forall i | 0 <= i < |ms|
      ensures ms[i].id == i && ms[i].underlay.Valid() && ms[i].neighbors == Empty && ms[i].paths == []
      ensures ms[i].underlay == FromEntries(UnderlayEntries(ds, i)).value
    {
      assert IsInitialMix(ds, i, ms[i]);
      FromEntriesSpec(UnderlayEntries(ds, i));
    }
    assert Wellformed(ms);
  }

  lemma GrownFromDataset(ds: seq<Item>, ms: seq<Mix>, ms2: seq<Mix>)
    requires FromDataset(ds, ms) && Grown(ms, ms2)
    ensures FromDataset(ds, ms2)
  {
  }

  /** In a constructed overlay both directions of an edge carry the same latency. */
  lemma DatasetEqualLatencies(ds: seq<Item>, ms: seq<Mix>, a: int, b: int)
    requires FromDataset(ds, ms) && Overlay(ms) && 0 <= a < |ms| && b in ms[a].neighbors.values
    ensures a in ms[b].neighbors.values && ms[b].neighbors.values[a] == ms[a].neighbors.values[b]
  {
    UnderlaySymmetric(ds, a, b);
    EqualLatencies(ms, a, b);
  }

  /** Some triple of the dataset joins `a` and `b`. */
  ghost predicate Joined(ds: seq<Item>, a: int, b: int) {
    exists t :: 0 <= t < |ds| && Joins(ds[t], a, b)
  }

  /** Every node a triple names is the id of a mix. */
  ghost predicate NamesMixes(ds: seq<Item>) {
    forall t :: 0 <= t < |ds| ==> 0 <= ds[t].first < MixCount(ds) && 0 <= ds[t].second < MixCount(ds)
  }

  /** Every two distinct mixes are joined by a triple. */
  ghost predicate AllJoined(ds: seq<Item>) {
    forall a, b :: 0 <= a < MixCount(ds) && 0 <= b < MixCount(ds) && a != b ==> Joined(ds, a, b)
  }

  /**
   * Mix `a` may try to link node `b` (another mix, or a node a triple joins to `a`), but no
   * triple joins them or `b` names no mix.
   */
  ghost predicate Unjoinable(ds: seq<Item>, a: int, b: int) {
    && 0 <= a < MixCount(ds) && b != a
    && (0 <= b < MixCount(ds) || Joined(ds, a, b))
    && !(0 <= b < MixCount(ds) && Joined(ds, a, b))
  }

  /** On the mixes built from a dataset, a link is impossible exactly when the dataset does not join the two. */
  lemma UnlinkableFromDataset(ds: seq<Item>, ms: seq<Mix>, a: int, b: int)
    requires FromDataset(ds, ms) && 0 <= a < |ms|
    ensures Unlinkable(ms, a, b) <==> Unjoinable(ds, a, b)
  {
    UnderlayContents(ds, a);
    var ua := ms[a].underlay;
    if b != a {
      assert b in ua.values <==> Joined(ds, a, b) by {
        if Joined(ds, a, b) {
          var t :| 0 <= t < |ds| && Joins(ds[t], a, b);
        }
      }
      if 0 <= b < |ms| {
        UnderlayContents(ds, b);
        assert a in ms[b].underlay.values <==> Joined(ds, a, b) by {
          if Joined(ds, a, b) {
            var t :| 0 <= t < |ds| && Joins(ds[t], a, b);
          }
          if a in ms[b].underlay.values {
            var t :| 0 <= t < |ds| && Joins(ds[t], b, a);
            assert Joins(ds[t], a, b);
          }
        }
      }
    }
  }

  /** When every two mixes are joined and triples name only mixes, every link a builder tries succeeds. */
  lemma CompleteJoinable(ds: seq<Item>, a: int, b: int)
    requires NamesMixes(ds) && AllJoined(ds)
    ensures !Unjoinable(ds, a, b)
  {
    if Joined(ds, a, b) {
      var t :| 0 <= t < |ds| && Joins(ds[t], a, b);
    }
  }

  /** CreateRandomTopology: initialize the mixes, then let each take its random turn. */
  method CreateRandomTopology(ds: seq<Item>, k: int, draws: seq<int>) returns (r: Result<Built>)
    requires forall d :: d in draws ==> 0 <= d < MixCount(ds)
    ensures !UnderlayAdds(ds) ==> r == Err(DuplicateKey)
    ensures r.Ok? ==> FromDataset(ds, r.value.mixes) && RandomEdges(k, r.value)
    ensures r.Err? ==>
      || r.error == DuplicateKey
      || r.error == DrawsExhausted
      || (LinkError(r.error) && exists a, b :: 0 <= b < MixCount(ds) && Unjoinable(ds, a, b))
    ensures UnderlayAdds(ds) && AllJoined(ds) && r.Err? ==> r.error == DrawsExhausted
    ensures UnderlayAdds(ds) && k <= 0 ==> r.Ok?
    ensures r == Err(DrawsExhausted) ==> 0 < k
  {
    var init := InitializeMixes(ds);
    if init.Err? {
      return Err(init.error);
    }
    InitialFromInit(ds, init.value);
    r := BuildRandom(init.value, k, draws);
    if r.Ok? {
      GrownFromDataset(ds, init.value, r.value.mixes);
    } else if r.error != DrawsExhausted {
      ghost var a, b :| 0 <= a < |init.value| && 0 <= b < |init.value| && Unlinkable(init.value, a, b);
      UnlinkableFromDataset(ds, init.value, a, b);
      assert !Joined(ds, a, b);
    }
  }

  /** CreateLatencyAwareTopology: initialize the mixes, then let each take its latency-aware turn. */
  method CreateLatencyAwareTopology(ds: seq<Item>, k: int, l: int, draws: seq<int>) returns (r: Result<Built>)
    requires InInt32(k) && InInt32(l) && forall d :: d in draws ==> 0 <= d < MixCount(ds)
    ensures !UnderlayAdds(ds) ==> r == Err(DuplicateKey)
    ensures r.Ok? ==> FromDataset(ds, r.value.mixes) && LatencyAwareEdges(k, l, r.value)
    ensures r.Err? ==>
      || r.error == DuplicateKey
      || r.error == DrawsExhausted
      || (LinkError(r.error) && exists a, b :: Unjoinable(ds, a, b))
    ensures UnderlayAdds(ds) && NamesMixes(ds) && AllJoined(ds) && r.Err? ==> r.error == DrawsExhausted
    ensures r == Err(DrawsExhausted) ==> 0 < Int32(k - l)
  {
    var init := InitializeMixes(ds);
    if init.Err? {
      return Err(init.error);
    }
    InitialFromInit(ds, init.value);
    r := BuildLatencyAware(init.value, k, l, draws);
    if r.Ok? {
      GrownFromDataset(ds, init.value, r.value.mixes);
    } else if r.error != DrawsExhausted {
      ghost var a, b :| 0 <= a < |init.value| && Unlinkable(init.value, a, b);
      UnlinkableFromDataset(ds, init.value, a, b);
      if NamesMixes(ds) && AllJoined(ds) {
        CompleteJoinable(ds, a, b);
      }
    }
  }

  /**
   * CreateTopology: dispatch on the overlay strategy setting; any other value than "Random"
   * or "Latency-aware" is an error. `k` and `l` are the InitiallyChosenNeighborsCount and
   * LatencyAwareChosenNeighborsCount settings.
   */
  method CreateTopology(strategy: string, ds: seq<Item>, k: int, l: int, draws: seq<int>) returns (r: Result<Built>)
    requires InInt32(k) && InInt32(l) && forall d :: d in draws ==> 0 <= d < MixCount(ds)
    ensures strategy != "Random" && strategy != "Latency-aware" ==> r == Err(UnknownStrategy)
    ensures strategy == "Random" && r.Ok? ==> FromDataset(ds, r.value.mixes) && RandomEdges(k, r.value)
    ensures strategy == "Latency-aware" && r.Ok? ==> FromDataset(ds, r.value.mixes) && LatencyAwareEdges(k, l, r.value)
    ensures (strategy == "Random" || strategy == "Latency-aware") && !UnderlayAdds(ds) ==> r == Err(DuplicateKey)
    ensures r.Err? ==>
      || r.error == UnknownStrategy
      || r.error == DuplicateKey
      || r.error == DrawsExhausted
      || (LinkError(r.error) && exists a, b :: Unjoinable(ds, a, b))
    ensures (strategy == "Random" || strategy == "Latency-aware") && UnderlayAdds(ds) && NamesMixes(ds) && AllJoined(ds) ==>
      r.Ok? || r.error == DrawsExhausted
    ensures strategy == "Random" && r.Err? ==>
      || r.error == DuplicateKey
      || r.error == DrawsExhausted
      || (LinkError(r.error) && exists a, b :: 0 <= b < MixCount(ds) && Unjoinable(ds, a, b))
    ensures strategy == "Random" && UnderlayAdds(ds) && AllJoined(ds) && r.Err? ==> r.error == DrawsExhausted
    ensures strategy == "Random" && UnderlayAdds(ds) && k <= 0 ==> r.Ok?
    ensures strategy == "Random" && r == Err(DrawsExhausted) ==> 0 < k
    ensures strategy == "Latency-aware" && r == Err(DrawsExhausted) ==> 0 < Int32(k - l)
  {
    if strategy == "Random" {
      r := CreateRandomTopology(ds, k, draws);
    } else if strategy == "Latency-aware" {
      r := CreateLatencyAwareTopology(ds, k, l, draws);
    } else {
      r := Err(UnknownStrategy);
    }
  }
}
