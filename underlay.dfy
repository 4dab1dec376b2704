/**
 * InitializeMixes: turning the underlay triples into mixes, each with its
 * underlay latency dictionary (self included at latency 0) and no neighbors.
 */
module Underlay {
  import opened Outcomes
  import opened Dictionaries
  import opened Mixes

  /** Number of triples whose first node is 0. */
  function CountFirstZero(ds: seq<Item>): nat
  {
    if ds == [] then 0
    else CountFirstZero(ds[..|ds| - 1]) + (if ds[|ds| - 1].first == 0 then 1 else 0)
  }

  /** The number of mixes the source creates: the triples with first node 0, plus one. */
  function MixCount(ds: seq<Item>): (n: nat)
    ensures n >= 1
  {
    CountFirstZero(ds) + 1
  }

  /** What one triple adds to the underlay dictionary of mix `id`, in the order of the two `if`s. */
  function ItemEntries(it: Item, id: int): seq<(int, int)>
  {
    (if it.first == id then [(it.second, it.latency)] else [])
    + (if it.second == id then [(it.first, it.latency)] else [])
  }

  /** What the whole dataset adds to mix `id`, in dataset order. */
  function DatasetEntries(ds: seq<Item>, id: int): seq<(int, int)>
  {
    if ds == [] then []
    else DatasetEntries(ds[..|ds| - 1], id) + ItemEntries(ds[|ds| - 1], id)
  }

  /** Every entry added to mix `id`: the dataset's, then its own id at latency 0. */
  function UnderlayEntries(ds: seq<Item>, id: int): seq<(int, int)>
  {
    DatasetEntries(ds, id) + [(id, 0)]
  }

  /** Adding the entries one by one to an empty dictionary; the first repeated key fails. */
  function FromEntries(es: seq<(int, int)>): Result<Dict>
  {
    Extend(Ok(Empty), es)
  }

  /** Adding the entries one by one to the dictionary `start` holds, unless it already failed. */
  function Extend(start: Result<Dict>, es: seq<(int, int)>): Result<Dict>
  {
    if es == [] then start
    else
      var d :- Extend(start, es[..|es| - 1]);
      d.Add(es[|es| - 1].0, es[|es| - 1].1)
  }

  lemma {:induction false} ExtendAppend(start: Result<Dict>, xs: seq<(int, int)>, ys: seq<(int, int)>)
    ensures Extend(start, xs + ys) == Extend(Extend(start, xs), ys)
  {
    if ys == [] {
      assert xs + ys == xs;
    } else {
      assert (xs + ys)[..|xs + ys| - 1] == xs + ys[..|ys| - 1];
      ExtendAppend(start, xs, ys[..|ys| - 1]);
    }
  }

  /** The only way filling a dictionary fails is a repeated key. */
  lemma {:induction false} FromEntriesOnlyDuplicate(es: seq<(int, int)>)
    ensures FromEntries(es).Err? ==> FromEntries(es).error == DuplicateKey
  {
    if es != [] {
      FromEntriesOnlyDuplicate(es[..|es| - 1]);
    }
  }

  lemma {:induction false} ExtendErrStays(start: Result<Dict>, es: seq<(int, int)>)
    requires start.Err?
    ensures Extend(start, es) == start
  {
    if es != [] {
      ExtendErrStays(start, es[..|es| - 1]);
    }
  }

  /** When every key is new, the dictionary holds exactly the entries, in order; otherwise Add fails. */
  lemma {:induction false} FromEntriesSpec(es: seq<(int, int)>)
    ensures FromEntries(es).Ok? <==> DistinctKeys(es)
    ensures FromEntries(es).Ok? ==>
      && FromEntries(es).value.Valid()
      && |FromEntries(es).value.keys| == |es|
      && (forall i :: 0 <= i < |es| ==> FromEntries(es).value.keys[i] == es[i].0)
      && (forall i :: 0 <= i < |es| ==> FromEntries(es).value.values[es[i].0] == es[i].1)
  {
    if es != [] {
      var init := es[..|es| - 1];
      FromEntriesSpec(init);
      if FromEntries(init).Ok? {
        var d := FromEntries(init).value;
        var last := es[|es| - 1];
        if last.0 in d.values {
          var i :| 0 <= i < |d.keys| && d.keys[i] == last.0;
          assert es[i].0 == es[|es| - 1].0;
        } else {
          forall i | 0 <= i < |init|
            ensures es[i].0 != last.0
          {
            assert d.keys[i] == init[i].0;
          }
          assert FromEntries(es) == d.Add(last.0, last.1);
          var d2 := FromEntries(es).value;
          assert d2.keys == d.keys + [last.0] && d2.values == d.values[last.0 := last.1];
          forall i | 0 <= i < |es| ensures d2.keys[i] == es[i].0 && d2.values[es[i].0] == es[i].1 {
            if i < |init| {
              assert init[i] == es[i];
            }
          }
        }
      } else {
        assert !DistinctKeys(init);
        var i, j :| 0 <= i < j < |init| && init[i].0 == init[j].0;
        assert es[i].0 == es[j].0;
      }
    }
  }

  /** An entry is added to mix `id` exactly when some triple names `id` on one side and the entry's key on the other. */
  lemma {:induction false} DatasetEntriesSpec(ds: seq<Item>, id: int, e: (int, int))
    ensures e in DatasetEntries(ds, id) <==>
      exists t :: 0 <= t < |ds| && Contributes(ds[t], id, e)
  {
    if ds != [] {
      var init := ds[..|ds| - 1];
      DatasetEntriesSpec(init, id, e);
      if e in DatasetEntries(ds, id) {
        if e in DatasetEntries(init, id) {
          var t :| 0 <= t < |init| && Contributes(init[t], id, e);
          assert ds[t] == init[t];
        } else {
          assert Contributes(ds[|ds| - 1], id, e);
        }
      }
      if exists t :: 0 <= t < |ds| && Contributes(ds[t], id, e) {
        var t :| 0 <= t < |ds| && Contributes(ds[t], id, e);
        if t < |ds| - 1 {
          assert init[t] == ds[t];
        } else {
          assert e in ItemEntries(ds[|ds| - 1], id);
        }
      }
    }
  }

  /** Triple `it` gives mix `id` the entry `e`. */
  predicate Contributes(it: Item, id: int, e: (int, int)) {
    (it.first == id && e == (it.second, it.latency)) || (it.second == id && e == (it.first, it.latency))
  }

  /** The mix InitializeMixes builds for id `i` when its dictionary fills without a duplicate. */
  ghost predicate IsInitialMix(ds: seq<Item>, i: int, m: Mix) {
    && FromEntries(UnderlayEntries(ds, i)).Ok?
    && m == Mix(i, FromEntries(UnderlayEntries(ds, i)).value, Empty, [])
  }

  /**
   * InitializeMixes (TopologyConstructor.cs): MixCount(ds) mixes with ids 0, 1, ... in order,
   * each with the dictionary of its underlay entries; fails exactly when some mix's Add sees a key twice.
   */
  method InitializeMixes(ds: seq<Item>) returns (r: Result<seq<Mix>>)
    ensures r.Ok? <==> forall i :: 0 <= i < MixCount(ds) ==> DistinctKeys(UnderlayEntries(ds, i))
    ensures r.Err? ==> r.error == DuplicateKey
    ensures r.Ok? ==> |r.value| == MixCount(ds)
    ensures r.Ok? ==> forall i :: 0 <= i < |r.value| ==> IsInitialMix(ds, i, r.value[i])
  {
    var count := CountZero(ds);
    var mixes: seq<Mix> := [];
    for i := 0 to count
      invariant |mixes| == i
      invariant forall t :: 0 <= t < i ==> IsInitialMix(ds, t, mixes[t])
      invariant forall t :: 0 <= t < i ==> DistinctKeys(UnderlayEntries(ds, t))
    {
      var u := FillUnderlay(ds, i);
      FromEntriesSpec(UnderlayEntries(ds, i));
      FromEntriesOnlyDuplicate(UnderlayEntries(ds, i));
      if u.Err? {
        return Err(u.error);
      }
      mixes := mixes + [Mix(i, u.value, Empty, [])];
    }
    r := Ok(mixes);
  }

  /** The inner loop of InitializeMixes: the underlay dictionary of mix `i`, or the failing Add. */
  method FillUnderlay(ds: seq<Item>, i: int) returns (r: Result<Dict>)
    ensures r == FromEntries(UnderlayEntries(ds, i))
  {
    var u := Empty;
    for j := 0 to |ds|
      invariant FromEntries(DatasetEntries(ds[..j], i)) == Ok(u)
    {
      var it := ds[j];
      var step := Ok(u);
      if it.first == i {
        step := u.Add(it.second, it.latency);
      }
      ghost var first := step;
      if step.Ok? && it.second == i {
        step := step.value.Add(it.first, it.latency);
      }
      ItemExtend(u, it, i, first, step);
      ItemStep(ds, i, j, u, step);
      if step.Err? {
        return step;
      }
      u := step.value;
    }
    assert ds[..|ds|] == ds;
    ExtendAppend(Ok(Empty), DatasetEntries(ds, i), [(i, 0)]);
    r := u.Add(i, 0);
  }

  /** Extending by a single entry is one Add. */
  lemma ExtendOne(start: Result<Dict>, e: (int, int))
    ensures Extend(start, [e]) == if start.Ok? then start.value.Add(e.0, e.1) else start
  {
    assert [e][..0] == [];
  }

  /** The two guarded Adds of one triple are Extend over that triple's entries. */
  lemma ItemExtend(u: Dict, it: Item, id: int, s1: Result<Dict>, s2: Result<Dict>)
    requires s1 == if it.first == id then u.Add(it.second, it.latency) else Ok(u)
    requires s2 == if s1.Ok? && it.second == id then s1.value.Add(it.first, it.latency) else s1
    ensures Extend(Ok(u), ItemEntries(it, id)) == s2
  {
    var e1, e2 := (it.second, it.latency), (it.first, it.latency);
    var xs := if it.first == id then [e1] else [];
    var ys := if it.second == id then [e2] else [];
    assert ItemEntries(it, id) == xs + ys;
    ExtendAppend(Ok(u), xs, ys);
    if it.first == id {
      ExtendOne(Ok(u), e1);
    }
    assert Extend(Ok(u), xs) == s1;
    if it.second == id {
      ExtendOne(s1, e2);
    }
  }

  /** One pass of FillUnderlay's loop body is Extend over the triple's entries; a failure is final. */
  lemma ItemStep(ds: seq<Item>, i: int, j: int, u: Dict, step: Result<Dict>)
    requires 0 <= j < |ds|
    requires FromEntries(DatasetEntries(ds[..j], i)) == Ok(u)
    requires step == Extend(Ok(u), ItemEntries(ds[j], i))
    ensures step.Ok? ==> FromEntries(DatasetEntries(ds[..j + 1], i)) == step
    ensures step.Err? ==> step == FromEntries(UnderlayEntries(ds, i))
  {
    assert ds[..j + 1][..j] == ds[..j];
    var before := DatasetEntries(ds[..j], i);
    assert DatasetEntries(ds[..j + 1], i) == before + ItemEntries(ds[j], i);
    ExtendAppend(Ok(Empty), before, ItemEntries(ds[j], i));
    if step.Err? {
      var later := DatasetPrefix(ds, j + 1, i);
      ExtendAppend(Ok(Empty), DatasetEntries(ds[..j + 1], i), later + [(i, 0)]);
      assert UnderlayEntries(ds, i) == DatasetEntries(ds[..j + 1], i) + (later + [(i, 0)]);
      ExtendErrStays(step, later + [(i, 0)]);
    }
  }

  /** `dataset.Where(item => item.FirstNode == 0).Count() + 1`. */
  method CountZero(ds: seq<Item>) returns (n: nat)
    ensures n == MixCount(ds)
  {
    n := 1;
    for j := 0 to |ds|
      invariant n == CountFirstZero(ds[..j]) + 1
    {
      assert ds[..j + 1][..j] == ds[..j];
      if ds[j].first == 0 {
        n := n + 1;
      }
    }
    assert ds[..|ds|] == ds;
  }

  /** The entries of a prefix of the dataset are a prefix of the dataset's entries. */
  lemma {:induction false} DatasetPrefix(ds: seq<Item>, j: nat, id: int) returns (rest: seq<(int, int)>)
    requires j <= |ds|
    ensures DatasetEntries(ds, id) == DatasetEntries(ds[..j], id) + rest
  {
    if j == |ds| {
      assert ds[..j] == ds;
      rest := [];
    } else {
      var init := ds[..|ds| - 1];
      var r := DatasetPrefix(init, j, id);
      assert init[..j] == ds[..j];
      rest := r + ItemEntries(ds[|ds| - 1], id);
    }
  }


  /** Triple `it` joins nodes `a` and `b`, in either orientation. */
  predicate Joins(it: Item, a: int, b: int) {
    (it.first == a && it.second == b) || (it.first == b && it.second == a)
  }

  /**
   * What a filled underlay dictionary of mix `a` holds: its own id at latency 0, for every
   * triple naming `a` the other node at the triple's latency, and no other key.
   */
  lemma UnderlayContents(ds: seq<Item>, a: int)
    requires FromEntries(UnderlayEntries(ds, a)).Ok?
    ensures var u := FromEntries(UnderlayEntries(ds, a)).value;
      && u.Valid()
      && a in u.values && u.values[a] == 0
      && (forall t :: 0 <= t < |ds| && ds[t].first == a ==>
            ds[t].second in u.values && u.values[ds[t].second] == ds[t].latency)
      && (forall t :: 0 <= t < |ds| && ds[t].second == a ==>
            ds[t].first in u.values && u.values[ds[t].first] == ds[t].latency)
      && (forall b :: b in u.values && b != a ==> exists t :: 0 <= t < |ds| && Joins(ds[t], a, b))
  {
    var es := UnderlayEntries(ds, a);
    FromEntriesSpec(es);
    var u := FromEntries(es).value;
    assert es[|es| - 1] == (a, 0);
    forall t | 0 <= t < |ds| && (ds[t].first == a || ds[t].second == a)
      ensures ds[t].first == a ==> ds[t].second in u.values && u.values[ds[t].second] == ds[t].latency
      ensures ds[t].second == a ==> ds[t].first in u.values && u.values[ds[t].first] == ds[t].latency
    {
      if ds[t].first == a {
        var e := (ds[t].second, ds[t].latency);
        assert Contributes(ds[t], a, e);
        DatasetEntriesSpec(ds, a, e);
        var k :| 0 <= k < |es| && es[k] == e;
      }
      if ds[t].second == a {
        var e := (ds[t].first, ds[t].latency);
        assert Contributes(ds[t], a, e);
        DatasetEntriesSpec(ds, a, e);
        var k :| 0 <= k < |es| && es[k] == e;
      }
    }
    forall b | b in u.values && b != a
      ensures exists t :: 0 <= t < |ds| && Joins(ds[t], a, b)
    {
      var k :| 0 <= k < |u.keys| && u.keys[k] == b;
      assert es[k].0 == b;
      assert es[k] in DatasetEntries(ds, a);
      DatasetEntriesSpec(ds, a, es[k]);
      var t :| 0 <= t < |ds| && Contributes(ds[t], a, es[k]);
      assert Joins(ds[t], a, b);
    }
  }

  /**
   * The underlay dictionaries are symmetric: `b` is in `a`'s exactly when `a` is in `b`'s,
   * with the same latency.
   */
  lemma UnderlaySymmetric(ds: seq<Item>, a: int, b: int)
    requires FromEntries(UnderlayEntries(ds, a)).Ok? && FromEntries(UnderlayEntries(ds, b)).Ok?
    ensures var ua, ub := FromEntries(UnderlayEntries(ds, a)).value, FromEntries(UnderlayEntries(ds, b)).value;
      && (b in ua.values <==> a in ub.values)
      && (b in ua.values ==> ua.values[b] == ub.values[a])
  {
    UnderlayContents(ds, a);
    UnderlayContents(ds, b);
    var ua, ub := FromEntries(UnderlayEntries(ds, a)).value, FromEntries(UnderlayEntries(ds, b)).value;
    if a != b {
      if b in ua.values {
        var t :| 0 <= t < |ds| && Joins(ds[t], a, b);
      }
      if a in ub.values {
        var t :| 0 <= t < |ds| && Joins(ds[t], b, a);
      }
    }
  }

  /** A triple joining a node to itself makes mix `a`'s Add fail: it adds `a` twice. */
  lemma SelfTripleFails(ds: seq<Item>, t: int)
    requires 0 <= t < |ds| && ds[t].first == ds[t].second
    ensures !DistinctKeys(UnderlayEntries(ds, ds[t].first))
  {
    var a := ds[t].first;
    var rest := DatasetPrefix(ds, t + 1, a);
    assert ds[..t + 1][..t] == ds[..t];
    var p := DatasetEntries(ds[..t], a);
    assert DatasetEntries(ds[..t + 1], a) == p + ItemEntries(ds[t], a);
    var es := UnderlayEntries(ds, a);
    assert es == p + ItemEntries(ds[t], a) + rest + [(a, 0)];
    assert es[|p|].0 == a && es[|p| + 1].0 == a;
  }

  /** Two triples joining the same pair of nodes make the Add of either endpoint's mix fail. */
  lemma DuplicateTripleFails(ds: seq<Item>, t1: int, t2: int, a: int, b: int)
    requires 0 <= t1 < t2 < |ds|
    requires Joins(ds[t1], a, b) && Joins(ds[t2], a, b)
    ensures !DistinctKeys(UnderlayEntries(ds, a))
  {
    var rest := DatasetPrefix(ds, t2 + 1, a);
    assert ds[..t2 + 1][..t2] == ds[..t2];
    var p := DatasetEntries(ds[..t2], a);
    var q := ItemEntries(ds[t2], a);
    assert DatasetEntries(ds[..t2 + 1], a) == p + q;
    var es := UnderlayEntries(ds, a);
    assert es == p + q + rest + [(a, 0)];
    var e1 := if ds[t1].first == a then (ds[t1].second, ds[t1].latency) else (ds[t1].first, ds[t1].latency);
    assert Contributes(ds[..t2][t1], a, e1);
    DatasetEntriesSpec(ds[..t2], a, e1);
    var i :| 0 <= i < |p| && p[i] == e1;
    assert q[0].0 == b;
    assert es[i].0 == b && es[|p|].0 == b;
  }
}
