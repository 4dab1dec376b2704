/**
 * The latency-aware pick of TopologyConstructor.CreateLatencyAwareTopology:
 * `UnderlayNodesWithLatencies.Where(n => n.Key != mix.Id).OrderBy(pair => pair.Value).Take(L)`
 * over the dictionary's (key, latency) pairs, with OrderBy's stable sort written as an insertion sort.
 */
module NearestNodes {
  import opened Dictionaries

  /** A dictionary's (key, value) pairs in enumeration order. */
  function Entries(u: Dict): (r: seq<(int, int)>)
    requires u.Valid()
    ensures |r| == |u.keys|
    ensures forall i :: 0 <= i < |r| ==> r[i].0 == u.keys[i] && r[i].1 == u.values[u.keys[i]]
  {
    seq(|u.keys|, i requires 0 <= i < |u.keys| => (u.keys[i], u.values[u.keys[i]]))
  }

  /** A dictionary's pairs: one per key, each with that key's value. */
  lemma EntriesSpec(u: Dict)
    requires u.Valid()
    ensures DistinctKeys(Entries(u))
    ensures forall e :: e in Entries(u) <==> e.0 in u.values && e.1 == u.values[e.0]
  {
    var r := Entries(u);
    forall e: (int, int) | e.0 in u.values && e.1 == u.values[e.0] ensures e in r {
      var i :| 0 <= i < |u.keys| && u.keys[i] == e.0;
      assert r[i] == e;
    }
  }

  /** `Where(n => n.Key != self)`: the pairs whose key is not `self`, in order. */
  function OtherEntries(es: seq<(int, int)>, self: int): (r: seq<(int, int)>)
    ensures forall e :: e in r <==> e in es && e.0 != self
  {
    if es == [] then []
    else OtherEntries(es[..|es| - 1], self) + (if es[|es| - 1].0 != self then [es[|es| - 1]] else [])
  }

  /** Insertion of `e` in front of the first pair whose latency is not below `e`'s. */
  function Insert(e: (int, int), s: seq<(int, int)>): seq<(int, int)>
  {
    if s == [] || e.1 <= s[0].1 then [e] + s
    else [s[0]] + Insert(e, s[1..])
  }

  /** `OrderBy(pair => pair.Value)`: a stable sort by ascending latency. */
  function SortByLatency(es: seq<(int, int)>): seq<(int, int)>
  {
    if es == [] then [] else Insert(es[0], SortByLatency(es[1..]))
  }

  /** `Take(n)`: the first `n` pairs, all of them when there are fewer, none when `n` is negative. */
  function Take(s: seq<(int, int)>, n: int): (r: seq<(int, int)>)
    ensures |r| == if n < 0 then 0 else if n > |s| then |s| else n
    ensures r == s[..|r|]
  {
    s[..if n < 0 then 0 else if n > |s| then |s| else n]
  }

  /** The `count` underlay nodes other than `self` of lowest latency, with their latencies. */
  function Nearest(u: Dict, self: int, count: int): seq<(int, int)>
    requires u.Valid()
  {
    Take(SortByLatency(OtherEntries(Entries(u), self)), count)
  }

  ghost predicate Sorted(s: seq<(int, int)>) {
    forall i, j :: 0 <= i < j < |s| ==> s[i].1 <= s[j].1
  }

  /** The pairs of latency `v`, in order. */
  function AtLatency(s: seq<(int, int)>, v: int): seq<(int, int)>
  {
    if s == [] then []
    else (if s[0].1 == v then [s[0]] else []) + AtLatency(s[1..], v)
  }

  /** Insert adds exactly `e`. */
  lemma {:induction false} InsertPerm(e: (int, int), s: seq<(int, int)>)
    ensures multiset(Insert(e, s)) == multiset(s) + multiset{e}
  {
    if s != [] && e.1 > s[0].1 {
      InsertPerm(e, s[1..]);
      assert s == [s[0]] + s[1..];
    }
  }

  /** Insert keeps a sorted sequence sorted. */
  lemma {:induction false} InsertSorted(e: (int, int), s: seq<(int, int)>)
    requires Sorted(s)
    ensures Sorted(Insert(e, s))
  {
    var r := Insert(e, s);
    if s == [] || e.1 <= s[0].1 {
      forall i, j | 0 <= i < j < |r|
        ensures r[i].1 <= r[j].1
      {
        assert r[j] == s[j - 1];
        if i > 0 {
          assert r[i] == s[i - 1];
        } else {
          assert j == 1 || s[0].1 <= s[j - 1].1;
        }
      }
    } else {
      var tail := Insert(e, s[1..]);
      assert Sorted(s[1..]) by {
        forall i, j | 0 <= i < j < |s[1..]| ensures s[1..][i].1 <= s[1..][j].1 {
          assert s[1..][i] == s[i + 1] && s[1..][j] == s[j + 1];
        }
      }
      InsertSorted(e, s[1..]);
      InsertPerm(e, s[1..]);
      forall i, j | 0 <= i < j < |r|
        ensures r[i].1 <= r[j].1
      {
        assert r[j] == tail[j - 1];
        if i > 0 {
          assert r[i] == tail[i - 1];
        } else {
          assert r[j] in multiset(tail);
          if r[j] != e {
            assert r[j] in multiset(s[1..]);
            var m :| 0 <= m < |s[1..]| && s[1..][m] == r[j];
            assert s[m + 1] == r[j];
          }
        }
      }
    }
  }

  /** Insert puts `e` before every pair of equal latency: pairs of one latency keep their order. */
  lemma {:induction false} InsertStable(e: (int, int), s: seq<(int, int)>, v: int)
    ensures AtLatency(Insert(e, s), v) == (if e.1 == v then [e] else []) + AtLatency(s, v)
  {
    if s == [] || e.1 <= s[0].1 {
      assert Insert(e, s) == [e] + s;
      assert ([e] + s)[1..] == s;
    } else {
      var x, tail := s[0], Insert(e, s[1..]);
      assert Insert(e, s) == [x] + tail;
      InsertStable(e, s[1..], v);
      assert ([x] + tail)[1..] == tail;
      assert AtLatency([x] + tail, v) == (if x.1 == v then [x] else []) + AtLatency(tail, v);
      assert AtLatency(s, v) == (if x.1 == v then [x] else []) + AtLatency(s[1..], v);
      if e.1 == v {
        assert x.1 != v;
      }
    }
  }

  /** Insert of a pair with a new key keeps keys distinct. */
  lemma {:induction false} InsertDistinct(e: (int, int), s: seq<(int, int)>)
    requires DistinctKeys(s) && forall x :: x in s ==> x.0 != e.0
    ensures DistinctKeys(Insert(e, s))
  {
    var r := Insert(e, s);
    if s == [] || e.1 <= s[0].1 {
      forall i, j | 0 <= i < j < |r| ensures r[i].0 != r[j].0 {
        assert r[j] == s[j - 1];
        if i > 0 {
          assert r[i] == s[i - 1];
        }
      }
    } else {
      var tail := Insert(e, s[1..]);
      assert DistinctKeys(s[1..]) by {
        forall i, j | 0 <= i < j < |s[1..]| ensures s[1..][i].0 != s[1..][j].0 {
          assert s[1..][i] == s[i + 1] && s[1..][j] == s[j + 1];
        }
      }
      InsertDistinct(e, s[1..]);
      InsertPerm(e, s[1..]);
      forall i, j | 0 <= i < j < |r| ensures r[i].0 != r[j].0 {
        assert r[j] == tail[j - 1];
        if i > 0 {
          assert r[i] == tail[i - 1];
        } else {
          assert r[j] in multiset(tail);
          if r[j] != e {
            assert r[j] in multiset(s[1..]);
            var m :| 0 <= m < |s[1..]| && s[1..][m] == r[j];
            assert s[m + 1] == r[j];
          }
        }
      }
    }
  }

  /**
   * OrderBy(pair => pair.Value) as modelled: a permutation of its input, sorted by latency,
   * and stable, that is, the pairs of each latency stay in their dictionary order.
   */
  lemma SortSpec(es: seq<(int, int)>)
    ensures multiset(SortByLatency(es)) == multiset(es)
    ensures Sorted(SortByLatency(es))
    ensures forall v :: AtLatency(SortByLatency(es), v) == AtLatency(es, v)
  {
    SortPerm(es);
    SortSorted(es);
    forall v ensures AtLatency(SortByLatency(es), v) == AtLatency(es, v) {
      SortStable(es, v);
    }
  }

  /** Sorting is a permutation. */
  lemma {:induction false} SortPerm(es: seq<(int, int)>)
    ensures multiset(SortByLatency(es)) == multiset(es)
  {
    if es != [] {
      SortPerm(es[1..]);
      InsertPerm(es[0], SortByLatency(es[1..]));
      assert es == [es[0]] + es[1..];
      assert multiset(es) == multiset{es[0]} + multiset(es[1..]);
    }
  }

  /** Sorting sorts. */
  lemma {:induction false} SortSorted(es: seq<(int, int)>)
    ensures Sorted(SortByLatency(es))
  {
    if es != [] {
      SortSorted(es[1..]);
      InsertSorted(es[0], SortByLatency(es[1..]));
    }
  }

  /** Sorting is stable: the pairs of each latency keep their order. */
  lemma {:induction false} SortStable(es: seq<(int, int)>, v: int)
    ensures AtLatency(SortByLatency(es), v) == AtLatency(es, v)
  {
    if es != [] {
      SortStable(es[1..], v);
      InsertStable(es[0], SortByLatency(es[1..]), v);
      assert AtLatency(es, v) == (if es[0].1 == v then [es[0]] else []) + AtLatency(es[1..], v);
    }
  }

  /** Sorting keeps keys distinct. */
  lemma {:induction false} SortDistinct(es: seq<(int, int)>)
    requires DistinctKeys(es)
    ensures DistinctKeys(SortByLatency(es))
  {
    if es != [] {
      var rest := SortByLatency(es[1..]);
      assert DistinctKeys(es[1..]) by {
        forall i, j | 0 <= i < j < |es[1..]| ensures es[1..][i].0 != es[1..][j].0 {
          assert es[1..][i] == es[i + 1] && es[1..][j] == es[j + 1];
        }
      }
      SortDistinct(es[1..]);
      SortSpec(es[1..]);
      forall x | x in rest ensures x.0 != es[0].0 {
        assert x in multiset(es[1..]);
        var m :| 0 <= m < |es[1..]| && es[1..][m] == x;
        assert es[m + 1] == x;
      }
      InsertDistinct(es[0], rest);
    }
  }

  /** Filtering keeps distinct keys distinct. */
  lemma {:induction false} OtherEntriesDistinct(es: seq<(int, int)>, self: int)
    requires DistinctKeys(es)
    ensures DistinctKeys(OtherEntries(es, self))
  {
    if es != [] {
      var init := es[..|es| - 1];
      assert DistinctKeys(init) by {
        forall i, j | 0 <= i < j < |init| ensures init[i].0 != init[j].0 {
          assert init[i] == es[i] && init[j] == es[j];
        }
      }
      OtherEntriesDistinct(init, self);
      var last := es[|es| - 1];
      forall e | e in OtherEntries(init, self) ensures e.0 != last.0 {
        var m :| 0 <= m < |init| && init[m] == e;
        assert es[m] == e;
      }
    }
  }

  /**
   * The latency-aware picks: pairs of the mix's own underlay dictionary, none for the mix itself,
   * with distinct keys, as many as asked for (or all there are), in ascending latency, and no
   * non-self node of lower latency left out.
   */
  lemma NearestSpec(u: Dict, self: int, count: int)
    requires u.Valid()
    ensures var r, others := Nearest(u, self, count), OtherEntries(Entries(u), self);
      && DistinctKeys(r)
      && (forall e :: e in r ==> e.0 in u.values && e.1 == u.values[e.0] && e.0 != self)
      && |r| == (if count < 0 then 0 else if count > |others| then |others| else count)
      && Sorted(r)
      && (forall x, y :: x in r && y in others && y !in r ==> x.1 <= y.1)
  {
    var es := Entries(u);
    var others := OtherEntries(es, self);
    OtherEntriesDistinct(es, self);
    var sorted := SortByLatency(others);
    SortSpec(others);
    SortDistinct(others);
    var r := Nearest(u, self, count);
    assert |sorted| == |others| by {
      assert |multiset(sorted)| == |multiset(others)|;
    }
    NearestFromSorted(sorted, others, r);
    forall e | e in r ensures e.0 in u.values && e.1 == u.values[e.0] && e.0 != self {
      assert e in others;
      var m :| 0 <= m < |es| && es[m] == e;
    }
  }

  /** A prefix of a sorted permutation holds the lowest latencies. */
  lemma NearestFromSorted(sorted: seq<(int, int)>, others: seq<(int, int)>, r: seq<(int, int)>)
    requires multiset(sorted) == multiset(others) && Sorted(sorted)
    requires |r| <= |sorted| && r == sorted[..|r|]
    ensures forall e :: e in r ==> e in others
    ensures Sorted(r) && (DistinctKeys(sorted) ==> DistinctKeys(r))
    ensures forall x, y :: x in r && y in others && y !in r ==> x.1 <= y.1
  {
    assert forall i :: 0 <= i < |r| ==> r[i] == sorted[i];
    forall e | e in r ensures e in others {
      assert e in multiset(sorted);
    }
    forall x, y | x in r && y in others && y !in r
      ensures x.1 <= y.1
    {
      assert y in multiset(sorted);
      var j :| 0 <= j < |sorted| && sorted[j] == y;
      var i :| 0 <= i < |r| && r[i] == x;
      assert j >= |r|;
      assert sorted[i] == x;
    }
  }
}
