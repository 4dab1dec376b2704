/**
 * The two stages together: a topology built from an underlay dataset is a graph the path
 * calculation accepts, and whether the path calculation succeeds on it depends only on the
 * policy and on the dataset naming mixes only.
 */
module Pipeline {
  import opened Dictionaries
  import opened Mixes
  import opened Underlay
  import opened Topology
  import opened PathCalculator

  /** A built overlay over a dataset's mixes is a graph whose underlay dictionaries are well formed. */
  lemma BuiltIsGraph(ds: seq<Item>, ms: seq<Mix>)
    requires FromDataset(ds, ms) && Overlay(ms)
    ensures Graph(ms)
    ensures forall m :: 0 <= m < |ms| ==> ms[m].underlay.Valid() && m in ms[m].underlay.values
  {
    forall m | 0 <= m < |ms| ensures ms[m].underlay.Valid() && m in ms[m].underlay.values {
      UnderlayContents(ds, m);
    }
  }

  /**
   * With a known policy, every mix of a built overlay gets its paths when every triple names
   * mixes: each rendezvous is then a mix, and so is each overlay neighbor.
   */
  lemma PathsSucceed(ds: seq<Item>, ms: seq<Mix>, policy: string, m: int)
    requires FromDataset(ds, ms) && Overlay(ms) && NamesMixes(ds) && 0 <= m < |ms|
    requires policy == "Random" || policy == "Latency-aware"
    ensures Graph(ms) && MixPaths(ms, m, policy).Ok?
  {
    BuiltIsGraph(ds, ms);
    UnderlayContents(ds, m);
    MixPathsSpec(ms, m, policy);
    forall r | r in ms[m].underlay.values ensures Group(ms, m, r, policy).Ok? {
      assert 0 <= r < |ms| by {
        if r != m {
          var t :| 0 <= t < |ds| && Joins(ds[t], m, r);
        }
      }
      CandidatesSpec(ms, m, r);
      GroupSpec(ms, m, r, policy);
    }
  }

  /** With any other policy, every mix of a built overlay fails, its own id being a rendezvous. */
  lemma PathsFailOnUnknownPolicy(ds: seq<Item>, ms: seq<Mix>, policy: string, m: int)
    requires FromDataset(ds, ms) && Overlay(ms) && 0 <= m < |ms|
    requires policy != "Random" && policy != "Latency-aware"
    ensures Graph(ms) && MixPaths(ms, m, policy).Err?
  {
    BuiltIsGraph(ds, ms);
    assert ms[m].underlay.keys != [] by {
      assert m in ms[m].underlay.values;
    }
    MixPathsUnknownPolicy(ms, m, policy);
  }
}
