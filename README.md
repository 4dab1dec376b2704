# Overlay construction for a mix network, in Dafny

This project models the two stages of the overlay construction tool:

- **Topology construction.** Underlay triples `(first node, second node, latency)` become mixes. Each mix gets an underlay latency dictionary, which includes the mix itself at latency 0. Mixes are then linked by symmetric overlay-neighbor edges, chosen by one of two strategies:
  - `"Random"`: `k` distinct random picks per mix.
  - `"Latency-aware"`: the `l` nearest underlay nodes first, then `k - l` further distinct random picks.
- **Path calculation.** For every mix (the entry mix) and every node of its underlay dictionary (the rendezvous), the tool enumerates forwarding paths:
  - One-hop paths through a common neighbor.
  - If there are none, or when the rendezvous is the entry mix itself, two-hop paths `M -> F -> S -> R`.
  - Cyclic paths are dropped, and the rest get selection probabilities under the `"Random"` or `"Latency-aware"` path-selection policy. Under `"Latency-aware"`, only paths faster than 150000 count.
  - Only paths with positive probability are kept.

Modules:

| file | module | what it holds |
|---|---|---|
| `outcomes.dfy` | `Outcomes` | `Option`, `Result` and the error kinds. Each error stands for an exception the source can throw. |
| `dictionaries.dfy` | `Dictionaries` | `Dict`, a `Dictionary<int, int>` that keeps insertion order. `Add` fails on a present key; the indexer fails on an absent one. |
| `mixes.dfy` | `Mixes` | The `Item`, `Mix` and `Path` records. Mixes form an arena (id = position). `Int32` models C# `int` wrap-around. |
| `underlay.dfy` | `Underlay` | `InitializeMixes` and what the underlay dictionaries hold. |
| `nearest.dfy` | `NearestNodes` | The nearest-node query: `Where(key != self).OrderBy(latency).Take(l)`, with a stable insertion sort. |
| `topology.dfy` | `Topology` | The edge step, the per-mix turns, both builders, `CreateTopology`, and the graph invariants. |
| `paths.dfy` | `PathCalculator` | `GetMiddleRelaysForTwoNodes`, the path functions, their lemmas, and the imperative `CalculatePaths` on an array of mixes. |
| `pipeline.dfy` | `Pipeline` | The two stages together: when path calculation succeeds on a built topology. |

How the source's nondeterminism and configuration appear in the model:

- **Random draws.** The random generator is a stream `draws` of candidate ids, each in `[0, number of mixes)`. The whole construction consumes it in order. Each mix's turn uses a contiguous stretch of the stream, so this covers every seed, including mixes that happen to get the same seed.
- **Resampling loop.** A resampling `while` loop that runs out of draws ends in `DrawsExhausted`. This stands for the source spinning forever, for example when `k` exceeds the number of other mixes. No `k <= N - 1` precondition is needed. The `Ok` outcome carries the construction's guarantees. A failure is a repeated underlay key, or a link the dataset cannot support, or exhausted draws. Exhausted draws are reported only when the turn still had draws to make: every draw left from the turn's start was the mix itself or already chosen. So a turn with a non-positive count never reports it.
- **Configuration.** The strategy, `k` (initially chosen neighbors count), `l` (latency-aware chosen neighbors count) and the path-selection policy are parameters. `k` and `l` are C# `int`s, so the latency-aware loop bound `k - l` wraps around as a 32-bit difference.

## Model

| member | source | states |
|---|---|---|
| Dictionaries.Dict.Add | OverlayConstruction/TopologyConstructor.cs:39-43 | `Dictionary.Add` succeeds exactly when the key is absent. On success the key is appended to the enumeration order with its value, and a well-formed dictionary stays well formed. |
| Mixes.Int32 | OverlayConstruction/PathCalculator.cs:29 | An unchecked `int` sum lies in `[-2^31, 2^31)`, is congruent to the exact sum modulo `2^32`, and equals it when the exact sum is in range. |
| Underlay.FromEntriesSpec | OverlayConstruction/TopologyConstructor.cs:36-43 | Adding a sequence of entries to an empty dictionary succeeds exactly when the keys are distinct. The result then enumerates the keys in entry order, with each entry's latency. |
| Underlay.FillUnderlay | OverlayConstruction/TopologyConstructor.cs:36-43 | The loop over the dataset, followed by the self entry, yields the dictionary (or the failure) of adding, in order, every entry the triples contribute and then `(id, 0)`. |
| Underlay.InitializeMixes | OverlayConstruction/TopologyConstructor.cs:27-47 | The result has one mix per triple with first node 0, plus one. It succeeds exactly when no mix's `Add` meets a repeated key, and otherwise fails with a duplicate-key error. Mix `i` has id `i`, the underlay dictionary of its entries, no neighbors and no paths. |
| Underlay.UnderlayContents | OverlayConstruction/TopologyConstructor.cs:36-43 | A filled underlay dictionary holds its own id at latency 0 and, for every triple naming it, the other node at that triple's latency. It holds no other key. |
| Underlay.UnderlaySymmetric | OverlayConstruction/TopologyConstructor.cs:38-41 | `b` is in `a`'s underlay exactly when `a` is in `b`'s, and with the same latency. |
| Underlay.SelfTripleFails | OverlayConstruction/TopologyConstructor.cs:38-43 | A triple from a node to itself makes that node's dictionary fill fail. |
| Underlay.DuplicateTripleFails | OverlayConstruction/TopologyConstructor.cs:38-41 | Two triples joining the same pair, in either orientation, make the fill fail. |
| NearestNodes.EntriesSpec | OverlayConstruction/TopologyConstructor.cs:81 | Enumerating a dictionary yields one pair per key, with no key repeated, and each pair carries that key's value. |
| NearestNodes.OtherEntries | OverlayConstruction/TopologyConstructor.cs:81 | `Where(n => n.Key != mix.Id)` keeps exactly the pairs whose key is not the mix's own id. |
| NearestNodes.SortSpec | OverlayConstruction/TopologyConstructor.cs:81 | `OrderBy(latency)` returns a permutation of its input, sorted by latency. It is stable: the pairs of each latency keep their input order. |
| NearestNodes.NearestSpec | OverlayConstruction/TopologyConstructor.cs:81 | The nearest query returns `l` pairs (clamped to the number of other nodes), with distinct keys. Each pair is an underlay node other than the mix, at its latency. They are sorted, and none is slower than an underlay node left out. |
| Topology.InitialIsOverlay | OverlayConstruction/TopologyConstructor.cs:34-44 | Freshly initialized mixes satisfy the overlay invariant: well formed, no self edge, every edge names a mix, symmetric, latencies from the underlay. They have no edges. |
| Topology.Link | OverlayConstruction/TopologyConstructor.cs:63-69 | The edge step succeeds exactly when the edge is already there, or the neighbor is a mix and each end is in the other's underlay. Otherwise it fails with a missing-key or no-such-mix error. It keeps the overlay invariant, only grows the graph, and adds exactly the edge between the two mixes. |
| Topology.NextCandidate | OverlayConstruction/TopologyConstructor.cs:59-61 | The resampling loop returns the first draw that is neither the mix nor already chosen, having skipped only rejected draws. When the stream runs out, every remaining draw is rejected. |
| Topology.RandomFill | OverlayConstruction/TopologyConstructor.cs:56-70 | The counted loop adds exactly `k` (or 0 when `k < 0`) ids to the chosen set, never the mix itself. They are all neighbors afterwards. The invariant is kept, the graph only grows, and the only new edges join the mix to its chosen ids. A failure needs a positive count. It is either a link error for some other mix that cannot be linked to this one, or exhausted draws. For exhausted draws, the turn had chosen fewer than it needed, and every draw from its start on was the mix itself or already chosen. |
| Topology.FillOne | OverlayConstruction/TopologyConstructor.cs:58-69 | One iteration adds one new id to the chosen set and links it. It keeps the invariant, and every draw it consumed was rejected or is the new id. It fails on a link error for an unlinkable mix, or on exhausted draws with every remaining draw rejected. |
| Topology.LinkNearest | OverlayConstruction/TopologyConstructor.cs:82-91 | Linking the nearest pairs adds exactly the edges between the mix and their ids, keeping the invariant. A failure is a link error for some listed id that cannot be linked to the mix. |
| Topology.LatencyAwareTurn | OverlayConstruction/TopologyConstructor.cs:81-108 | A latency-aware turn chooses the nearest ids plus `max(k - l, 0)` other distinct ids, never the mix itself, with `k - l` wrapped to 32 bits (line 95). The only edges it adds join the mix to those ids. A failure is a link error for a mix or underlay node that cannot be linked to this mix, or exhausted draws. Exhausted draws means `k - l` is positive, fewer were chosen than needed, and every draw from the turn's start on was the mix or already chosen. |
| Topology.BuildRandom | OverlayConstruction/TopologyConstructor.cs:53-71 | After all turns, the graph is the union of the chosen sets taken in both directions. Every mix chose exactly `max(k, 0)` others, not itself. The overlay invariant holds, and ids, underlays and paths are unchanged. A failure is either exhausted draws, or a link error for some pair of mixes that cannot be linked. With `k <= 0` it always succeeds. |
| Topology.RandomTurn | OverlayConstruction/TopologyConstructor.cs:55-70 | One mix's random turn extends the chosen sets and the edge relation by exactly that mix's choice. It fails only when `k` is positive. |
| Topology.BuildLatencyAware | OverlayConstruction/TopologyConstructor.cs:79-109 | As above, except that every mix's chosen set contains its nearest ids and has `|nearest| + max(k - l, 0)` elements, with `k - l` wrapped to 32 bits. A failure is a link error for some mix and a mix or underlay node that cannot be linked to it, or exhausted draws. Exhausted draws is reported only when `k - l` is positive. |
| Topology.NearTurn | OverlayConstruction/TopologyConstructor.cs:81-108 | One mix's latency-aware turn extends the chosen sets and the edge relation by exactly that mix's choice. Exhausted draws is reported only when `k - l` is positive. |
| Topology.ChosenAreNeighbors | OverlayConstruction/TopologyConstructor.cs:62-69 | Every id a mix chose is its neighbor and a mix id, so its degree is at least the size of its chosen set. |
| Topology.RandomDegree | OverlayConstruction/TopologyConstructor.cs:56-70 | Under the random strategy, every mix ends with at least `k` neighbors. |
| Topology.LatencyAwareDegree | OverlayConstruction/TopologyConstructor.cs:81-100 | Under the latency-aware strategy, every mix is linked to its `l` (clamped) nearest underlay nodes at their underlay latencies, and has at least `|nearest| + max(k - l, 0)` neighbors, with `k - l` wrapped to 32 bits. |
| Topology.EqualLatencies | OverlayConstruction/TopologyConstructor.cs:65-68 | With symmetric underlay latencies, the two directions of an edge carry the same latency. |
| Topology.DatasetEqualLatencies | OverlayConstruction/TopologyConstructor.cs:63-69 | On mixes built from a dataset, the two directions of every edge carry the same latency. |
| Topology.GrownFromDataset | OverlayConstruction/TopologyConstructor.cs:49-73 | Adding neighbors keeps each mix's id, underlay dictionary and empty paths as initialization made them. |
| Topology.UnlinkableGrown | OverlayConstruction/TopologyConstructor.cs:63-69 | Whether a link is possible depends only on the underlays, which adding neighbors leaves unchanged. |
| Topology.UnlinkableFromDataset | OverlayConstruction/TopologyConstructor.cs:27-47 | On mixes initialized from a dataset, a link from a mix to a node is impossible exactly when the node is not a mix or no triple joins the two. |
| Topology.CompleteJoinable | OverlayConstruction/TopologyConstructor.cs:27-47 | When triples name only mixes and every two mixes are joined by a triple, no link a builder tries is impossible. |
| Topology.CreateRandomTopology | OverlayConstruction/TopologyConstructor.cs:49-73 | A repeated key among some mix's underlay entries fails with a duplicate-key error. A success is the dataset's mixes with a random overlay as in `BuildRandom`. Any other failure is exhausted draws, or a link error for two mixes that no triple joins. When every two mixes are joined, exhausted draws is the only possible failure. It requires a positive `k`, so with `k <= 0` and no repeated key the call succeeds. |
| Topology.CreateLatencyAwareTopology | OverlayConstruction/TopologyConstructor.cs:75-111 | A repeated key among some mix's underlay entries fails with a duplicate-key error. A success is the dataset's mixes with a latency-aware overlay as in `BuildLatencyAware`. Any other failure is exhausted draws, or a link error for a mix and a node that are not both joined by a triple and a mix. When triples name only mixes and every two mixes are joined, exhausted draws is the only possible failure. It requires a positive `k - l`. |
| Topology.CreateTopology | OverlayConstruction/TopologyConstructor.cs:17-25 | `"Random"` and `"Latency-aware"` give the corresponding `Create…Topology` guarantees word for word, guarded by the strategy, including its failure cases: for `"Random"` a link error needs an unjoinable pair whose second node is a mix, and with every two mixes joined only exhausted draws can fail. Exhausted draws requires a positive `k` or `k - l`, respectively. Any other strategy fails with an unknown-strategy error. |
| PathCalculator.Common | OverlayConstruction/PathCalculator.cs:93-94 | `Intersect` keeps exactly the keys of the first mix's neighbors that are also the second's. |
| PathCalculator.CommonDistinct | OverlayConstruction/PathCalculator.cs:93-94 | The intersection of distinct keys has no repeats. |
| PathCalculator.GetMiddleRelaysForTwoNodes | OverlayConstruction/PathCalculator.cs:91-97 | Succeeds exactly when both ids name mixes. The result then holds exactly the common neighbors of the two mixes, without repeats. |
| PathCalculator.OneHopPathsSpec | OverlayConstruction/PathCalculator.cs:24-31 | There is one one-hop path per relay, to the rendezvous through that relay. Its latency is the `int` sum of both neighbor latencies of the relay, and it has no second relay. |
| PathCalculator.TwoHopPathsSpec | OverlayConstruction/PathCalculator.cs:40-48 | There is one two-hop path per second relay. Its latency is the left-to-right `int` sum of the three hop latencies. |
| PathCalculator.TwoHopFromSpec | OverlayConstruction/PathCalculator.cs:37-49 | The two-hop search succeeds exactly when there is nothing to search, or the rendezvous and every first relay are mixes. It then returns exactly the two-hop paths whose first relay is among those searched. |
| PathCalculator.CandidatesSpec | OverlayConstruction/PathCalculator.cs:19-50 | The candidates fail when the rendezvous is not a mix. If the rendezvous is another mix sharing a neighbor, they are exactly the one-hop paths. Otherwise they are exactly the two-hop paths, and then they fail exactly when some neighbor of the entry mix is not a mix. |
| PathCalculator.RemoveCyclesSpec | OverlayConstruction/PathCalculator.cs:52-63 | The cycle filter keeps exactly the paths whose second relay is none of first relay, rendezvous and entry, and whose first relay is neither rendezvous nor entry. |
| PathCalculator.FastOnlySpec | OverlayConstruction/PathCalculator.cs:77 | The fast paths are exactly those below 150000, and there are `paths.Count(p => p.Latency < 150000)` of them. |
| PathCalculator.UniformSpec | OverlayConstruction/PathCalculator.cs:65-71 | The random policy gives every path `1 / count`. All probabilities are positive and, for a non-empty list, sum to 1. |
| PathCalculator.FastPositive | OverlayConstruction/PathCalculator.cs:72-83 | Under the latency-aware policy, with a positive share for fast paths, the positive-probability filter leaves exactly the fast paths, in order, each at that share. |
| PathCalculator.NoFastPositive | OverlayConstruction/PathCalculator.cs:72-83 | With no fast path, the latency-aware policy leaves nothing. |
| PathCalculator.PositiveAll | OverlayConstruction/PathCalculator.cs:83 | The positive-probability filter keeps a list whose probabilities are all positive. |
| PathCalculator.AssignSpec | OverlayConstruction/PathCalculator.cs:65-83 | Probability assignment succeeds exactly for the two known policies. Its positive part is then the uniform assignment over the paths the policy selects: all of them, or the fast ones. |
| PathCalculator.KeptSpec | OverlayConstruction/PathCalculator.cs:52-79 | The selected acyclic paths are exactly the acyclic candidates, restricted to fast ones under the latency-aware policy. |
| PathCalculator.GroupSpec | OverlayConstruction/PathCalculator.cs:19-83 | A rendezvous group succeeds exactly when its candidates do and the policy is known. It is the uniform assignment over the acyclic candidates the policy selects. |
| PathCalculator.GroupSound | OverlayConstruction/PathCalculator.cs:19-83 | Every path of a group goes to its rendezvous, is an acyclic candidate of the right kind, is fast under the latency-aware policy, and has probability one over the group's size. A non-empty group sums to 1. |
| PathCalculator.GroupComplete | OverlayConstruction/PathCalculator.cs:19-83 | Every acyclic candidate the policy selects is in the group, with its probability set. |
| PathCalculator.SelfRendezvousTwoHop | OverlayConstruction/PathCalculator.cs:21-50 | The paths to the entry mix itself all have two middle relays. |
| PathCalculator.GroupsFromSpec | OverlayConstruction/PathCalculator.cs:17-85 | Concatenating the groups succeeds exactly when every group does. Every path leads to one of the rendezvous, and for distinct rendezvous the paths to each are exactly its group. |
| PathCalculator.GroupsFromUnknownPolicy | OverlayConstruction/PathCalculator.cs:80-81 | An unknown policy fails as soon as there is one rendezvous. |
| PathCalculator.MixPathsSpec | OverlayConstruction/PathCalculator.cs:16-85 | A mix's paths exist exactly when every group over its underlay nodes does. They lead only to underlay nodes, and the paths to each are exactly its group. |
| PathCalculator.MixPathsNormalised | OverlayConstruction/PathCalculator.cs:65-83 | For each rendezvous, a mix's paths to it are acyclic, share probability one over their number, and sum to 1 unless there are none. |
| PathCalculator.MixPathsUnknownPolicy | OverlayConstruction/PathCalculator.cs:17-81 | A mix with at least one underlay node fails on an unknown policy. |
| PathCalculator.CollectOneHop | OverlayConstruction/PathCalculator.cs:21-32 | The one-hop loop builds exactly the one-hop candidates, or fails as the relay lookup does. |
| PathCalculator.CollectSecondHops | OverlayConstruction/PathCalculator.cs:40-48 | The inner two-hop loop builds exactly the paths through one first relay. |
| PathCalculator.CollectTwoHop | OverlayConstruction/PathCalculator.cs:35-50 | The nested two-hop loops build exactly the two-hop candidates, stopping at the first failing relay lookup. |
| PathCalculator.DropCycles | OverlayConstruction/PathCalculator.cs:52-63 | Marking the cyclic paths and filtering them out yields exactly the cycle-free list, in order. |
| PathCalculator.UniformLoop | OverlayConstruction/PathCalculator.cs:65-71 | The random-policy loop yields the uniform assignment. |
| PathCalculator.FastLoop | OverlayConstruction/PathCalculator.cs:72-79 | The latency-aware loop gives fast paths one over the fast count and slow paths 0. |
| PathCalculator.AssignProbabilities | OverlayConstruction/PathCalculator.cs:65-81 | The policy branch yields the assignment of the chosen policy, or an unknown-policy error. |
| PathCalculator.RendezvousPaths | OverlayConstruction/PathCalculator.cs:19-83 | The body for one rendezvous yields exactly that rendezvous's group. |
| PathCalculator.EnumerateMixPaths | OverlayConstruction/PathCalculator.cs:16-85 | The body for one mix yields exactly the concatenated groups over its underlay keys, stopping at the first failure. |
| PathCalculator.CalculatePaths | OverlayConstruction/PathCalculator.cs:12-88 | On the array of mixes, only `paths` fields change. The call succeeds exactly when every mix's paths exist, and then each mix holds its paths computed from the graph as it was on entry. |
| Pipeline.BuiltIsGraph | OverlayConstruction/TopologyConstructor.cs:43 | A built topology is a graph path calculation accepts, and each mix is in its own underlay dictionary. |
| Pipeline.PathsSucceed | OverlayConstruction/Program.cs:17-18 | On a topology built from a dataset that names only mixes, path calculation with a known policy succeeds for every mix. |
| Pipeline.PathsFailOnUnknownPolicy | OverlayConstruction/PathCalculator.cs:17-81 | On a built topology, an unknown policy fails for every mix, because each mix is a rendezvous of itself. |

## Left out

- File reading and result writing (`FileWorker.cs`) and the driver loop (`Program.cs`) are I/O and sequencing. Their formatting uses floating point and culture settings. `Pipeline` states what the driver's two calls do together.
- Configuration is read from application settings. The strategy, both neighbor counts and the path-selection policy are parameters instead.
- `BandwidthCapacity` is used only by the output, so `Mix` has no such field.
- `Path.Id` (a `Guid`) is only used to filter out cyclic paths. `DropCycles` marks path positions instead; the values are unique in the same way.
- Probabilities are exact `real`s (`1.0 / n`), not `double`s, so rounding is not modelled.
- The parallel `ForAll` over mixes is modelled as a sequential loop over a snapshot of the array.
  - This is equivalent for results, because a mix only writes its own paths and no mix reads paths.
  - When several mixes fail, the source surfaces an aggregate of their exceptions. The model reports the error of the first failing mix in order, and the mixes before it already hold their new paths.
- Path objects are modelled as values. The list of candidates is rebuilt with the probability set, rather than updated object by object. No other reference to those objects exists while they are assigned.
- The mixes' neighbor dictionaries are updated in place in the source. The topology builders model the mix list as a sequence of mix values that each step replaces. No mix is aliased, because each is reached only through the list, by id.
- Topology.RandomFill: the source's resampling loop does not terminate when the draws never produce an acceptable candidate. The model instead returns `DrawsExhausted`, which stands for that spin. Such runs are reported as that error, and only when every draw left from the turn's start was rejected. The construction's guarantees are stated for runs that end.
- Dictionary enumeration is taken to be insertion order, as for a `Dictionary<int, int>` from which nothing is ever removed.
- The mix list is an arena (the mix with id `i` is at position `i`), as `InitializeMixes` creates it. `mixes.First(m => m.Id == x)` then becomes indexing, with an error when `x` names no mix. `CalculatePaths` requires this of its input.
- The code has no degree cap and no degree-balancing pass, so none is modelled.
