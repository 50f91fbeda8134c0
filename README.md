# Maximum betweenness centrality, modelled in Dafny

This project models the core of a small C++ program that looks for the group of
k vertices with the largest group betweenness centrality in an undirected graph,
and proves properties of that model. The core has three parts:

- **The adjacency-list `Graph`** (`graph.dfy`, module `Graphs`).
  - State: `n`, `m` and one neighbour list per vertex.
  - Construction from a stream of 1-indexed vertex pairs. The stream is a sequence of natural-number tokens.
  - `addEdge`, `getNeighbours` and the edge test `hasEdge`/`areConnected`.
  - The printed form `operator<<`, as a string function.
- **The graphs of the repository's test program** (`graph_examples.dfy`, module `GraphExamples`), worked out on the model: the star built by both constructors, a path added edge by edge, and the printed form of a six-vertex graph.
- **`calculatePathCounts`** (`path_counts.dfy`, module `PathCounts`). One breadth-first search per unmasked source fills an n x n distance matrix and an n x n matrix of shortest-path counts. The counts wrap modulo 2^64, as `size_t` does.
- **Scoring and the search** (`scoring.dfy`, `leaderboard.dfy`, `combinations.dfy`, `search.dfy`):
  - `groupBetweennessCentrality` scores one group exactly (module `Scoring`).
  - `mbcAux` is the recursive k-subset search. It subtracts the paths a new vertex covers from a shared working path-count matrix, recurses, and adds them back (module `Search`).
  - The search offers each finished group to a small multimap leaderboard (module `Leaderboards`).
  - The order in which the search visits subsets is modelled as well (module `Combinations`).
  - `maximumBetweennessCentrality` is modelled without its printing.

How the source's entities appear:

- `Graph` is a class. Its fields are `n`, `m` and `neighbours` (a `seq<seq<nat>>` that `AddEdge` reassigns). Vertex ids given to the constructors, `AddEdge` and `HasEdge` are 1-indexed. Stored entries are 0-indexed.
- A breadth-first search keeps its visited flags, rows and queue in local sequences. A ghost `BfsState` shadows them for the proof.
- The state `mbcAux` shares across its recursion is the class `Search.SearchState`:
  - `pathCounts` (the working matrix) and `isInGroup` are fields that the methods reassign;
  - `board` is the `Leaderboard` object;
  - the baseline matrices are constants.
- The `std::multimap<double, std::vector<bool>>` is the class `Leaderboard`. It holds a sequence of (score, group) entries kept in key order. A new entry goes after every entry with an equal key, as `emplace` does.
- Scores are exact `real`s. `size_t` arithmetic is explicit: `AddSize`, `SubSize` and `MulSize` wrap modulo 2^64.

What a call of the search does to the leaderboard is specified by functions on values:

- `AuxOffers` lists the (score, group) pairs that `mbcAux` offers, in order, for a given entry state.
- `LoopOffers` and `VertexOffers` do the same for its loop and for one iteration.
- `Offer` and `OfferAll` give the leaderboard after one offer and after a run of offers.

The methods are proved against these functions. The functions' properties are proved as lemmas:

- enumeration of the k-subsets;
- scores never below the caller's;
- the leaderboard stays sorted and within six entries.

## Model

| member | source | states |
|---|---|---|
| Graphs.Graph.constructor | mbc/Graph.cpp:3-13 | Graph(n, m, in) keeps n and m and ends with the lists built by adding the first m input pairs, in order, to n empty lists; the lists are well-formed and multiset-symmetric |
| Graphs.Graph.FromStream | mbc/Graph.cpp:15-19 | Graph(in) takes n and m from the first two tokens and then builds the lists from the following m pairs, as the other constructor does |
| Graphs.Graph.ReadEdges | mbc/Graph.cpp:8-12 | the constructors' loop: starting from n empty lists, after reading m pairs and adding each edge the lists equal Build of those pairs; n and m are unchanged and the invariant holds |
| Graphs.Graph.GetNeighbours | mbc/Graph.cpp:21-23 | returns the stored 0-indexed list of u unchanged; every entry is a vertex id |
| Graphs.Graph.HasEdge | mbc/Graph.cpp:25-31 | true exactly when v-1 occurs in list u-1, and equally exactly when u-1 occurs in list v-1; the search inspects no more entries than either list holds |
| Graphs.Graph.AddEdge | mbc/Graph.cpp:33-37 | appends v-1 to list u-1 and then u-1 to list v-1, changes no other list and neither n nor m, and keeps the lists well-formed and symmetric |
| Graphs.Empty | mbc/Graph.cpp:4-6 | the initial lists: n of them, each empty, hence well-formed and symmetric |
| Graphs.AddEdgeAdj | mbc/Graph.cpp:33-37 | list x gains exactly Appended(x, s, t): t when x is s, then s when x is t; the number of lists is unchanged |
| Graphs.AddEdgeCounts | mbc/Graph.cpp:33-37 | addEdge raises the count of y in list x by one for (x, y) = (s, t) and by one for (t, s), and changes no other count |
| Graphs.AddEdgePreserves | mbc/Graph.cpp:33-37 | addEdge keeps every entry a vertex id and keeps the count of t in list s equal to the count of s in list t |
| Graphs.AddEdgeAdjacent | mbc/Graph.cpp:33-37 | after addEdge(s, t) the edge is present both ways and every edge present before still is, so adding an edge twice keeps it |
| Graphs.BuildRow | mbc/Graph.cpp:8-12 | each constructed list is exactly the sequence of other endpoints of the pairs touching its vertex, in input order, twice for a self-loop |
| Graphs.BuildCounts | mbc/Graph.cpp:8-12 | the count of y in list x is the number of input pairs joining x+1 and y+1 in either orientation |
| Graphs.BuildValid | mbc/Graph.cpp:3-13 | construction yields n lists of vertex ids whose counts are symmetric |
| Graphs.BuildOrderIndependent | mbc/Graph.cpp:8-12 | pairs given in another order or orientation yield lists with the same contents and the same edge relation |
| Graphs.AdjacentSymmetric | mbc/Graph.cpp:25-31 | on symmetric lists the edge test is symmetric: s is adjacent to t exactly when t is adjacent to s |
| Graphs.PairsFlatten | mbc/Graph.cpp:8-12 | reading m pairs from the token stream that writes those pairs gives them back |
| Graphs.EdgeLinesCount | mbc/Graph.cpp:39-49 | the printed edge lines hold "a b" exactly as often as list a-1 holds b-1 when a < b, and never otherwise (no self-loops, no reverse copies) |
| Graphs.EdgeLinesInRange | mbc/Graph.cpp:41-47 | every printed line names two vertex ids, smaller first, 1-indexed |
| Graphs.RebuildFromEdgeLines | mbc/Graph.cpp:39-49 | constructing a graph from the printed edge lines of a loop-free symmetric graph gives lists with the same contents |
| Graphs.NatToString | mbc/Graph.cpp:40 | a number prints as a nonempty string of decimal digits |
| Graphs.NatToStringValue | mbc/Graph.cpp:40-45 | the printed digits of x, read as a decimal numeral, give x back, and there is no leading zero |
| Graphs.EdgeLinesOrdered | mbc/Graph.cpp:41-47 | the edge lines come out by ascending source vertex |
| Graphs.RenderLinesAppend | mbc/Graph.cpp:41-47 | the text of a run of lines is the text of each part in turn |
| Graphs.RenderEdgeless | mbc/Graph.cpp:39-49 | a graph without edges prints only its header line "n m" |
| Graphs.RenderTenEdgeless | mbc/Graph.cpp:39-49 | ten vertices and no edges print as "10 0" and a newline |
| GraphExamples.StarBuild | test/testGraph.cpp:11-14 | Graph(6, 5, in) on "1 2 1 3 1 4 1 5 1 6" holds [2, 3, 4, 5, 6] for vertex 1 and [1] for every other vertex (1-indexed) |
| GraphExamples.StarEdges | test/testGraph.cpp:16-26 | in that star two vertices are joined exactly when one of them is vertex 1 |
| GraphExamples.StarFromStream | test/testGraph.cpp:44-47 | Graph(in) on "6 5 1 2 1 3 1 4 1 5 1 6" reads the same lists |
| GraphExamples.AddedPathEdges | test/testGraph.cpp:79-92 | the path read from "1 2 2 3 3 4 4 5" and the path added as (1,2), (3,4), (2,3), (5,4) have the same edge relation, while list 3 holds its neighbours in the other order |
| GraphExamples.PrintBuild | test/testGraph.cpp:101-103 | Graph(6, 10, in) on the printing example's pairs holds the lists [2..6], [1, 3, 6], [1, 2, 4], [1, 3, 5], [1, 4, 6], [1, 5, 2] (1-indexed), each in input order |
| GraphExamples.PrintEdgeLines | mbc/Graph.cpp:41-47 | the edge lines of those lists are 1 2, 1 3, 1 4, 1 5, 1 6, 2 3, 2 6, 3 4, 4 5, 5 6 |
| GraphExamples.PrintExample | test/testGraph.cpp:100-107 | that graph prints exactly "6 10\n1 2\n1 3\n1 4\n1 5\n1 6\n2 3\n2 6\n3 4\n4 5\n5 6\n" |
| PathCounts.EffectiveMask | mbc/mbc.hpp:24 | the mask has one entry per vertex: the given one when its length is n, otherwise one that forbids nothing |
| PathCounts.AddSize | mbc/mbc.hpp:60 | size_t addition: the result is below 2^64 and is the exact sum when that sum fits |
| PathCounts.SubSize | mbc/mbc.hpp:157 | size_t subtraction: the result is below 2^64 and is the exact difference when no wrap occurs |
| PathCounts.MulSize | mbc/mbc.hpp:134 | size_t product: the result is below 2^64 and is the exact product when that fits |
| PathCounts.CalculatePathCounts | mbc/mbc.hpp:22-66 | the two matrices satisfy PathCountsSpec: a masked source keeps zero rows, every other row is the result of a search from it honouring the mask |
| PathCounts.ShortestPathsFrom | mbc/mbc.hpp:34-63 | one search from an unmasked source: distance 0 and count 1 at the source; masked vertices unreached with count 0; each reached vertex's neighbours reached at most one step further; each reached vertex has a predecessor one step closer; its count is its predecessors' counts summed modulo 2^64 |
| PathCounts.ScanNeighbours | mbc/mbc.hpp:50-62 | after scanning u's whole list the inner-loop invariant holds with every entry processed: masked entries skipped, new ones discovered one step further with u's count and queued, ones one step further given u's count |
| PathCounts.ShortestDistance | mbc/mbc.hpp:46-63 | a vertex is reached exactly when a walk from the source avoiding masked vertices ends there, and no such walk is shorter than its distance |
| PathCounts.BfsUnique | mbc/mbc.hpp:34-63 | any two rows satisfying the search's specification from the same source are equal |
| PathCounts.PathCountsUnique | mbc/mbc.hpp:22-66 | the distance and count matrices are determined by the lists and the mask |
| PathCounts.WrongLengthMaskIgnored | mbc/mbc.hpp:24-28 | a forbidden-vertex list whose length is not n yields exactly the matrices of the unmasked call |
| PathCounts.PathCountsEntries | mbc/mbc.hpp:27-43 | both matrices are n x n; an unmasked source has distance 0 and count 1 to itself; a masked source's rows are 0; a masked target's counts are 0; a nonzero count to another vertex comes with a distance of at least 1; counts are below 2^64 |
| Scoring.GroupBetweennessCentrality | mbc/mbc.hpp:68-96 | the result is the Gbc of the unmasked and group-masked runs of calculatePathCounts, is never negative, and is 0 for a group marking nothing |
| Scoring.SumPairs | mbc/mbc.hpp:76-95 | the loops' total is Gbc: group member i adds n - 1, a group member j > i adds 1, a surviving pair adds its removed share, and the sum is doubled |
| Scoring.Gbc | mbc/mbc.hpp:79-95 | the score is never negative |
| Scoring.RunsScorable | mbc/mbc.hpp:92 | on a graph whose baseline counts are nonzero, every division the scorer makes is defined |
| Scoring.SameRuns | mbc/mbc.hpp:69-74 | the two searches the scorer runs are determined by the lists and the group |
| Scoring.EmptyGroupSameRuns | mbc/mbc.hpp:73-74 | with nothing in the group the masked search gives the unmasked matrices |
| Scoring.EmptyGroupScoresZero | mbc/mbc.hpp:79-95 | when masking changed nothing and no vertex is in the group, every term is 0 and so is the score |
| Scoring.FullGroupScore | mbc/mbc.hpp:79-95 | with every vertex in the group the score is 2 (n - 1)^2 |
| Leaderboards.Leaderboard.constructor | mbc/mbc.hpp:185 | the multimap starts empty, and so sorted (`Valid`) |
| Leaderboards.Leaderboard.Emplace | mbc/mbc.hpp:118 | the new entry is inserted after every entry whose key is not greater, and the entries stay sorted |
| Leaderboards.Leaderboard.EraseFirst | mbc/mbc.hpp:117 | the first entry is removed and the rest kept in order; its key was the smallest, and the entries stay sorted |
| Leaderboards.Insert | mbc/mbc.hpp:118 | insertion adds exactly one entry |
| Leaderboards.InsertMultiset | mbc/mbc.hpp:118 | insertion adds exactly the new entry to the multiset of entries |
| Leaderboards.InsertSorted | mbc/mbc.hpp:118 | insertion keeps the entries in key order |
| Leaderboards.UpperBound | mbc/mbc.hpp:118 | the upper bound is the first index whose key exceeds the new key: every key before it is not greater |
| Leaderboards.InsertAtUpperBound | mbc/mbc.hpp:118 | insertion puts the new entry at the upper bound of its key and leaves every other entry in place |
| Leaderboards.OfferSorted | mbc/mbc.hpp:111-120 | an offer keeps the table in key order |
| Leaderboards.OfferBounded | mbc/mbc.hpp:111-120 | from at most six entries an offer leaves between one and six |
| Leaderboards.OfferIgnored | mbc/mbc.hpp:115 | a score not above the smallest key leaves the table unchanged |
| Leaderboards.OfferAccepted | mbc/mbc.hpp:113-119 | into an empty table, or beating the smallest key, the group goes in; the table otherwise loses only its first entry, and only when it held more than five |
| Leaderboards.OfferMinimum | mbc/mbc.hpp:111-120 | the smallest key of a sorted table never decreases |
| Leaderboards.OfferAllAppend | mbc/mbc.hpp:111-120 | offering a then b in one run is offering a and then b |
| Leaderboards.OfferAllInvariant | mbc/mbc.hpp:185-188 | from a sorted table of one to six entries any run of offers keeps it sorted, within one to six entries, its smallest key never lower, and every key at least the starting minimum |
| Combinations.CombosSound | mbc/mbc.hpp:123 | every listed entry is an r-subset of [start, n) in increasing order |
| Combinations.CombosComplete | mbc/mbc.hpp:123 | every r-subset of [start, n) is listed |
| Combinations.CombosOrdered | mbc/mbc.hpp:123 | the list is strictly increasing in lexicographic order |
| Combinations.CombosDistinct | mbc/mbc.hpp:123 | no subset is listed twice |
| Scoring.NoMask | mbc/mbc.hpp:187 | the initial group (and the mask of an unmasked search) has n entries, all false |
| Search.CoveredShape | mbc/mbc.hpp:124-141 | the covered matrix is n x n with size_t values, symmetric, 0 on the diagonal and 0 on every pair with an endpoint in the group |
| Search.EndpointBranchDead | mbc/mbc.hpp:133-139 | when d0[v][v] is 0 a pair with endpoint v passes the first test, so the endpoint branch is not taken; with P[v][v] = 1 the product equals the pair's own count. `SearchState.Valid` keeps the working diagonal equal to the baseline's, where an unmasked source has count 1 |
| Search.SubtractRestore | mbc/mbc.hpp:154-172 | subtracting keeps size_t values and leaves the diagonal unchanged, and adding the same matrix back restores the working matrix exactly, wrap-around included |
| Search.RestoreCovered | mbc/mbc.hpp:154-172 | adding back the covered matrix of a vertex undoes subtracting it |
| Search.SubAddSize | mbc/mbc.hpp:157-169 | (x - c) + c is x in size_t arithmetic |
| Search.Contribution | mbc/mbc.hpp:143-152 | contributionToGBC is never negative |
| Search.AuxOffers | mbc/mbc.hpp:98-174 | mbcAux offers one group per (k - depth)-subset of [start, n) |
| Search.LoopOffers | mbc/mbc.hpp:123-173 | the loop from v offers one group per (k - depth)-subset of [v, n) |
| Search.VertexOffers | mbc/mbc.hpp:124-164 | the iteration for v offers one group per (k - depth - 1)-subset of [v + 1, n) |
| Search.AuxGroups | mbc/mbc.hpp:111-173 | the groups mbcAux offers are the entry group with each (k - depth)-subset of [start, n) marked, in lexicographic order |
| Search.LoopGroups | mbc/mbc.hpp:123-173 | the loop from v offers the groups marking the subsets whose smallest new member is v or more |
| Search.VertexGroups | mbc/mbc.hpp:162-164 | the iteration for v offers the groups marking v together with each subset above v |
| Search.AuxScores | mbc/mbc.hpp:143-164 | every score offered is at least the score mbcAux was entered with |
| Search.LoopScores | mbc/mbc.hpp:123-173 | every score offered by the loop is at least the caller's |
| Search.VertexScores | mbc/mbc.hpp:143-164 | every score offered by the iteration for v is at least the caller's |
| Search.SearchEnumerates | mbc/mbc.hpp:187-188 | from the top the search offers one group per k-subset of [0, n); the i-th offer marks exactly the i-th subset in lexicographic order; every k-subset occurs exactly once; no score is negative |
| Search.SearchState.constructor | mbc/mbc.hpp:180-188 | the search starts from the baseline as the working matrix and an all-false group |
| Search.SearchState.MbcAux | mbc/mbc.hpp:98-174 | the leaderboard receives, in order, the offers AuxOffers lists for the entry state; the working matrix and the group end as on entry |
| Search.SearchState.SearchFrom | mbc/mbc.hpp:123-173 | the loop offers LoopOffers from intervalStart, in order, and leaves the working matrix and the group as on entry |
| Search.SearchState.OfferGroup | mbc/mbc.hpp:111-120 | the leaf updates the leaderboard to Offer of its old entries, the score and the group |
| Search.SearchState.AddVertex | mbc/mbc.hpp:124-172 | one iteration offers VertexOffers for its vertex and leaves the working matrix and the group as on entry |
| Search.SearchState.Descend | mbc/mbc.hpp:157-172 | with the covered paths subtracted, the vertex joins the group, the child's offers reach the leaderboard, and the vertex leaves again with the working matrix restored |
| Search.ComputeCovered | mbc/mbc.hpp:124-141 | the loops fill exactly the covered matrix of the new vertex |
| Search.CoverRow | mbc/mbc.hpp:129-140 | the inner loop fills every pair (i, j), j > i, of row i with its covered value and leaves later pairs at 0 |
| Search.ContributionOf | mbc/mbc.hpp:143-152 | the loops compute exactly contributionToGBC |
| Search.Subtract | mbc/mbc.hpp:154-160 | the loops leave the working matrix minus covered off the diagonal, in size_t arithmetic |
| Search.AddBack | mbc/mbc.hpp:166-172 | the loops leave the working matrix plus covered off the diagonal, in size_t arithmetic |
| Search.MaximumBetweennessCentrality | mbc/mbc.hpp:176-191 | the leaderboard is the sentinel entry after every offer of the search from the top, in order; it is sorted, holds one to six entries, and no score in it is negative |

## Left out

- Stream input is a sequence of natural-number tokens. Vertex ids outside [1, n] make the source index out of range, so the constructors, `AddEdge` and `HasEdge` require ids in range.
- The printing loop of `maximumBetweennessCentrality` (mbc/mbc.hpp:192-200) is not modelled. Neither is the text formatting of doubles.
- `operator<<` is the string function `Graphs.Render` (via `Graph.ToString`). Its properties are stated on its edge lines: the counts, the range, the order and the round trip through construction. The full text is worked out for the two printing examples of test/testGraph.cpp.
- Scores are exact reals. Floating-point rounding is not modelled.
- `size_t` is taken to be 64 bits wide. Its wrap-around is modelled in the path counts, in their subtraction and addition, and in the product at mbc/mbc.hpp:134.
- Scoring.GroupBetweennessCentrality: requires n ≥ 1 and that every baseline count above the diagonal is nonzero modulo 2^64 (`CountsNonzero`). This is implied by connectivity (mbc/mbc.hpp:13) plus fewer than 2^64 shortest paths per pair. Otherwise the source divides by zero or wraps `n - 1`.
- Search.MaximumBetweennessCentrality: requires k ≤ n and `CountsNonzero`; k = 0 is allowed and offers the empty group alone. For k > n the source's loop bound `n - k + depth` wraps around.
- Search.SearchState.MbcAux: the score passed down is not proved equal to the exact score of `groupBetweennessCentrality` for the same group. Neither does the model prove that a covered count never exceeds the working count.
- PathCounts.ShortestPathsFrom: the count is proved to be the predecessors' counts summed modulo 2^64, and the distance the length of a shortest walk avoiding masked vertices. The count is not proved equal to the number of those walks.
- The `Graph` parameter of `mbcAux` is unused by the source and left out.
- Methods take a ghost parameter:
  - `MbcAux`, `SearchFrom`, `AddVertex` and `Descend` take the offers they make, bound by their preconditions to `AuxOffers`, `LoopOffers` and `VertexOffers` of the entry state.
  - `HasEdge` returns a ghost count of the entries it inspects.
- Some loops live in methods of their own:
  - the breadth-first search's inner loop (`ScanNeighbours`);
  - `mbcAux`'s loop (`SearchFrom`);
  - one iteration (`AddVertex`, `Descend`);
  - the covered, contribution, subtract and add-back loops (`ComputeCovered`, `CoverRow`, `ContributionOf`, `Subtract`, `AddBack`), which work on the values they read and return the new matrix that the caller stores.
- The working matrix and the rows are sequences the methods reassign, not arrays updated in place, so aliasing between rows is not modelled.
- The multimap is a sorted sequence. Its tree structure and its iterator are not modelled.
- `Graph.h` declares `areConnected`, `void addEdge` and `Graph()`, while `Graph.cpp` defines `hasEdge`, an `addEdge` returning the graph, and `Graph(std::istream&)`. The model follows `Graph.cpp`: `HasEdge` is the edge test under either name, and the chained return of `addEdge` is not modelled.
- `vertexCount()` and `zeroIndex` are not part of this model. They are taken as `n` and `x - 1`.
