/** Shortest-path counting: one breadth-first search per unmasked source, filling
    an n x n distance matrix and an n x n path-count matrix (the counting half of
    Brandes' betweenness algorithm). Masked vertices are neither sources nor
    targets. Vertex ids are 0-indexed. */
module PathCounts {
  import opened Graphs

  /** size_t values are the naturals below SizeLimit; size_t arithmetic wraps modulo it. */
  const SizeLimit: nat := 0x1_0000_0000_0000_0000

  /** The mask the search honours: the given one when it has one entry per vertex, none otherwise. */
  function EffectiveMask(isForbidden: seq<bool>, n: nat): (mask: seq<bool>)
    ensures |mask| == n
  {
    if |isForbidden| == n then isForbidden else seq(n, _ => false)
  }

  /** size_t addition: the sum wrapped into the size_t range. */
  function AddSize(a: nat, b: nat): (r: nat)
    ensures r < SizeLimit
    ensures a + b < SizeLimit ==> r == a + b
  {
    (a + b) % SizeLimit
  }

  /** size_t subtraction: the difference wrapped into the size_t range. */
  function SubSize(a: nat, b: nat): (r: nat)
    ensures r < SizeLimit
    ensures b <= a < SizeLimit ==> r == a - b
  {
    (a - b) % SizeLimit
  }

  /** size_t multiplication: the product wrapped into the size_t range. */
  function MulSize(a: nat, b: nat): (r: nat)
    ensures r < SizeLimit
    ensures a * b < SizeLimit ==> r == a * b
  {
    (a * b) % SizeLimit
  }

  function Zeros(n: nat): seq<nat> {
    seq(n, _ => 0)
  }

  /** A vertex is reached from s when it is s or has a positive distance. */
  predicate Reached(s: nat, dist: seq<nat>, v: nat)
    requires v < |dist|
  {
    v == s || dist[v] > 0
  }

  ghost function ReachedSet(s: nat, dist: seq<nat>): set<nat> {
    set v | 0 <= v < |dist| && Reached(s, dist, v)
  }

  /** Sum, over the vertices u < k of `from` one step closer to s than v, of the path
      count of u times the number of entries v in u's list. */
  ghost function PredSum(adj: Adjacency, dist: seq<nat>, count: seq<nat>, from: set<nat>, v: nat, k: nat): nat
    requires k <= |adj| && k <= |dist| && k <= |count| && v < |dist|
  {
    if k == 0 then 0
    else
      PredSum(adj, dist, count, from, v, k - 1) +
      (if k - 1 in from && dist[k - 1] + 1 == dist[v] then Occurrences(adj[k - 1], v) * count[k - 1] else 0)
  }

  /** What one search from s leaves in its distance and path-count rows: every unmasked
      neighbour of a reached vertex is reached at most one step further, every reached
      vertex but s has a reached predecessor one step closer, and its count is the sum
      of its predecessors' counts, modulo the size_t range. */
  ghost predicate BfsSpec(adj: Adjacency, mask: seq<bool>, s: nat, dist: seq<nat>, count: seq<nat>) {
    WellFormed(|adj|, adj) && |mask| == |adj| && |dist| == |adj| && |count| == |adj| &&
    s < |adj| && !mask[s] && dist[s] == 0 && count[s] == 1 &&
    (forall v :: 0 <= v < |adj| ==> count[v] < SizeLimit) &&
    (forall v :: 0 <= v < |adj| && mask[v] ==> !Reached(s, dist, v)) &&
    (forall v :: 0 <= v < |adj| && !Reached(s, dist, v) ==> count[v] == 0) &&
    (forall u, e :: 0 <= u < |adj| && Reached(s, dist, u) && 0 <= e < |adj[u]| && !mask[adj[u][e]] ==>
       Reached(s, dist, adj[u][e]) && dist[adj[u][e]] <= dist[u] + 1) &&
    (forall v :: 0 <= v < |adj| && v != s && Reached(s, dist, v) ==>
       exists u :: 0 <= u < |adj| && Reached(s, dist, u) && dist[u] + 1 == dist[v] && v in adj[u]) &&
    (forall v {:trigger CountSum(adj, s, dist, count, v)} :: 0 <= v < |adj| && v != s && Reached(s, dist, v) ==>
       CountSum(adj, s, dist, count, v))
  }

  /** The count of v is the sum of its reached predecessors' counts, wrapped into size_t. */
  ghost predicate CountSum(adj: Adjacency, s: nat, dist: seq<nat>, count: seq<nat>, v: nat)
    requires |dist| == |adj| && |count| == |adj| && v < |adj|
  {
    count[v] == PredSum(adj, dist, count, ReachedSet(s, dist), v, |adj|) % SizeLimit
  }

  /** The two matrices of calculatePathCounts: masked sources keep zero rows, the others
      hold their search. */
  ghost predicate PathCountsSpec(adj: Adjacency, mask: seq<bool>, distances: seq<seq<nat>>, pathCounts: seq<seq<nat>>) {
    |mask| == |adj| && |distances| == |adj| && |pathCounts| == |adj| &&
    forall s :: 0 <= s < |adj| ==>
      if mask[s] then distances[s] == Zeros(|adj|) && pathCounts[s] == Zeros(|adj|)
      else BfsSpec(adj, mask, s, distances[s], pathCounts[s])
  }

  // ---------------------------------------------------------------------------
  // Walks and the meaning of the distances

  /** A walk through unmasked vertices along list entries. */
  ghost predicate IsWalk(adj: Adjacency, mask: seq<bool>, p: seq<nat>)
    requires |mask| == |adj|
  {
    |p| >= 1 &&
    (forall i :: 0 <= i < |p| ==> p[i] < |adj| && !mask[p[i]]) &&
    (forall i :: 0 <= i < |p| - 1 ==> p[i + 1] in adj[p[i]])
  }

  /** Every masked-avoiding walk from s ends at a reached vertex no further than its length. */
  lemma {:induction false} WalkBound(adj: Adjacency, mask: seq<bool>, s: nat, dist: seq<nat>, count: seq<nat>, p: seq<nat>)
    requires BfsSpec(adj, mask, s, dist, count) && IsWalk(adj, mask, p) && p[0] == s
    ensures Reached(s, dist, p[|p| - 1]) && dist[p[|p| - 1]] <= |p| - 1
  {
    if |p| > 1 {
      var q := p[..|p| - 1];
      assert IsWalk(adj, mask, q);
      WalkBound(adj, mask, s, dist, count, q);
      var u, v := p[|p| - 2], p[|p| - 1];
      assert v in adj[u];
      var e :| 0 <= e < |adj[u]| && adj[u][e] == v;
    }
  }

  /** Every reached vertex is the end of a walk from s whose length is its distance. */
  lemma WalkTo(adj: Adjacency, mask: seq<bool>, s: nat, dist: seq<nat>, count: seq<nat>, v: nat) returns (p: seq<nat>)
    requires BfsSpec(adj, mask, s, dist, count) && v < |adj| && Reached(s, dist, v)
    ensures IsWalk(adj, mask, p) && p[0] == s && p[|p| - 1] == v && |p| == dist[v] + 1
    decreases dist[v]
  {
    if v == s {
      p := [s];
    } else {
      var u :| 0 <= u < |adj| && Reached(s, dist, u) && dist[u] + 1 == dist[v] && v in adj[u];
      var q := WalkTo(adj, mask, s, dist, count, u);
      WalkExtend(adj, mask, q, v);
      p := q + [v];
    }
  }

  lemma WalkExtend(adj: Adjacency, mask: seq<bool>, q: seq<nat>, v: nat)
    requires |mask| == |adj| && IsWalk(adj, mask, q) && v < |adj| && !mask[v] && v in adj[q[|q| - 1]]
    ensures IsWalk(adj, mask, q + [v]) && (q + [v])[0] == q[0] && (q + [v])[|q|] == v
  {
    var p := q + [v];
    assert forall i :: 0 <= i < |q| ==> p[i] == q[i];
  }

  /** The distances are the shortest masked-avoiding walk lengths: reached exactly when some
      walk exists, and no walk is shorter than the distance. */
  lemma ShortestDistance(adj: Adjacency, mask: seq<bool>, s: nat, dist: seq<nat>, count: seq<nat>, v: nat)
    requires BfsSpec(adj, mask, s, dist, count) && v < |adj|
    ensures Reached(s, dist, v) <==> exists p :: IsWalk(adj, mask, p) && p[0] == s && p[|p| - 1] == v
    ensures forall p :: IsWalk(adj, mask, p) && p[0] == s && p[|p| - 1] == v ==> dist[v] <= |p| - 1
  {
    if Reached(s, dist, v) {
      var p := WalkTo(adj, mask, s, dist, count, v);
    }
    forall p | IsWalk(adj, mask, p) && p[0] == s && p[|p| - 1] == v
      ensures Reached(s, dist, v) && dist[v] <= |p| - 1
    {
      WalkBound(adj, mask, s, dist, count, p);
    }
  }

  // ---------------------------------------------------------------------------
  // The search result is unique

  /** PredSum reads only the distances of `from` and v, and the counts of v's predecessors. */
  lemma {:induction false} PredSumFrame(adj: Adjacency, dist1: seq<nat>, count1: seq<nat>, dist2: seq<nat>, count2: seq<nat>,
                                        from: set<nat>, v: nat, k: nat)
    requires k <= |adj| && k <= |dist1| && k <= |count1| && k <= |dist2| && k <= |count2| && v < |dist1| && v < |dist2|
    requires dist1[v] == dist2[v]
    requires forall u :: 0 <= u < k && u in from ==> dist1[u] == dist2[u]
    requires forall u :: 0 <= u < k && u in from && dist1[u] + 1 == dist1[v] ==> count1[u] == count2[u]
    ensures PredSum(adj, dist1, count1, from, v, k) == PredSum(adj, dist2, count2, from, v, k)
  {
    if k > 0 {
      PredSumFrame(adj, dist1, count1, dist2, count2, from, v, k - 1);
    }
  }

  /** Two searches from s agree on reachability and distance. */
  lemma SameDistances(adj: Adjacency, mask: seq<bool>, s: nat, dist1: seq<nat>, count1: seq<nat>, dist2: seq<nat>, count2: seq<nat>)
    requires BfsSpec(adj, mask, s, dist1, count1) && BfsSpec(adj, mask, s, dist2, count2)
    ensures dist1 == dist2
  {
    forall v | 0 <= v < |adj|
      ensures dist1[v] == dist2[v]
    {
      if Reached(s, dist1, v) {
        DistanceAtMost(adj, mask, s, dist1, count1, dist2, count2, v);
      }
      if Reached(s, dist2, v) {
        DistanceAtMost(adj, mask, s, dist2, count2, dist1, count1, v);
      }
    }
  }

  /** A vertex the first search reaches, the second reaches no farther away. */
  lemma DistanceAtMost(adj: Adjacency, mask: seq<bool>, s: nat, dist1: seq<nat>, count1: seq<nat>, dist2: seq<nat>, count2: seq<nat>, v: nat)
    requires BfsSpec(adj, mask, s, dist1, count1) && BfsSpec(adj, mask, s, dist2, count2)
    requires v < |adj| && Reached(s, dist1, v)
    ensures Reached(s, dist2, v) && dist2[v] <= dist1[v]
  {
    var p := WalkTo(adj, mask, s, dist1, count1, v);
    WalkBound(adj, mask, s, dist2, count2, p);
  }

  /** Two searches from s agree on the counts of every vertex at distance at most d. */
  lemma {:induction false} SameCountsUpTo(adj: Adjacency, mask: seq<bool>, s: nat, dist: seq<nat>, count1: seq<nat>, count2: seq<nat>, d: nat)
    requires BfsSpec(adj, mask, s, dist, count1) && BfsSpec(adj, mask, s, dist, count2)
    ensures forall v :: 0 <= v < |adj| && dist[v] <= d ==> count1[v] == count2[v]
  {
    if d > 0 {
      SameCountsUpTo(adj, mask, s, dist, count1, count2, d - 1);
    }
    forall v | 0 <= v < |adj| && dist[v] == d && v != s && Reached(s, dist, v)
      ensures count1[v] == count2[v]
    {
      assert CountSum(adj, s, dist, count1, v) && CountSum(adj, s, dist, count2, v);
      PredSumFrame(adj, dist, count1, dist, count2, ReachedSet(s, dist), v, |adj|);
    }
  }

  /** The search result is determined by the lists, the mask and the source. */
  lemma BfsUnique(adj: Adjacency, mask: seq<bool>, s: nat, dist1: seq<nat>, count1: seq<nat>, dist2: seq<nat>, count2: seq<nat>)
    requires BfsSpec(adj, mask, s, dist1, count1) && BfsSpec(adj, mask, s, dist2, count2)
    ensures dist1 == dist2 && count1 == count2
  {
    SameDistances(adj, mask, s, dist1, count1, dist2, count2);
    SameCounts(adj, mask, s, dist1, count1, count2);
  }

  lemma SameCounts(adj: Adjacency, mask: seq<bool>, s: nat, dist: seq<nat>, count1: seq<nat>, count2: seq<nat>)
    requires BfsSpec(adj, mask, s, dist, count1) && BfsSpec(adj, mask, s, dist, count2)
    ensures count1 == count2
  {
    forall v | 0 <= v < |adj|
      ensures count1[v] == count2[v]
    {
      SameCountsUpTo(adj, mask, s, dist, count1, count2, dist[v]);
    }
  }

  /** Both matrices are determined by the lists and the mask. */
  lemma PathCountsUnique(adj: Adjacency, mask: seq<bool>, d1: seq<seq<nat>>, p1: seq<seq<nat>>, d2: seq<seq<nat>>, p2: seq<seq<nat>>)
    requires PathCountsSpec(adj, mask, d1, p1) && PathCountsSpec(adj, mask, d2, p2)
    ensures d1 == d2 && p1 == p2
  {
    forall s | 0 <= s < |adj|
      ensures d1[s] == d2[s] && p1[s] == p2[s]
    {
      if !mask[s] {
        BfsUnique(adj, mask, s, d1[s], p1[s], d2[s], p2[s]);
      }
    }
  }

  /** A forbidden-vertex list of the wrong length yields exactly the unmasked matrices. */
  lemma WrongLengthMaskIgnored(adj: Adjacency, isForbidden: seq<bool>, d1: seq<seq<nat>>, p1: seq<seq<nat>>, d2: seq<seq<nat>>, p2: seq<seq<nat>>)
    requires |isForbidden| != |adj|
    requires PathCountsSpec(adj, EffectiveMask(isForbidden, |adj|), d1, p1)
    requires PathCountsSpec(adj, EffectiveMask([], |adj|), d2, p2)
    ensures d1 == d2 && p1 == p2
  {
    if |adj| == 0 {
      assert d1 == [] == d2 && p1 == [] == p2;
    } else {
      assert EffectiveMask(isForbidden, |adj|) == EffectiveMask([], |adj|);
      PathCountsUnique(adj, EffectiveMask([], |adj|), d1, p1, d2, p2);
    }
  }

  /** What the matrices say entry by entry: both are n x n; an unmasked source has distance
      0 and one path to itself; a masked source's rows are zero and a masked target gets
      count 0; a reached target other than the source is at a positive distance. */
  lemma PathCountsEntries(adj: Adjacency, mask: seq<bool>, distances: seq<seq<nat>>, pathCounts: seq<seq<nat>>)
    requires PathCountsSpec(adj, mask, distances, pathCounts)
    ensures forall s :: 0 <= s < |adj| ==> |distances[s]| == |adj| && |pathCounts[s]| == |adj|
    ensures forall s :: 0 <= s < |adj| && !mask[s] ==> distances[s][s] == 0 && pathCounts[s][s] == 1
    ensures forall s, t :: 0 <= s < |adj| && 0 <= t < |adj| && mask[s] ==> distances[s][t] == 0 && pathCounts[s][t] == 0
    ensures forall s, t :: 0 <= s < |adj| && 0 <= t < |adj| && mask[t] ==> pathCounts[s][t] == 0
    ensures forall s, t :: 0 <= s < |adj| && 0 <= t < |adj| && t != s && pathCounts[s][t] != 0 ==> distances[s][t] >= 1
    ensures forall s, t :: 0 <= s < |adj| && 0 <= t < |adj| ==> pathCounts[s][t] < SizeLimit
  {
    forall s, t | 0 <= s < |adj| && 0 <= t < |adj| && mask[t]
      ensures pathCounts[s][t] == 0
    {
      if !mask[s] {
        assert !Reached(s, distances[s], t);
      }
    }
    forall s, t | 0 <= s < |adj| && 0 <= t < |adj| && t != s && pathCounts[s][t] != 0
      ensures distances[s][t] >= 1
    {
      if !mask[s] {
        assert Reached(s, distances[s], t);
      }
    }
  }

  /** calculatePathCounts: one search per unmasked source; masked sources keep zero rows.
      A forbidden-vertex list whose length is not n masks nothing. */
  method CalculatePathCounts(g: Graph, isForbidden: seq<bool>) returns (pathCounts: seq<seq<nat>>, distances: seq<seq<nat>>)
    requires g.Valid()
    ensures PathCountsSpec(g.neighbours, EffectiveMask(isForbidden, g.n), distances, pathCounts)
  {
    var n := g.n;
    var mask := if |isForbidden| == n then isForbidden else seq(n, _ => false);
    pathCounts := seq(n, _ => Zeros(n));
    distances := seq(n, _ => Zeros(n));
    var src := 0;
    while src < n
      invariant src <= n && |pathCounts| == n && |distances| == n && mask == EffectiveMask(isForbidden, n)
      invariant forall t :: src <= t < n ==> distances[t] == Zeros(n) && pathCounts[t] == Zeros(n)
      invariant forall t :: 0 <= t < src ==>
                  if mask[t] then distances[t] == Zeros(n) && pathCounts[t] == Zeros(n)
                  else BfsSpec(g.neighbours, mask, t, distances[t], pathCounts[t])
    {
      if !mask[src] {
        var distance, pathCount := ShortestPathsFrom(g, mask, src);
        distances := distances[src := distance];
        pathCounts := pathCounts[src := pathCount];
      }
      src := src + 1;
    }
  }

  // ---------------------------------------------------------------------------
  // The search loop

  /** The search's working state: the visited flags, the distance and path-count rows,
      the queue, and (for the proof) the processed vertices and who discovered whom. */
  datatype BfsState = BfsState(visited: seq<bool>, dist: seq<nat>, count: seq<nat>, queue: seq<nat>,
                               done: set<nat>, parent: seq<nat>)

  ghost predicate Basics(adj: Adjacency, mask: seq<bool>, s: nat, st: BfsState) {
    WellFormed(|adj|, adj) && |mask| == |adj| && |st.visited| == |adj| && |st.dist| == |adj| &&
    |st.count| == |adj| && |st.parent| == |adj| &&
    s < |adj| && !mask[s] && st.visited[s] && st.dist[s] == 0 && st.count[s] == 1 &&
    (forall v :: 0 <= v < |adj| ==> st.count[v] < SizeLimit) &&
    (forall v :: 0 <= v < |adj| && mask[v] ==> !st.visited[v]) &&
    (forall v :: 0 <= v < |adj| && !st.visited[v] ==> st.dist[v] == 0 && st.count[v] == 0) &&
    (forall v :: 0 <= v < |adj| && st.visited[v] && v != s ==> st.dist[v] > 0)
  }

  /** The queue holds the visited vertices not yet settled, without repeats, in
      non-decreasing distance. */
  ghost predicate QueueShape(n: nat, st: BfsState, settled: set<nat>)
    requires |st.visited| == n && |st.dist| == n
  {
    (forall x :: x in settled ==> x < n) &&
    (forall i :: 0 <= i < |st.queue| ==> st.queue[i] < n && st.queue[i] !in settled) &&
    (forall i, j :: 0 <= i < j < |st.queue| ==> st.queue[i] != st.queue[j]) &&
    (forall v :: 0 <= v < n ==> (st.visited[v] <==> v in settled || v in st.queue)) &&
    (forall i, j :: 0 <= i < j < |st.queue| ==> st.dist[st.queue[i]] <= st.dist[st.queue[j]])
  }

  /** Every visited vertex but s was discovered from a settled vertex one step closer. */
  ghost predicate Parents(adj: Adjacency, s: nat, st: BfsState, settled: set<nat>)
    requires |st.visited| == |adj| && |st.dist| == |adj| && |st.parent| == |adj|
  {
    forall v :: 0 <= v < |adj| && st.visited[v] && v != s ==>
      st.parent[v] < |adj| && st.parent[v] in settled && st.dist[st.parent[v]] + 1 == st.dist[v] &&
      v in adj[st.parent[v]]
  }

  /** Entry e of x's list, when not masked, is visited and at most one step further than x. */
  ghost predicate EntryOk(adj: Adjacency, mask: seq<bool>, visited: seq<bool>, dist: seq<nat>, x: nat, e: nat)
    requires WellFormed(|adj|, adj) && |mask| == |adj| && |visited| == |adj| && |dist| == |adj|
    requires x < |adj| && e < |adj[x]|
  {
    !mask[adj[x][e]] ==> visited[adj[x][e]] && dist[adj[x][e]] <= dist[x] + 1
  }

  ghost predicate Closed(adj: Adjacency, mask: seq<bool>, visited: seq<bool>, dist: seq<nat>, x: nat, j: nat)
    requires WellFormed(|adj|, adj) && |mask| == |adj| && |visited| == |adj| && |dist| == |adj|
    requires x < |adj| && j <= |adj[x]|
  {
    forall e {:trigger EntryOk(adj, mask, visited, dist, x, e)} :: 0 <= e < j ==> EntryOk(adj, mask, visited, dist, x, e)
  }

  ghost predicate AllClosed(adj: Adjacency, mask: seq<bool>, visited: seq<bool>, dist: seq<nat>, done: set<nat>)
    requires WellFormed(|adj|, adj) && |mask| == |adj| && |visited| == |adj| && |dist| == |adj|
  {
    forall x {:trigger x in done} :: x in done && x < |adj| ==> Closed(adj, mask, visited, dist, x, |adj[x]|)
  }

  /** What u's first j entries have added so far to the count of v. */
  ghost function Partial(adj: Adjacency, dist: seq<nat>, count: seq<nat>, u: nat, j: nat, v: nat): nat
    requires u < |adj| && j <= |adj[u]| && u < |dist| && v < |dist| && u < |count|
  {
    if dist[u] + 1 == dist[v] then Occurrences(adj[u][..j], v) * count[u] else 0
  }

  /** The count of v is its settled predecessors' sum plus u's share so far. */
  ghost predicate CountOk(adj: Adjacency, dist: seq<nat>, count: seq<nat>, done: set<nat>, u: nat, j: nat, v: nat)
    requires |dist| == |adj| && |count| == |adj| && u < |adj| && j <= |adj[u]| && v < |adj|
  {
    count[v] == (PredSum(adj, dist, count, done, v, |adj|) + Partial(adj, dist, count, u, j, v)) % SizeLimit
  }

  ghost predicate Counts(adj: Adjacency, s: nat, st: BfsState, u: nat, j: nat)
    requires |st.visited| == |adj| && |st.dist| == |adj| && |st.count| == |adj|
    requires u < |adj| && j <= |adj[u]|
  {
    forall v {:trigger CountOk(adj, st.dist, st.count, st.done, u, j, v)} :: 0 <= v < |adj| && st.visited[v] && v != s ==>
      CountOk(adj, st.dist, st.count, st.done, u, j, v)
  }

  /** Invariant of the outer loop, between two vertices taken from the queue. */
  ghost predicate OuterInv(adj: Adjacency, mask: seq<bool>, s: nat, st: BfsState) {
    Basics(adj, mask, s, st) &&
    QueueShape(|adj|, st, st.done) &&
    (st.queue != [] ==>
       (forall x :: x in st.done ==> st.dist[x] <= st.dist[st.queue[0]]) &&
       (forall i :: 0 <= i < |st.queue| ==> st.dist[st.queue[i]] <= st.dist[st.queue[0]] + 1)) &&
    Parents(adj, s, st, st.done) &&
    AllClosed(adj, mask, st.visited, st.dist, st.done) &&
    Counts(adj, s, st, s, 0)
  }

  /** Invariant of the inner loop, while the first j entries of u's list have been scanned. */
  ghost predicate InnerInv(adj: Adjacency, mask: seq<bool>, s: nat, u: nat, j: nat, st: BfsState) {
    Basics(adj, mask, s, st) &&
    u < |adj| && j <= |adj[u]| && st.visited[u] && u !in st.done &&
    QueueShape(|adj|, st, st.done + {u}) &&
    (forall x :: x in st.done ==> st.dist[x] <= st.dist[u]) &&
    (forall i :: 0 <= i < |st.queue| ==> st.dist[u] <= st.dist[st.queue[i]] <= st.dist[u] + 1) &&
    Parents(adj, s, st, st.done + {u}) &&
    AllClosed(adj, mask, st.visited, st.dist, st.done) &&
    Closed(adj, mask, st.visited, st.dist, u, j) &&
    Counts(adj, s, st, u, j)
  }

  /** Breadth-first search from the unmasked source s: distances and path counts modulo
      the size_t range, through unmasked vertices only. */
  method ShortestPathsFrom(g: Graph, mask: seq<bool>, s: nat) returns (distance: seq<nat>, pathCount: seq<nat>)
    requires g.Valid() && |mask| == g.n && s < g.n && !mask[s]
    ensures BfsSpec(g.neighbours, mask, s, distance, pathCount)
  {
    ghost var adj := g.neighbours;
    var n := g.n;
    var isVisited: seq<bool> := seq(n, _ => false);
    pathCount := seq(n, _ => 0 as nat);
    distance := seq(n, _ => 0 as nat);
    var toBeProcessed := [s];
    isVisited := isVisited[s := true];
    pathCount := pathCount[s := 1];
    distance := distance[s := 0];
    ghost var st := BfsState(isVisited, distance, pathCount, toBeProcessed, {}, seq(n, _ => 0 as nat));
    InitialState(adj, mask, s, st);
    while toBeProcessed != []
      invariant isVisited == st.visited && distance == st.dist && pathCount == st.count && toBeProcessed == st.queue
      invariant OuterInv(adj, mask, s, st)
      invariant |st.done| <= n
      decreases n - |st.done|
    {
      var currVertex := toBeProcessed[0];
      toBeProcessed := toBeProcessed[1..];
      PopStep(adj, mask, s, st);
      st := st.(queue := toBeProcessed);
      isVisited, distance, pathCount, toBeProcessed, st :=
        ScanNeighbours(g, mask, s, currVertex, isVisited, distance, pathCount, toBeProcessed, st);
      FinishStep(adj, mask, s, currVertex, st);
      st := st.(done := st.done + {currVertex});
    }
    FinalState(adj, mask, s, st);
  }

  /** The inner loop of the search: every entry of u's list is scanned; a masked entry
      is skipped, an unvisited one is discovered one step further than u with u's count
      and queued, and one already one step further gets u's count added to its own. */
  method ScanNeighbours(g: Graph, mask: seq<bool>, s: nat, u: nat, isVisited: seq<bool>, distance: seq<nat>,
                        pathCount: seq<nat>, toBeProcessed: seq<nat>, ghost st: BfsState)
    returns (isVisited': seq<bool>, distance': seq<nat>, pathCount': seq<nat>, toBeProcessed': seq<nat>, ghost st': BfsState)
    requires g.Valid() && InnerInv(g.neighbours, mask, s, u, 0, st)
    requires isVisited == st.visited && distance == st.dist && pathCount == st.count && toBeProcessed == st.queue
    ensures InnerInv(g.neighbours, mask, s, u, |g.neighbours[u]|, st') && st'.done == st.done
    ensures isVisited' == st'.visited && distance' == st'.dist && pathCount' == st'.count && toBeProcessed' == st'.queue
  {
    ghost var adj := g.neighbours;
    isVisited', distance', pathCount', toBeProcessed', st' := isVisited, distance, pathCount, toBeProcessed, st;
    var nbrs := g.GetNeighbours(u);
    var j := 0;
    while j < |nbrs|
      invariant nbrs == adj[u] && j <= |nbrs| && st'.done == st.done
      invariant isVisited' == st'.visited && distance' == st'.dist && pathCount' == st'.count && toBeProcessed' == st'.queue
      invariant InnerInv(adj, mask, s, u, j, st')
    {
      var neighbour := nbrs[j];
      ScanStep(adj, mask, s, u, j, st');
      if mask[neighbour] {
      } else if !isVisited'[neighbour] {
        isVisited' := isVisited'[neighbour := true];
        toBeProcessed' := toBeProcessed' + [neighbour];
        distance' := distance'[neighbour := distance'[u] + 1];
        pathCount' := pathCount'[neighbour := pathCount'[u]];
      } else if distance'[neighbour] == distance'[u] + 1 {
        pathCount' := pathCount'[neighbour := AddSize(pathCount'[neighbour], pathCount'[u])];
      }
      st' := Scanned(adj, mask, u, j, st');
      j := j + 1;
    }
  }

  /** The state after the entry j of u's list is scanned. */
  ghost function Scanned(adj: Adjacency, mask: seq<bool>, u: nat, j: nat, st: BfsState): BfsState
    requires WellFormed(|adj|, adj) && |mask| == |adj| && u < |adj| && j < |adj[u]|
    requires |st.visited| == |adj| && |st.dist| == |adj| && |st.count| == |adj| && |st.parent| == |adj|
  {
    var w := adj[u][j];
    if mask[w] then st
    else if !st.visited[w] then Discovered(st, u, w)
    else if st.dist[w] == st.dist[u] + 1 then Relaxed(st, u, w)
    else st
  }

  /** The state after w, an unvisited entry of u's list, is discovered from u. */
  ghost function Discovered(st: BfsState, u: nat, w: nat): BfsState
    requires u < |st.dist| && u < |st.count| && w < |st.visited| && w < |st.dist| && w < |st.count| && w < |st.parent|
  {
    BfsState(st.visited[w := true], st.dist[w := st.dist[u] + 1], st.count[w := st.count[u]],
             st.queue + [w], st.done, st.parent[w := u])
  }

  /** The state after u's count is added to that of w, one step further from the source. */
  ghost function Relaxed(st: BfsState, u: nat, w: nat): BfsState
    requires u < |st.count| && w < |st.count|
  {
    st.(count := st.count[w := AddSize(st.count[w], st.count[u])])
  }

  // ---------------------------------------------------------------------------
  // Steps of the search

  lemma OccurrencesPrefix(list: seq<nat>, j: nat, v: nat)
    requires j < |list|
    ensures Occurrences(list[..j + 1], v) == Occurrences(list[..j], v) + (if list[j] == v then 1 else 0)
  {
    assert list[..j + 1][..j] == list[..j];
  }

  lemma {:induction false} OccurrencesAbsent(list: seq<nat>, v: nat)
    requires v !in list
    ensures Occurrences(list, v) == 0
  {
    if list != [] {
      OccurrencesAbsent(list[..|list| - 1], v);
    }
  }

  lemma {:induction false} PredSumZero(adj: Adjacency, dist: seq<nat>, count: seq<nat>, from: set<nat>, v: nat, k: nat)
    requires k <= |adj| && k <= |dist| && k <= |count| && v < |dist|
    requires forall x :: 0 <= x < k && x in from ==> v !in adj[x]
    ensures PredSum(adj, dist, count, from, v, k) == 0
  {
    if k > 0 {
      PredSumZero(adj, dist, count, from, v, k - 1);
      if k - 1 in from {
        OccurrencesAbsent(adj[k - 1], v);
      }
    }
  }

  lemma {:induction false} PredSumAdd(adj: Adjacency, dist: seq<nat>, count: seq<nat>, from: set<nat>, u: nat, v: nat, k: nat)
    requires k <= |adj| && k <= |dist| && k <= |count| && v < |dist| && u < |adj| && u < |dist| && u < |count|
    requires u !in from
    ensures PredSum(adj, dist, count, from + {u}, v, k) ==
            PredSum(adj, dist, count, from, v, k) +
            (if u < k && dist[u] + 1 == dist[v] then Occurrences(adj[u], v) * count[u] else 0)
  {
    if k > 0 {
      PredSumAdd(adj, dist, count, from, u, v, k - 1);
    }
  }

  lemma ModAdd(a: nat, b: nat)
    ensures (a % SizeLimit + b) % SizeLimit == (a + b) % SizeLimit
  {
  }

  lemma {:induction false} SubsetCard(xs: set<nat>, n: nat)
    requires forall x :: x in xs ==> x < n
    ensures |xs| <= n
  {
    if n > 0 {
      SubsetCard(xs - {n - 1}, n - 1);
    } else {
      assert xs == {};
    }
  }

  lemma PartialNone(adj: Adjacency, dist: seq<nat>, count: seq<nat>, u: nat, v: nat)
    requires u < |adj| && u < |dist| && v < |dist| && u < |count|
    ensures Partial(adj, dist, count, u, 0, v) == 0
  {
    assert adj[u][..0] == [];
  }

  lemma InitialState(adj: Adjacency, mask: seq<bool>, s: nat, st: BfsState)
    requires WellFormed(|adj|, adj) && |mask| == |adj| && s < |adj| && !mask[s]
    requires |st.visited| == |adj| && |st.dist| == |adj| && |st.count| == |adj| && |st.parent| == |adj|
    requires forall v :: 0 <= v < |adj| ==> st.visited[v] == (v == s) && st.dist[v] == 0
    requires forall v :: 0 <= v < |adj| ==> st.count[v] == if v == s then 1 else 0
    requires st.queue == [s] && st.done == {}
    ensures OuterInv(adj, mask, s, st)
  {
  }

  // The path-count part of the invariants, one lemma per kind of step, each
  // with only the facts it needs.

  lemma CountsRebase(adj: Adjacency, s: nat, st: BfsState, u: nat, u': nat)
    requires |st.visited| == |adj| && |st.dist| == |adj| && |st.count| == |adj| && u < |adj| && u' < |adj|
    requires Counts(adj, s, st, u, 0)
    ensures Counts(adj, s, st, u', 0)
  {
    forall v | 0 <= v < |adj| && st.visited[v] && v != s
      ensures CountOk(adj, st.dist, st.count, st.done, u', 0, v)
    {
      assert CountOk(adj, st.dist, st.count, st.done, u, 0, v);
      PartialNone(adj, st.dist, st.count, u, v);
      PartialNone(adj, st.dist, st.count, u', v);
    }
  }

  lemma CountsSkip(adj: Adjacency, s: nat, st: BfsState, u: nat, j: nat)
    requires |st.visited| == |adj| && |st.dist| == |adj| && |st.count| == |adj| && u < |adj| && j < |adj[u]|
    requires adj[u][j] < |adj|
    requires !(st.visited[adj[u][j]] && adj[u][j] != s && st.dist[adj[u][j]] == st.dist[u] + 1)
    requires Counts(adj, s, st, u, j)
    ensures Counts(adj, s, st, u, j + 1)
  {
    forall v | 0 <= v < |adj| && st.visited[v] && v != s
      ensures CountOk(adj, st.dist, st.count, st.done, u, j + 1, v)
    {
      assert CountOk(adj, st.dist, st.count, st.done, u, j, v);
      PartialStep(adj, st.dist, st.count, u, j, v);
    }
  }

  lemma CountsRelax(adj: Adjacency, s: nat, st: BfsState, u: nat, j: nat)
    requires |st.visited| == |adj| && |st.dist| == |adj| && |st.count| == |adj| && u < |adj| && j < |adj[u]|
    requires adj[u][j] < |adj| && adj[u][j] != u && adj[u][j] !in st.done
    requires st.dist[adj[u][j]] == st.dist[u] + 1
    requires Counts(adj, s, st, u, j)
    ensures Counts(adj, s, Relaxed(st, u, adj[u][j]), u, j + 1)
  {
    forall v | 0 <= v < |adj| && st.visited[v] && v != s
      ensures CountOk(adj, st.dist, Relaxed(st, u, adj[u][j]).count, st.done, u, j + 1, v)
    {
      assert CountOk(adj, st.dist, st.count, st.done, u, j, v);
      RelaxOne(adj, st.dist, st.count, st.done, u, j, v);
    }
  }

  lemma RelaxOne(adj: Adjacency, dist: seq<nat>, count: seq<nat>, done: set<nat>, u: nat, j: nat, v: nat)
    requires |dist| == |adj| && |count| == |adj| && u < |adj| && j < |adj[u]| && v < |adj|
    requires adj[u][j] < |adj| && adj[u][j] != u && adj[u][j] !in done && dist[adj[u][j]] == dist[u] + 1
    requires CountOk(adj, dist, count, done, u, j, v)
    ensures CountOk(adj, dist, count[adj[u][j] := AddSize(count[adj[u][j]], count[u])], done, u, j + 1, v)
  {
    var w := adj[u][j];
    var count' := count[w := AddSize(count[w], count[u])];
    var sum := PredSum(adj, dist, count, done, v, |adj|);
    var share := Partial(adj, dist, count, u, j, v);
    assert count[v] == (sum + share) % SizeLimit;
    PredSumFrame(adj, dist, count, dist, count', done, v, |adj|);
    assert PredSum(adj, dist, count', done, v, |adj|) == sum;
    assert Partial(adj, dist, count', u, j, v) == share by {
      assert count'[u] == count[u];
    }
    PartialStep(adj, dist, count', u, j, v);
    if v == w {
      assert Partial(adj, dist, count', u, j + 1, v) == share + count[u];
      ModAdd(sum + share, count[u]);
      assert count'[v] == ((sum + share) % SizeLimit + count[u]) % SizeLimit;
    } else {
      assert Partial(adj, dist, count', u, j + 1, v) == share;
      assert count'[v] == count[v];
    }
  }


  lemma CountsDiscover(adj: Adjacency, s: nat, st: BfsState, u: nat, j: nat)
    requires |st.visited| == |adj| && |st.dist| == |adj| && |st.count| == |adj| && |st.parent| == |adj|
    requires u < |adj| && j < |adj[u]|
    requires adj[u][j] < |adj| && adj[u][j] != s && adj[u][j] != u && adj[u][j] !in st.done
    requires st.count[u] < SizeLimit
    requires forall x :: 0 <= x < |adj| && x in st.done ==> adj[u][j] !in adj[x]
    requires adj[u][j] !in adj[u][..j]
    requires Counts(adj, s, st, u, j)
    ensures Counts(adj, s, Discovered(st, u, adj[u][j]), u, j + 1)
  {
    var w := adj[u][j];
    var st' := Discovered(st, u, w);
    var visited', dist', count' := st'.visited, st'.dist, st'.count;
    forall v | 0 <= v < |adj| && visited'[v] && v != s
      ensures CountOk(adj, dist', count', st.done, u, j + 1, v)
    {
      PartialStep(adj, dist', count', u, j, v);
      if v == w {
        PredSumZero(adj, dist', count', st.done, v, |adj|);
        OccurrencesAbsent(adj[u][..j], w);
      } else {
        assert CountOk(adj, st.dist, st.count, st.done, u, j, v);
        PartialStep(adj, st.dist, st.count, u, j, v);
        PredSumFrame(adj, st.dist, st.count, dist', count', st.done, v, |adj|);
      }
    }
  }

  lemma CountsFinish(adj: Adjacency, s: nat, st: BfsState, u: nat)
    requires |st.visited| == |adj| && |st.dist| == |adj| && |st.count| == |adj| && u < |adj| && u !in st.done
    requires s < |adj| && Counts(adj, s, st, u, |adj[u]|)
    ensures Counts(adj, s, st.(done := st.done + {u}), s, 0)
  {
    forall v | 0 <= v < |adj| && st.visited[v] && v != s
      ensures CountOk(adj, st.dist, st.count, st.done + {u}, s, 0, v)
    {
      assert CountOk(adj, st.dist, st.count, st.done, u, |adj[u]|, v);
      PredSumAdd(adj, st.dist, st.count, st.done, u, v, |adj|);
      assert adj[u][..|adj[u]|] == adj[u];
      PartialNone(adj, st.dist, st.count, s, v);
    }
  }

  lemma CountsFinal(adj: Adjacency, s: nat, st: BfsState)
    requires |st.visited| == |adj| && |st.dist| == |adj| && |st.count| == |adj| && s < |adj|
    requires Counts(adj, s, st, s, 0)
    ensures forall v :: 0 <= v < |adj| && st.visited[v] && v != s ==>
              st.count[v] == PredSum(adj, st.dist, st.count, st.done, v, |adj|) % SizeLimit
  {
    forall v | 0 <= v < |adj| && st.visited[v] && v != s
      ensures st.count[v] == PredSum(adj, st.dist, st.count, st.done, v, |adj|) % SizeLimit
    {
      assert CountOk(adj, st.dist, st.count, st.done, s, 0, v);
      PartialNone(adj, st.dist, st.count, s, v);
    }
  }

  // The search steps

  lemma PopStep(adj: Adjacency, mask: seq<bool>, s: nat, st: BfsState)
    requires OuterInv(adj, mask, s, st) && st.queue != []
    ensures InnerInv(adj, mask, s, st.queue[0], 0, st.(queue := st.queue[1..]))
  {
    PopQueue(adj, mask, s, st);
    CountsRebase(adj, s, st, s, st.queue[0]);
  }

  lemma PopQueue(adj: Adjacency, mask: seq<bool>, s: nat, st: BfsState)
    requires OuterInv(adj, mask, s, st) && st.queue != []
    ensures var st' := st.(queue := st.queue[1..]);
            QueueShape(|adj|, st', st.done + {st.queue[0]}) &&
            forall i :: 0 <= i < |st'.queue| ==> st.dist[st.queue[0]] <= st.dist[st'.queue[i]] <= st.dist[st.queue[0]] + 1
  {
    var u := st.queue[0];
    var st' := st.(queue := st.queue[1..]);
    forall v | 0 <= v < |adj|
      ensures st.visited[v] <==> v in st.done + {u} || v in st'.queue
    {
      assert v in st.queue <==> v == u || v in st'.queue;
    }
  }

  /** Entry j of u's list is w: each count's share from u grows exactly when v is w. */
  lemma PartialStep(adj: Adjacency, dist: seq<nat>, count: seq<nat>, u: nat, j: nat, v: nat)
    requires u < |adj| && j < |adj[u]| && u < |dist| && v < |dist| && u < |count|
    ensures Partial(adj, dist, count, u, j + 1, v) ==
            Partial(adj, dist, count, u, j, v) + (if adj[u][j] == v && dist[u] + 1 == dist[v] then count[u] else 0)
  {
    OccurrencesPrefix(adj[u], j, v);
    var o := Occurrences(adj[u][..j], v);
    assert (o + 1) * count[u] == o * count[u] + count[u];
  }

  lemma ClosedStep(adj: Adjacency, mask: seq<bool>, visited: seq<bool>, dist: seq<nat>, u: nat, j: nat)
    requires WellFormed(|adj|, adj) && |mask| == |adj| && |visited| == |adj| && |dist| == |adj|
    requires u < |adj| && j < |adj[u]|
    requires Closed(adj, mask, visited, dist, u, j) && EntryOk(adj, mask, visited, dist, u, j)
    ensures Closed(adj, mask, visited, dist, u, j + 1)
  {
  }

  lemma ScanStep(adj: Adjacency, mask: seq<bool>, s: nat, u: nat, j: nat, st: BfsState)
    requires InnerInv(adj, mask, s, u, j, st) && j < |adj[u]|
    ensures InnerInv(adj, mask, s, u, j + 1, Scanned(adj, mask, u, j, st))
  {
    var w := adj[u][j];
    if mask[w] {
      SkipStep(adj, mask, s, u, j, st);
    } else if !st.visited[w] {
      DiscoverStep(adj, mask, s, u, j, st);
    } else if st.dist[w] == st.dist[u] + 1 {
      RelaxStep(adj, mask, s, u, j, st);
    } else {
      SkipStep(adj, mask, s, u, j, st);
    }
  }

  lemma SkipStep(adj: Adjacency, mask: seq<bool>, s: nat, u: nat, j: nat, st: BfsState)
    requires InnerInv(adj, mask, s, u, j, st) && j < |adj[u]|
    requires mask[adj[u][j]] || (st.visited[adj[u][j]] && st.dist[adj[u][j]] != st.dist[u] + 1)
    ensures InnerInv(adj, mask, s, u, j + 1, st)
  {
    var w := adj[u][j];
    if !mask[w] {
      assert w in st.done || w == u || w in st.queue;
    }
    ClosedStep(adj, mask, st.visited, st.dist, u, j);
    CountsSkip(adj, s, st, u, j);
  }

  lemma DiscoverStep(adj: Adjacency, mask: seq<bool>, s: nat, u: nat, j: nat, st: BfsState)
    requires InnerInv(adj, mask, s, u, j, st) && j < |adj[u]|
    requires !mask[adj[u][j]] && !st.visited[adj[u][j]]
    ensures InnerInv(adj, mask, s, u, j + 1, Discovered(st, u, adj[u][j]))
  {
    var w := adj[u][j];
    DiscoverShape(adj, mask, s, u, j, st);
    DiscoverClosed(adj, mask, s, u, j, st);
    forall x | 0 <= x < |adj| && x in st.done
      ensures w !in adj[x]
    {
      forall e | 0 <= e < |adj[x]|
        ensures adj[x][e] != w
      {
        assert EntryOk(adj, mask, st.visited, st.dist, x, e);
      }
    }
    forall e | 0 <= e < j
      ensures adj[u][..j][e] != w
    {
      assert EntryOk(adj, mask, st.visited, st.dist, u, e);
    }
    CountsDiscover(adj, s, st, u, j);
  }

  lemma DiscoverShape(adj: Adjacency, mask: seq<bool>, s: nat, u: nat, j: nat, st: BfsState)
    requires InnerInv(adj, mask, s, u, j, st) && j < |adj[u]|
    requires !mask[adj[u][j]] && !st.visited[adj[u][j]]
    ensures var st' := Discovered(st, u, adj[u][j]);
            Basics(adj, mask, s, st') && QueueShape(|adj|, st', st.done + {u}) &&
            (forall x :: x in st'.done ==> st'.dist[x] <= st'.dist[u]) &&
            (forall i :: 0 <= i < |st'.queue| ==> st'.dist[u] <= st'.dist[st'.queue[i]] <= st'.dist[u] + 1) &&
            Parents(adj, s, st', st.done + {u})
  {
    var w := adj[u][j];
    var st' := Discovered(st, u, w);
    DiscoverQueue(adj, mask, s, u, j, st);
    assert Parents(adj, s, st', st.done + {u}) by {
      assert adj[u][j] == w;
    }
  }

  lemma DiscoverQueue(adj: Adjacency, mask: seq<bool>, s: nat, u: nat, j: nat, st: BfsState)
    requires InnerInv(adj, mask, s, u, j, st) && j < |adj[u]|
    requires !mask[adj[u][j]] && !st.visited[adj[u][j]]
    ensures var st' := Discovered(st, u, adj[u][j]);
            Basics(adj, mask, s, st') && QueueShape(|adj|, st', st.done + {u}) &&
            (forall x :: x in st'.done ==> st'.dist[x] <= st'.dist[u]) &&
            (forall i :: 0 <= i < |st'.queue| ==> st'.dist[u] <= st'.dist[st'.queue[i]] <= st'.dist[u] + 1)
  {
    DiscoverBasics(adj, mask, s, u, j, st);
    QueueAppend(adj, u, adj[u][j], st);
  }

  /** Queueing an unvisited w one step further than u keeps the queue's shape. */
  lemma QueueAppend(adj: Adjacency, u: nat, w: nat, st: BfsState)
    requires |st.visited| == |adj| && |st.dist| == |adj| && |st.count| == |adj| && |st.parent| == |adj|
    requires u < |adj| && w < |adj| && !st.visited[w] && st.visited[u] && u !in st.done
    requires QueueShape(|adj|, st, st.done + {u})
    requires forall x :: x in st.done ==> st.dist[x] <= st.dist[u]
    requires forall i :: 0 <= i < |st.queue| ==> st.dist[u] <= st.dist[st.queue[i]] <= st.dist[u] + 1
    ensures var st' := Discovered(st, u, w);
            QueueShape(|adj|, st', st.done + {u}) &&
            (forall x :: x in st'.done ==> st'.dist[x] <= st'.dist[u]) &&
            (forall i :: 0 <= i < |st'.queue| ==> st'.dist[u] <= st'.dist[st'.queue[i]] <= st'.dist[u] + 1)
  {
    var st' := Discovered(st, u, w);
    assert w !in st.queue;
    forall v | 0 <= v < |adj|
      ensures st'.visited[v] <==> v in st.done + {u} || v in st'.queue
    {
      assert v in st'.queue <==> v in st.queue || v == w;
    }
  }

  lemma DiscoverBasics(adj: Adjacency, mask: seq<bool>, s: nat, u: nat, j: nat, st: BfsState)
    requires InnerInv(adj, mask, s, u, j, st) && j < |adj[u]|
    requires !mask[adj[u][j]] && !st.visited[adj[u][j]]
    ensures Basics(adj, mask, s, Discovered(st, u, adj[u][j]))
  {
  }

  lemma DiscoverClosed(adj: Adjacency, mask: seq<bool>, s: nat, u: nat, j: nat, st: BfsState)
    requires InnerInv(adj, mask, s, u, j, st) && j < |adj[u]|
    requires !mask[adj[u][j]] && !st.visited[adj[u][j]]
    ensures var st' := Discovered(st, u, adj[u][j]);
            AllClosed(adj, mask, st'.visited, st'.dist, st.done) && Closed(adj, mask, st'.visited, st'.dist, u, j + 1)
  {
    var w := adj[u][j];
    var visited', dist' := Discovered(st, u, w).visited, Discovered(st, u, w).dist;
    forall x, e | x in st.done && x < |adj| && 0 <= e < |adj[x]|
      ensures EntryOk(adj, mask, visited', dist', x, e)
    {
      assert EntryOk(adj, mask, st.visited, st.dist, x, e);
    }
    forall e | 0 <= e < j + 1
      ensures EntryOk(adj, mask, visited', dist', u, e)
    {
      if e < j {
        assert EntryOk(adj, mask, st.visited, st.dist, u, e);
      }
    }
  }

  lemma RelaxStep(adj: Adjacency, mask: seq<bool>, s: nat, u: nat, j: nat, st: BfsState)
    requires InnerInv(adj, mask, s, u, j, st) && j < |adj[u]|
    requires !mask[adj[u][j]] && st.visited[adj[u][j]] && st.dist[adj[u][j]] == st.dist[u] + 1
    ensures InnerInv(adj, mask, s, u, j + 1, Relaxed(st, u, adj[u][j]))
  {
    var w := adj[u][j];
    assert w !in st.done && w != u;
    ClosedStep(adj, mask, st.visited, st.dist, u, j);
    CountsRelax(adj, s, st, u, j);
  }

  lemma FinishStep(adj: Adjacency, mask: seq<bool>, s: nat, u: nat, st: BfsState)
    requires u < |adj| && InnerInv(adj, mask, s, u, |adj[u]|, st)
    ensures OuterInv(adj, mask, s, st.(done := st.done + {u}))
    ensures |st.done + {u}| == |st.done| + 1 <= |adj|
  {
    FinishQueue(adj, mask, s, u, st);
    FinishLinks(adj, mask, s, u, st);
    CountsFinish(adj, s, st, u);
    SettledCard(st.done, u, |adj|);
  }

  /** Settling one more vertex of [0, n) grows the settled set by one and keeps it within n. */
  lemma SettledCard(done: set<nat>, u: nat, n: nat)
    requires u !in done && u < n && forall x :: x in done ==> x < n
    ensures |done + {u}| == |done| + 1 <= n
  {
    SubsetCard(done + {u}, n);
  }

  lemma FinishQueue(adj: Adjacency, mask: seq<bool>, s: nat, u: nat, st: BfsState)
    requires u < |adj| && InnerInv(adj, mask, s, u, |adj[u]|, st)
    ensures var st' := st.(done := st.done + {u});
            Basics(adj, mask, s, st') && QueueShape(|adj|, st', st'.done) &&
            (st'.queue != [] ==>
               (forall x :: x in st'.done ==> st'.dist[x] <= st'.dist[st'.queue[0]]) &&
               (forall i :: 0 <= i < |st'.queue| ==> st'.dist[st'.queue[i]] <= st'.dist[st'.queue[0]] + 1))
  {
  }

  lemma FinishLinks(adj: Adjacency, mask: seq<bool>, s: nat, u: nat, st: BfsState)
    requires u < |adj| && InnerInv(adj, mask, s, u, |adj[u]|, st)
    ensures var st' := st.(done := st.done + {u});
            Parents(adj, s, st', st'.done) && AllClosed(adj, mask, st'.visited, st'.dist, st'.done)
  {
  }

  lemma FinalReached(adj: Adjacency, mask: seq<bool>, s: nat, st: BfsState)
    requires OuterInv(adj, mask, s, st) && st.queue == []
    ensures forall v :: 0 <= v < |adj| ==> (st.visited[v] <==> Reached(s, st.dist, v))
    ensures ReachedSet(s, st.dist) == st.done
  {
    forall v | 0 <= v < |adj|
      ensures st.visited[v] <==> Reached(s, st.dist, v)
    {
    }
  }

  lemma FinalLinks(adj: Adjacency, mask: seq<bool>, s: nat, st: BfsState)
    requires OuterInv(adj, mask, s, st) && st.queue == []
    requires forall v :: 0 <= v < |adj| ==> (st.visited[v] <==> Reached(s, st.dist, v))
    ensures forall v :: 0 <= v < |adj| && v != s && Reached(s, st.dist, v) ==>
              exists u :: 0 <= u < |adj| && Reached(s, st.dist, u) && st.dist[u] + 1 == st.dist[v] && v in adj[u]
    ensures forall u, e :: 0 <= u < |adj| && Reached(s, st.dist, u) && 0 <= e < |adj[u]| && !mask[adj[u][e]] ==>
              Reached(s, st.dist, adj[u][e]) && st.dist[adj[u][e]] <= st.dist[u] + 1
  {
    forall v | 0 <= v < |adj| && v != s && Reached(s, st.dist, v)
      ensures exists u :: 0 <= u < |adj| && Reached(s, st.dist, u) && st.dist[u] + 1 == st.dist[v] && v in adj[u]
    {
      var u := st.parent[v];
      assert Reached(s, st.dist, u);
    }
    forall u, e | 0 <= u < |adj| && Reached(s, st.dist, u) && 0 <= e < |adj[u]| && !mask[adj[u][e]]
      ensures Reached(s, st.dist, adj[u][e]) && st.dist[adj[u][e]] <= st.dist[u] + 1
    {
      assert EntryOk(adj, mask, st.visited, st.dist, u, e);
    }
  }

  lemma FinalState(adj: Adjacency, mask: seq<bool>, s: nat, st: BfsState)
    requires OuterInv(adj, mask, s, st) && st.queue == []
    ensures BfsSpec(adj, mask, s, st.dist, st.count)
  {
    FinalReached(adj, mask, s, st);
    FinalLinks(adj, mask, s, st);
    CountsFinal(adj, s, st);
    forall v | 0 <= v < |adj| && v != s && Reached(s, st.dist, v)
      ensures CountSum(adj, s, st.dist, st.count, v)
    {
    }
  }
}
