/** The exact group betweenness scorer: the path counts are computed once without a
    mask and once with the group masked, and every pair i < j contributes the share of
    its shortest paths that the group removes. Scores are exact reals. */
module Scoring {
  import opened Graphs
  import opened PathCounts

  /** The mask of a search that forbids nothing, which is also the group marking nothing. */
  function NoMask(n: nat): (mask: seq<bool>)
    ensures |mask| == n && forall v :: 0 <= v < n ==> !mask[v]
  {
    EffectiveMask([], n)
  }

  predicate Square(n: nat, m: seq<seq<nat>>) {
    |m| == n && forall i :: 0 <= i < n ==> |m[i]| == n
  }

  /** The four matrices the scorer compares: the baseline distances and counts, and
      those computed with the group masked. */
  datatype Runs = Runs(d0: seq<seq<nat>>, p0: seq<seq<nat>>, d: seq<seq<nat>>, p: seq<seq<nat>>)

  /** Every baseline count above the diagonal is nonzero: each division is defined. */
  predicate Denominators(n: nat, p0: seq<seq<nat>>) {
    Square(n, p0) && forall i, j :: 0 <= i < j < n ==> p0[i][j] != 0
  }

  /** The runs are n x n and every division the scorer makes is defined. */
  predicate Scorable(n: nat, runs: Runs) {
    Square(n, runs.d0) && Denominators(n, runs.p0) && Square(n, runs.d) && Square(n, runs.p)
  }

  /** The runs are what calculatePathCounts yields on the lists, unmasked and masked by the group. */
  ghost predicate RunsOf(adj: Adjacency, isInGroup: seq<bool>, runs: Runs) {
    PathCountsSpec(adj, NoMask(|adj|), runs.d0, runs.p0) &&
    PathCountsSpec(adj, EffectiveMask(isInGroup, |adj|), runs.d, runs.p)
  }

  /** The graph is connected and no pair has 2^64 or more shortest paths, so the baseline
      count of every pair is nonzero. */
  ghost predicate CountsNonzero(adj: Adjacency) {
    forall d0, p0 :: PathCountsSpec(adj, NoMask(|adj|), d0, p0) ==>
      forall i, j :: 0 <= i < j < |adj| ==> p0[i][j] != 0
  }

  /** What the pair i < j adds: 1 when j is in the group, otherwise, when masking the
      group left its distance unchanged, the share of its baseline paths that masking
      removed (in size_t arithmetic), and nothing when the distance changed. */
  function PairScore(n: nat, isInGroup: seq<bool>, runs: Runs, i: nat, j: nat): (r: real)
    requires Scorable(n, runs) && |isInGroup| >= n && i < j < n
    ensures r >= 0.0
  {
    if isInGroup[j] then 1.0
    else if runs.d0[i][j] == runs.d[i][j] then SubSize(runs.p0[i][j], runs.p[i][j]) as real / runs.p0[i][j] as real
    else 0.0
  }

  /** The pairs (i, j') with i < j' < j. */
  function RowScore(n: nat, isInGroup: seq<bool>, runs: Runs, i: nat, j: nat): (r: real)
    requires Scorable(n, runs) && |isInGroup| >= n && i < j <= n
    ensures r >= 0.0
    decreases j
  {
    if j == i + 1 then 0.0
    else RowScore(n, isInGroup, runs, i, j - 1) + PairScore(n, isInGroup, runs, i, j - 1)
  }

  /** What vertex i adds: n - 1 when it is in the group, its row of pairs otherwise. */
  function VertexScore(n: nat, isInGroup: seq<bool>, runs: Runs, i: nat): (r: real)
    requires Scorable(n, runs) && |isInGroup| >= n && i < n
    ensures r >= 0.0
  {
    if isInGroup[i] then (n - 1) as real else RowScore(n, isInGroup, runs, i, n)
  }

  /** The vertices i < k. */
  function PrefixScore(n: nat, isInGroup: seq<bool>, runs: Runs, k: nat): (r: real)
    requires Scorable(n, runs) && |isInGroup| >= n && k < n
    ensures r >= 0.0
  {
    if k == 0 then 0.0 else PrefixScore(n, isInGroup, runs, k - 1) + VertexScore(n, isInGroup, runs, k - 1)
  }

  /** The score: every vertex but the last, doubled for both directions of each pair. */
  function Gbc(n: nat, isInGroup: seq<bool>, runs: Runs): (r: real)
    requires Scorable(n, runs) && |isInGroup| >= n && n >= 1
    ensures r >= 0.0
  {
    2.0 * PrefixScore(n, isInGroup, runs, n - 1)
  }

  /** score is the Gbc of the runs calculatePathCounts yields for the group. */
  ghost predicate IsGbc(adj: Adjacency, isInGroup: seq<bool>, score: real)
    requires |adj| >= 1 && |isInGroup| >= |adj|
  {
    forall runs :: RunsOf(adj, isInGroup, runs) && Scorable(|adj|, runs) ==> score == Gbc(|adj|, isInGroup, runs)
  }

  /** The runs of a connected graph are scorable. */
  lemma RunsScorable(adj: Adjacency, isInGroup: seq<bool>, runs: Runs)
    requires RunsOf(adj, isInGroup, runs) && CountsNonzero(adj)
    ensures Scorable(|adj|, runs)
  {
    PathCountsEntries(adj, NoMask(|adj|), runs.d0, runs.p0);
    PathCountsEntries(adj, EffectiveMask(isInGroup, |adj|), runs.d, runs.p);
  }

  /** groupBetweennessCentrality: the unmasked and the group-masked searches, then the
      sum over pairs. */
  method GroupBetweennessCentrality(g: Graph, isInGroup: seq<bool>) returns (gbc: real)
    requires g.Valid() && g.n >= 1 && |isInGroup| >= g.n && CountsNonzero(g.neighbours)
    ensures IsGbc(g.neighbours, isInGroup, gbc) && gbc >= 0.0
    ensures (forall v :: 0 <= v < g.n ==> !isInGroup[v]) ==> gbc == 0.0
  {
    var initialPathCounts, initialDistances := CalculatePathCounts(g, []);
    var pathCounts, distances := CalculatePathCounts(g, isInGroup);
    ghost var runs := Runs(initialDistances, initialPathCounts, distances, pathCounts);
    assert EffectiveMask([], g.n) == NoMask(g.n);
    RunsScorable(g.neighbours, isInGroup, runs);
    gbc := SumPairs(g.n, isInGroup, initialDistances, initialPathCounts, distances, pathCounts);
    forall runs' | RunsOf(g.neighbours, isInGroup, runs') && Scorable(g.n, runs')
      ensures gbc == Gbc(g.n, isInGroup, runs')
    {
      SameRuns(g.neighbours, isInGroup, runs, runs');
    }
    if forall v :: 0 <= v < g.n ==> !isInGroup[v] {
      EmptyGroupSameRuns(g.neighbours, isInGroup, runs);
      EmptyGroupScoresZero(g.n, isInGroup, runs);
    }
  }

  /** Two runs of calculatePathCounts for the same group are the same. */
  lemma SameRuns(adj: Adjacency, isInGroup: seq<bool>, runs: Runs, runs': Runs)
    requires RunsOf(adj, isInGroup, runs) && RunsOf(adj, isInGroup, runs')
    ensures runs == runs'
  {
    PathCountsUnique(adj, NoMask(|adj|), runs.d0, runs.p0, runs'.d0, runs'.p0);
    PathCountsUnique(adj, EffectiveMask(isInGroup, |adj|), runs.d, runs.p, runs'.d, runs'.p);
  }

  /** The scoring loops of groupBetweennessCentrality: group member i adds n - 1, a
      group member j > i adds 1, and a pair whose distance masking left unchanged adds
      the share of its baseline paths that masking removed; the total is doubled. */
  method SumPairs(n: nat, isInGroup: seq<bool>, initialDistances: seq<seq<nat>>, initialPathCounts: seq<seq<nat>>,
                  distances: seq<seq<nat>>, pathCounts: seq<seq<nat>>) returns (gbc: real)
    requires n >= 1 && |isInGroup| >= n
    requires Scorable(n, Runs(initialDistances, initialPathCounts, distances, pathCounts))
    ensures gbc == Gbc(n, isInGroup, Runs(initialDistances, initialPathCounts, distances, pathCounts))
  {
    ghost var runs := Runs(initialDistances, initialPathCounts, distances, pathCounts);
    gbc := 0.0;
    var i := 0;
    while i < n - 1
      invariant i <= n - 1
      invariant gbc == PrefixScore(n, isInGroup, runs, i)
    {
      if isInGroup[i] {
        gbc := gbc + (n - 1) as real;
      } else {
        ghost var before := gbc;
        var j := i + 1;
        while j < n
          invariant i + 1 <= j <= n
          invariant gbc == before + RowScore(n, isInGroup, runs, i, j)
        {
          if isInGroup[j] {
            gbc := gbc + 1.0;
          } else if initialDistances[i][j] == distances[i][j] {
            gbc := gbc + SubSize(initialPathCounts[i][j], pathCounts[i][j]) as real / initialPathCounts[i][j] as real;
          }
          j := j + 1;
        }
      }
      i := i + 1;
    }
    gbc := gbc * 2.0;
  }

  // ---------------------------------------------------------------------------
  // Properties of the score

  /** With nothing in the group both searches agree, so no pair adds anything. */
  lemma {:induction false} EmptyGroupRows(n: nat, isInGroup: seq<bool>, runs: Runs, k: nat)
    requires Scorable(n, runs) && |isInGroup| >= n && k < n
    requires forall v :: 0 <= v < n ==> !isInGroup[v]
    requires runs.d == runs.d0 && runs.p == runs.p0
    ensures PrefixScore(n, isInGroup, runs, k) == 0.0
  {
    if k > 0 {
      EmptyGroupRows(n, isInGroup, runs, k - 1);
      EmptyGroupRow(n, isInGroup, runs, k - 1, n);
    }
  }

  lemma {:induction false} EmptyGroupRow(n: nat, isInGroup: seq<bool>, runs: Runs, i: nat, j: nat)
    requires Scorable(n, runs) && |isInGroup| >= n && i < j <= n
    requires forall v :: 0 <= v < n ==> !isInGroup[v]
    requires runs.d == runs.d0 && runs.p == runs.p0
    ensures RowScore(n, isInGroup, runs, i, j) == 0.0
    decreases j
  {
    if j > i + 1 {
      EmptyGroupRow(n, isInGroup, runs, i, j - 1);
      assert SubSize(runs.p0[i][j - 1], runs.p[i][j - 1]) == 0;
    }
  }

  /** When masking changed nothing (as with an all-false group), the score is 0. */
  lemma EmptyGroupScoresZero(n: nat, isInGroup: seq<bool>, runs: Runs)
    requires n >= 1 && |isInGroup| >= n && forall v :: 0 <= v < n ==> !isInGroup[v]
    requires Scorable(n, runs) && runs.d == runs.d0 && runs.p == runs.p0
    ensures Gbc(n, isInGroup, runs) == 0.0
  {
    EmptyGroupRows(n, isInGroup, runs, n - 1);
  }

  /** With nothing in the group the masked search is the unmasked one. */
  lemma EmptyGroupSameRuns(adj: Adjacency, isInGroup: seq<bool>, runs: Runs)
    requires |isInGroup| >= |adj| && forall v :: 0 <= v < |adj| ==> !isInGroup[v]
    requires RunsOf(adj, isInGroup, runs)
    ensures runs.d == runs.d0 && runs.p == runs.p0
  {
    assert EffectiveMask(isInGroup, |adj|) == NoMask(|adj|);
    PathCountsUnique(adj, NoMask(|adj|), runs.d0, runs.p0, runs.d, runs.p);
  }

  /** Every vertex but the last adds n - 1 when the whole vertex set is the group, so
      the score is 2 (n - 1)^2. */
  lemma {:induction false} FullGroupRows(n: nat, isInGroup: seq<bool>, runs: Runs, k: nat)
    requires Scorable(n, runs) && |isInGroup| >= n && k < n
    requires forall v :: 0 <= v < n ==> isInGroup[v]
    ensures PrefixScore(n, isInGroup, runs, k) == (k * (n - 1)) as real
  {
    if k > 0 {
      FullGroupRows(n, isInGroup, runs, k - 1);
    }
  }

  lemma FullGroupScore(n: nat, isInGroup: seq<bool>, runs: Runs)
    requires Scorable(n, runs) && |isInGroup| >= n && n >= 1
    requires forall v :: 0 <= v < n ==> isInGroup[v]
    ensures Gbc(n, isInGroup, runs) == (2 * (n - 1) * (n - 1)) as real
  {
    FullGroupRows(n, isInGroup, runs, n - 1);
  }
}
