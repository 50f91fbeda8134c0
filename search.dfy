/** mbcAux and its driver: a depth-first search over the k-subsets of the vertices
    in increasing-index order. Adding a vertex subtracts the shortest paths it covers
    from a shared working path-count matrix and scores what it covered; the recursive
    call returns and the matrix is restored. Finished groups are offered to the
    leaderboard. Counts are size_t values, so subtraction, addition and product wrap
    modulo 2^64. */
module Search {
  import opened Graphs
  import opened PathCounts
  import opened Scoring
  import opened Leaderboards
  import opened Combinations

  type Matrix = seq<seq<nat>>

  /** The baseline matrices the search reads but never writes. */
  predicate Baseline(n: nat, d0: Matrix, p0: Matrix) {
    Square(n, d0) && Denominators(n, p0)
  }

  /** A matrix of n x n size_t values. */
  predicate Working(n: nat, m: Matrix) {
    Square(n, m) && forall i, j :: 0 <= i < n && 0 <= j < n ==> m[i][j] < SizeLimit
  }

  /** The working matrix keeps the baseline's diagonal: subtracting and adding back
      covered paths only touch pairs of distinct vertices. */
  predicate SameDiagonal(n: nat, P: Matrix, p0: Matrix)
    requires Square(n, P) && Square(n, p0)
  {
    forall v :: 0 <= v < n ==> P[v][v] == p0[v][v]
  }

  /** m with entry (a, b) set to x. */
  function Put(m: Matrix, a: nat, b: nat, x: nat): Matrix
    requires a < |m| && b < |m[a]|
  {
    var row: seq<nat> := m[a][b := x];
    m[a := row]
  }

  // ---------------------------------------------------------------------------------
  // The covered matrix

  /** The paths of the pair i < j that newVertex v covers: none when an endpoint is in
      the group; when v lies on a shortest i-j path of the baseline, the product of the
      working counts i-v and v-j; otherwise, when v is an endpoint, the working count
      of the pair itself. */
  function CoveredPair(n: nat, d0: Matrix, P: Matrix, G: seq<bool>, v: nat, i: nat, j: nat): nat
    requires Square(n, d0) && Square(n, P) && |G| == n && v < n && i < j < n
  {
    if G[i] || G[j] then 0
    else if d0[i][j] == d0[i][v] + d0[v][j] then MulSize(P[i][v], P[v][j])
    else if i == v || j == v then P[i][j]
    else 0
  }

  /** The n x n matrices the search fills entry by entry: coveredPathCount for
      newVertex v, and the working matrix with covered subtracted or added back. */
  datatype MatrixOp =
    | CoverOf(d0: Matrix, P: Matrix, G: seq<bool>, v: nat)
    | Minus(P: Matrix, C: Matrix)
    | Plus(P: Matrix, C: Matrix)

  predicate Fits(n: nat, op: MatrixOp) {
    match op
    case CoverOf(d0, P, G, v) => Square(n, d0) && Square(n, P) && |G| == n && v < n
    case Minus(P, C) => Square(n, P) && Square(n, C)
    case Plus(P, C) => Square(n, P) && Square(n, C)
  }

  /** Entry (a, b): a covered pair is written at (i, j) and mirrored at (j, i) with
      the diagonal left 0; subtraction and addition are size_t arithmetic off the
      diagonal and leave the diagonal as it was. */
  function EntryOf(n: nat, op: MatrixOp, a: nat, b: nat): nat
    requires Fits(n, op) && a < n && b < n
  {
    match op
    case CoverOf(d0, P, G, v) =>
      if a < b then CoveredPair(n, d0, P, G, v, a, b)
      else if b < a then CoveredPair(n, d0, P, G, v, b, a)
      else 0
    case Minus(P, C) => if a == b then P[a][b] else SubSize(P[a][b], C[a][b])
    case Plus(P, C) => if a == b then P[a][b] else AddSize(P[a][b], C[a][b])
  }

  /** The first m entries of row a. */
  function RowOf(n: nat, op: MatrixOp, a: nat, m: nat): (row: seq<nat>)
    requires Fits(n, op) && a < n && m <= n
    ensures |row| == m && forall b :: 0 <= b < m ==> row[b] == EntryOf(n, op, a, b)
  {
    if m == 0 then [] else RowOf(n, op, a, m - 1) + [EntryOf(n, op, a, m - 1)]
  }

  /** The first m rows. */
  function RowsOf(n: nat, op: MatrixOp, m: nat): (rows: Matrix)
    requires Fits(n, op) && m <= n
    ensures |rows| == m && forall a :: 0 <= a < m ==> rows[a] == RowOf(n, op, a, n)
  {
    if m == 0 then [] else RowsOf(n, op, m - 1) + [RowOf(n, op, m - 1, n)]
  }

  /** coveredPathCount for newVertex v. */
  function Covered(n: nat, d0: Matrix, P: Matrix, G: seq<bool>, v: nat): (c: Matrix)
    requires Square(n, d0) && Square(n, P) && |G| == n && v < n
    ensures Square(n, c)
  {
    RowsOf(n, CoverOf(d0, P, G, v), n)
  }

  /** The covered matrix is symmetric, 0 on the diagonal and on every pair with an
      endpoint in the group, and holds size_t values. */
  lemma CoveredShape(n: nat, d0: Matrix, P: Matrix, G: seq<bool>, v: nat)
    requires Square(n, d0) && Working(n, P) && |G| == n && v < n
    ensures var c := Covered(n, d0, P, G, v);
      Working(n, c) &&
      (forall a, b :: 0 <= a < n && 0 <= b < n ==> c[a][b] == c[b][a]) &&
      (forall a :: 0 <= a < n ==> c[a][a] == 0) &&
      (forall a, b :: 0 <= a < n && 0 <= b < n && (G[a] || G[b]) ==> c[a][b] == 0)
  {
  }

  /** When every baseline distance d0[v][v] is 0, a pair with endpoint v is always
      decided by the first test, so the endpoint branch is never taken; with the
      working count P[v][v] = 1 the product is the pair's own count. */
  lemma EndpointBranchDead(n: nat, d0: Matrix, P: Matrix, G: seq<bool>, v: nat, i: nat, j: nat)
    requires Square(n, d0) && Working(n, P) && |G| == n && v < n && i < j < n
    requires d0[v][v] == 0 && (i == v || j == v) && !G[i] && !G[j]
    ensures d0[i][j] == d0[i][v] + d0[v][j]
    ensures P[v][v] == 1 ==> CoveredPair(n, d0, P, G, v, i, j) == P[i][j]
  {
  }

  // ---------------------------------------------------------------------------------
  // Subtracting and restoring

  /** The working matrix minus covered, off the diagonal, in size_t arithmetic. */
  function SubMat(n: nat, P: Matrix, C: Matrix): (r: Matrix)
    requires Square(n, P) && Square(n, C)
    ensures Square(n, r)
  {
    RowsOf(n, Minus(P, C), n)
  }

  /** The working matrix plus covered, off the diagonal, in size_t arithmetic. */
  function AddMat(n: nat, P: Matrix, C: Matrix): (r: Matrix)
    requires Square(n, P) && Square(n, C)
    ensures Square(n, r)
  {
    RowsOf(n, Plus(P, C), n)
  }

  /** Subtracting keeps size_t values and never touches the diagonal, and adding the
      same matrix back restores the working matrix exactly, wrap-around included. */
  lemma SubtractRestore(n: nat, P: Matrix, C: Matrix)
    requires Working(n, P) && Working(n, C)
    ensures Working(n, SubMat(n, P, C))
    ensures forall v :: 0 <= v < n ==> SubMat(n, P, C)[v][v] == P[v][v]
    ensures AddMat(n, SubMat(n, P, C), C) == P
  {
    var S := SubMat(n, P, C);
    var R := AddMat(n, S, C);
    forall a | 0 <= a < n ensures R[a] == P[a] {
      forall b | 0 <= b < n ensures R[a][b] == P[a][b] {
        if a != b {
          SubAddSize(P[a][b], C[a][b]);
        }
      }
    }
  }

  /** Subtracting the covered matrix of v leaves the diagonal alone, and adding it back
      undoes the subtraction. */
  lemma RestoreCovered(n: nat, d0: Matrix, P: Matrix, G: seq<bool>, v: nat, C: Matrix)
    requires Square(n, d0) && Working(n, P) && |G| == n && v < n && C == Covered(n, d0, P, G, v)
    ensures forall x :: 0 <= x < n ==> SubMat(n, P, C)[x][x] == P[x][x]
    ensures AddMat(n, SubMat(n, P, C), C) == P
  {
    CoveredShape(n, d0, P, G, v);
    SubtractRestore(n, P, C);
  }

  /** (x - c) + c is x modulo 2^64. */
  lemma SubAddSize(x: nat, c: nat)
    requires x < SizeLimit && c < SizeLimit
    ensures AddSize(SubSize(x, c), c) == x
  {
    if c <= x {
      assert SubSize(x, c) == x - c;
    } else {
      assert SubSize(x, c) == x - c + SizeLimit;
      assert SubSize(x, c) + c == x + SizeLimit;
    }
  }

  // ---------------------------------------------------------------------------------
  // The contribution of a new vertex

  /** What the pair i < j adds: nothing when j is in the group or its working count
      is 0, otherwise its covered paths as a share of its baseline paths. */
  function PairShare(n: nat, p0: Matrix, P: Matrix, G: seq<bool>, C: Matrix, i: nat, j: nat): (r: real)
    requires Denominators(n, p0) && Square(n, P) && Square(n, C) && |G| == n && i < j < n
    ensures r >= 0.0
  {
    if G[j] || P[i][j] == 0 then 0.0 else C[i][j] as real / p0[i][j] as real
  }

  /** The pairs (i, j') with i < j' < j. */
  function RowShare(n: nat, p0: Matrix, P: Matrix, G: seq<bool>, C: Matrix, i: nat, j: nat): (r: real)
    requires Denominators(n, p0) && Square(n, P) && Square(n, C) && |G| == n && i < j <= n
    ensures r >= 0.0
    decreases j
  {
    if j == i + 1 then 0.0
    else RowShare(n, p0, P, G, C, i, j - 1) + PairShare(n, p0, P, G, C, i, j - 1)
  }

  /** The rows i' < i whose vertex is outside the group. */
  function PrefixShare(n: nat, p0: Matrix, P: Matrix, G: seq<bool>, C: Matrix, i: nat): (r: real)
    requires Denominators(n, p0) && Square(n, P) && Square(n, C) && |G| == n && i < n
    ensures r >= 0.0
  {
    if i == 0 then 0.0
    else PrefixShare(n, p0, P, G, C, i - 1) + (if G[i - 1] then 0.0 else RowShare(n, p0, P, G, C, i - 1, n))
  }

  /** contributionToGBC: the rows 0 .. n - 2, doubled for both directions. */
  function Contribution(n: nat, p0: Matrix, P: Matrix, G: seq<bool>, C: Matrix): (r: real)
    requires Denominators(n, p0) && Square(n, P) && Square(n, C) && |G| == n && n >= 1
    ensures r >= 0.0
  {
    PrefixShare(n, p0, P, G, C, n - 1) * 2.0
  }

  // ---------------------------------------------------------------------------------
  // What the search offers to the leaderboard

  /** The (score, group) pairs mbcAux offers, in order, when entered with the working
      matrix P, the group G and the score gbc. */
  function AuxOffers(n: nat, k: nat, d0: Matrix, p0: Matrix, start: nat, depth: nat, P: Matrix, G: seq<bool>, gbc: real): (offers: seq<Entry>)
    requires Baseline(n, d0, p0) && Working(n, P) && |G| == n && depth <= k <= n
    ensures |offers| == |Combos(start, k - depth, n)|
    decreases k - depth, 2, 0
  {
    if depth == k then [(gbc, G)]
    else LoopOffers(n, k, d0, p0, start, depth, P, G, gbc, start)
  }

  /** Those of the loop iterations newVertex = v, v + 1, ..., n - k + depth. */
  function LoopOffers(n: nat, k: nat, d0: Matrix, p0: Matrix, start: nat, depth: nat, P: Matrix, G: seq<bool>, gbc: real, v: nat): (offers: seq<Entry>)
    requires Baseline(n, d0, p0) && Working(n, P) && |G| == n && depth < k <= n
    ensures |offers| == |CombosFrom(v, k - depth, n)|
    decreases k - depth, 1, n - v
  {
    if v > n - k + depth then []
    else VertexOffers(n, k, d0, p0, depth, P, G, gbc, v) + LoopOffers(n, k, d0, p0, start, depth, P, G, gbc, v + 1)
  }

  /** Those of the iteration newVertex = v: the recursive call one level down, with the
      paths v covers subtracted, v in the group and v's contribution added. */
  function VertexOffers(n: nat, k: nat, d0: Matrix, p0: Matrix, depth: nat, P: Matrix, G: seq<bool>, gbc: real, v: nat): (offers: seq<Entry>)
    requires Baseline(n, d0, p0) && Working(n, P) && |G| == n && depth < k <= n && v < n
    ensures |offers| == |Combos(v + 1, k - depth - 1, n)|
    decreases k - depth, 0, 0
  {
    var C := Covered(n, d0, P, G, v);
    AuxOffers(n, k, d0, p0, v + 1, depth + 1, SubMat(n, P, C), G[v := true], gbc + Contribution(n, p0, P, G, C))
  }

  /** The groups of a list of offers. */
  function Groups(offers: seq<Entry>): (gs: seq<seq<bool>>)
    ensures |gs| == |offers| && forall i :: 0 <= i < |offers| ==> gs[i] == offers[i].1
  {
    seq(|offers|, i requires 0 <= i < |offers| => offers[i].1)
  }

  /** G with the members of c marked. */
  function Mark(G: seq<bool>, c: seq<nat>): (g: seq<bool>)
    ensures |g| == |G| && forall x :: 0 <= x < |G| ==> (g[x] <==> G[x] || x in c)
  {
    seq(|G|, x requires 0 <= x < |G| => G[x] || x in c)
  }

  function Marks(G: seq<bool>, cs: seq<seq<nat>>): (gs: seq<seq<bool>>)
    ensures |gs| == |cs| && forall i :: 0 <= i < |cs| ==> gs[i] == Mark(G, cs[i])
  {
    seq(|cs|, i requires 0 <= i < |cs| => Mark(G, cs[i]))
  }

  /** Unfolds VertexOffers for a given covered matrix. */
  lemma VertexStep(n: nat, k: nat, d0: Matrix, p0: Matrix, depth: nat, P: Matrix, G: seq<bool>, gbc: real, v: nat,
                   C: Matrix, reduced: Matrix, contribution: real)
    requires Baseline(n, d0, p0) && Working(n, P) && |G| == n && depth < k <= n && v < n
    requires C == Covered(n, d0, P, G, v)
    requires reduced == SubMat(n, P, C) && contribution == Contribution(n, p0, P, G, C)
    ensures VertexOffers(n, k, d0, p0, depth, P, G, gbc, v) ==
      AuxOffers(n, k, d0, p0, v + 1, depth + 1, reduced, G[v := true], gbc + contribution)
  {
  }

  lemma GroupsAppend(a: seq<Entry>, b: seq<Entry>)
    ensures Groups(a + b) == Groups(a) + Groups(b)
  {
  }

  lemma MarksAppend(G: seq<bool>, a: seq<seq<nat>>, b: seq<seq<nat>>)
    ensures Marks(G, a + b) == Marks(G, a) + Marks(G, b)
  {
  }

  /** The groups mbcAux offers are G with each (k - depth)-subset of [start, n) marked,
      in lexicographic order of the subsets. */
  lemma {:induction false} AuxGroups(n: nat, k: nat, d0: Matrix, p0: Matrix, start: nat, depth: nat, P: Matrix, G: seq<bool>, gbc: real)
    requires Baseline(n, d0, p0) && Working(n, P) && |G| == n && depth <= k <= n
    ensures Groups(AuxOffers(n, k, d0, p0, start, depth, P, G, gbc)) == Marks(G, Combos(start, k - depth, n))
    decreases k - depth, 2, 0
  {
    if depth == k {
      assert Mark(G, []) == G;
    } else {
      LoopGroups(n, k, d0, p0, start, depth, P, G, gbc, start);
    }
  }

  lemma {:induction false} LoopGroups(n: nat, k: nat, d0: Matrix, p0: Matrix, start: nat, depth: nat, P: Matrix, G: seq<bool>, gbc: real, v: nat)
    requires Baseline(n, d0, p0) && Working(n, P) && |G| == n && depth < k <= n
    ensures Groups(LoopOffers(n, k, d0, p0, start, depth, P, G, gbc, v)) == Marks(G, CombosFrom(v, k - depth, n))
    decreases k - depth, 1, n - v
  {
    if v <= n - k + depth {
      var child := VertexOffers(n, k, d0, p0, depth, P, G, gbc, v);
      var rest := LoopOffers(n, k, d0, p0, start, depth, P, G, gbc, v + 1);
      var head := Combos(v + 1, k - depth - 1, n);
      VertexGroups(n, k, d0, p0, depth, P, G, gbc, v);
      LoopGroups(n, k, d0, p0, start, depth, P, G, gbc, v + 1);
      GroupsAppend(child, rest);
      MarksAppend(G, Prefixed(v, head), CombosFrom(v + 1, k - depth, n));
    }
  }

  lemma {:induction false} VertexGroups(n: nat, k: nat, d0: Matrix, p0: Matrix, depth: nat, P: Matrix, G: seq<bool>, gbc: real, v: nat)
    requires Baseline(n, d0, p0) && Working(n, P) && |G| == n && depth < k <= n && v < n
    ensures Groups(VertexOffers(n, k, d0, p0, depth, P, G, gbc, v)) == Marks(G, Prefixed(v, Combos(v + 1, k - depth - 1, n)))
    decreases k - depth, 0, 0
  {
    var C := Covered(n, d0, P, G, v);
    var head := Combos(v + 1, k - depth - 1, n);
    AuxGroups(n, k, d0, p0, v + 1, depth + 1, SubMat(n, P, C), G[v := true], gbc + Contribution(n, p0, P, G, C));
    forall i | 0 <= i < |head| ensures Mark(G, [v] + head[i]) == Mark(G[v := true], head[i]) {
    }
    assert Marks(G, Prefixed(v, head)) == Marks(G[v := true], head);
  }

  /** Every score offered is at least the score mbcAux was entered with. */
  lemma {:induction false} AuxScores(n: nat, k: nat, d0: Matrix, p0: Matrix, start: nat, depth: nat, P: Matrix, G: seq<bool>, gbc: real)
    requires Baseline(n, d0, p0) && Working(n, P) && |G| == n && depth <= k <= n
    ensures forall e :: e in AuxOffers(n, k, d0, p0, start, depth, P, G, gbc) ==> e.0 >= gbc
    decreases k - depth, 2, 0
  {
    if depth < k {
      LoopScores(n, k, d0, p0, start, depth, P, G, gbc, start);
    }
  }

  lemma {:induction false} LoopScores(n: nat, k: nat, d0: Matrix, p0: Matrix, start: nat, depth: nat, P: Matrix, G: seq<bool>, gbc: real, v: nat)
    requires Baseline(n, d0, p0) && Working(n, P) && |G| == n && depth < k <= n
    ensures forall e :: e in LoopOffers(n, k, d0, p0, start, depth, P, G, gbc, v) ==> e.0 >= gbc
    decreases k - depth, 1, n - v
  {
    if v <= n - k + depth {
      var child := VertexOffers(n, k, d0, p0, depth, P, G, gbc, v);
      var rest := LoopOffers(n, k, d0, p0, start, depth, P, G, gbc, v + 1);
      VertexScores(n, k, d0, p0, depth, P, G, gbc, v);
      LoopScores(n, k, d0, p0, start, depth, P, G, gbc, v + 1);
      assert LoopOffers(n, k, d0, p0, start, depth, P, G, gbc, v) == child + rest;
    }
  }

  lemma {:induction false} VertexScores(n: nat, k: nat, d0: Matrix, p0: Matrix, depth: nat, P: Matrix, G: seq<bool>, gbc: real, v: nat)
    requires Baseline(n, d0, p0) && Working(n, P) && |G| == n && depth < k <= n && v < n
    ensures forall e :: e in VertexOffers(n, k, d0, p0, depth, P, G, gbc, v) ==> e.0 >= gbc
    decreases k - depth, 0, 0
  {
    var C := Covered(n, d0, P, G, v);
    var contribution := Contribution(n, p0, P, G, C);
    AuxScores(n, k, d0, p0, v + 1, depth + 1, SubMat(n, P, C), G[v := true], gbc + contribution);
  }


  /** From the top (depth 0, nothing marked, score 0), the search offers one group per
      k-subset of [0, n): the i-th offer marks exactly the i-th subset in lexicographic
      order, every k-subset comes up exactly once, and no score is negative. */
  lemma SearchEnumerates(n: nat, k: nat, d0: Matrix, p0: Matrix)
    requires Baseline(n, d0, p0) && Working(n, p0) && k <= n
    ensures var offers := AuxOffers(n, k, d0, p0, 0, 0, p0, NoMask(n), 0.0);
      var cs := Combos(0, k, n);
      |offers| == |cs| &&
      (forall i :: 0 <= i < |offers| ==>
         |offers[i].1| == n && forall x :: 0 <= x < n ==> (offers[i].1[x] <==> x in cs[i])) &&
      (forall i :: 0 <= i < |cs| ==> IsCombo(cs[i], 0, k, n)) &&
      (forall c :: IsCombo(c, 0, k, n) ==> c in cs) &&
      LexOrdered(cs) &&
      (forall e :: e in offers ==> e.0 >= 0.0)
  {
    var offers := AuxOffers(n, k, d0, p0, 0, 0, p0, NoMask(n), 0.0);
    var cs := Combos(0, k, n);
    AuxGroups(n, k, d0, p0, 0, 0, p0, NoMask(n), 0.0);
    assert Groups(offers) == Marks(NoMask(n), cs);
    forall i | 0 <= i < |offers| ensures offers[i].1 == Mark(NoMask(n), cs[i]) {
      assert offers[i].1 == Groups(offers)[i];
    }
    CombosSound(0, k, n);
    forall c | IsCombo(c, 0, k, n) ensures c in cs {
      CombosComplete(0, k, n, c);
    }
    CombosOrdered(0, k, n);
    AuxScores(n, k, d0, p0, 0, 0, p0, NoMask(n), 0.0);
  }

  // ---------------------------------------------------------------------------------
  // Row-major pair loops

  /** The pair {a, b}, a != b, comes before (i, j) in the order the loops visit the
      pairs x < y: by x, then by y. */
  predicate Before(i: nat, j: nat, a: nat, b: nat) {
    a != b &&
    var x := if a < b then a else b;
    var y := if a < b then b else a;
    x < i || (x == i && y < j)
  }

  /** Entry (a, b) holds its target value once its pair is visited, its start value until then. */
  predicate EntryAt(n: nat, start: Matrix, target: Matrix, cur: Matrix, i: nat, j: nat, a: nat, b: nat)
    requires Square(n, start) && Square(n, target) && Square(n, cur) && a < n && b < n
  {
    cur[a][b] == if Before(i, j, a, b) then target[a][b] else start[a][b]
  }

  /** The loops have turned start into cur by visiting every pair before (i, j). */
  predicate Between(n: nat, start: Matrix, target: Matrix, cur: Matrix, i: nat, j: nat)
    requires Square(n, start) && Square(n, target)
  {
    Square(n, cur) &&
    forall a, b {:trigger EntryAt(n, start, target, cur, i, j, a, b)} :: 0 <= a < n && 0 <= b < n ==>
      EntryAt(n, start, target, cur, i, j, a, b)
  }

  lemma BetweenFirst(n: nat, start: Matrix, target: Matrix)
    requires Square(n, start) && Square(n, target)
    ensures Between(n, start, target, start, 0, 1)
  {
    forall a, b | 0 <= a < n && 0 <= b < n ensures EntryAt(n, start, target, start, 0, 1, a, b) {
    }
  }

  /** Visiting pair (i, j) by writing its two target entries. */
  lemma BetweenWrite(n: nat, start: Matrix, target: Matrix, cur: Matrix, i: nat, j: nat)
    requires Square(n, start) && Square(n, target) && Between(n, start, target, cur, i, j) && i < j < n
    ensures Between(n, start, target, Put(Put(cur, i, j, target[i][j]), j, i, target[j][i]), i, j + 1)
  {
    var cur' := Put(Put(cur, i, j, target[i][j]), j, i, target[j][i]);
    var j' := j + 1;
    forall a, b | 0 <= a < n && 0 <= b < n ensures EntryAt(n, start, target, cur', i, j', a, b) {
      assert EntryAt(n, start, target, cur, i, j, a, b);
    }
  }

  /** Visiting pair (i, j) without writing, where the target keeps the start values. */
  lemma BetweenSkip(n: nat, start: Matrix, target: Matrix, cur: Matrix, i: nat, j: nat)
    requires Square(n, start) && Square(n, target) && Between(n, start, target, cur, i, j) && i < j < n
    requires target[i][j] == start[i][j] && target[j][i] == start[j][i]
    ensures Between(n, start, target, cur, i, j + 1)
  {
    var j' := j + 1;
    forall a, b | 0 <= a < n && 0 <= b < n ensures EntryAt(n, start, target, cur, i, j', a, b) {
      assert EntryAt(n, start, target, cur, i, j, a, b);
    }
  }

  /** Row i finished: the next row starts. */
  lemma BetweenRow(n: nat, start: Matrix, target: Matrix, cur: Matrix, i: nat)
    requires Square(n, start) && Square(n, target) && Between(n, start, target, cur, i, n)
    ensures Between(n, start, target, cur, i + 1, i + 2)
  {
    var i', j' := i + 1, i + 2;
    forall a, b | 0 <= a < n && 0 <= b < n ensures EntryAt(n, start, target, cur, i', j', a, b) {
      assert EntryAt(n, start, target, cur, i, n, a, b);
    }
  }

  /** Row i skipped, where the target keeps the start values along it. */
  lemma BetweenSkipRow(n: nat, start: Matrix, target: Matrix, cur: Matrix, i: nat)
    requires Square(n, start) && Square(n, target) && Between(n, start, target, cur, i, i + 1)
    requires forall y :: i < y < n ==> target[i][y] == start[i][y] && target[y][i] == start[y][i]
    ensures Between(n, start, target, cur, i + 1, i + 2)
  {
    var i', j' := i + 1, i + 2;
    forall a, b | 0 <= a < n && 0 <= b < n ensures EntryAt(n, start, target, cur, i', j', a, b) {
      assert EntryAt(n, start, target, cur, i, i + 1, a, b);
    }
  }

  /** All rows 0 .. n - 2 visited: every pair is, so cur is the target when the
      target keeps the diagonal. */
  lemma BetweenLast(n: nat, start: Matrix, target: Matrix, cur: Matrix)
    requires n >= 1 && Square(n, start) && Square(n, target) && Between(n, start, target, cur, n - 1, n)
    requires forall a :: 0 <= a < n ==> target[a][a] == start[a][a]
    ensures cur == target
  {
    forall a | 0 <= a < n ensures cur[a] == target[a] {
      forall b | 0 <= b < n ensures cur[a][b] == target[a][b] {
        assert EntryAt(n, start, target, cur, n - 1, n, a, b);
      }
    }
  }

  // ---------------------------------------------------------------------------------
  // The search state

  /** The state mbcAux shares across its recursion: the working path counts, the group
      being built and the leaderboard, with the baseline matrices it only reads. */
  class SearchState {
    const n: nat
    const k: nat
    const initialDistances: Matrix
    const initialPathCounts: Matrix
    const board: Leaderboard
    var pathCounts: Matrix
    var isInGroup: seq<bool>

    ghost predicate Valid()
      reads this
    {
      Baseline(n, initialDistances, initialPathCounts) && Working(n, pathCounts) && |isInGroup| == n && k <= n &&
      SameDiagonal(n, pathCounts, initialPathCounts)
    }

    constructor (n: nat, k: nat, initialDistances: Matrix, initialPathCounts: Matrix, board: Leaderboard)
      requires Baseline(n, initialDistances, initialPathCounts) && Working(n, initialPathCounts) && k <= n
      ensures Valid()
      ensures this.n == n && this.k == k && this.board == board
      ensures this.initialDistances == initialDistances && this.initialPathCounts == initialPathCounts
      ensures pathCounts == initialPathCounts && isInGroup == NoMask(n)
    {
      this.n := n;
      this.k := k;
      this.initialDistances := initialDistances;
      this.initialPathCounts := initialPathCounts;
      this.board := board;
      pathCounts := initialPathCounts;
      isInGroup := NoMask(n);
    }

    /** mbcAux: at depth k the group is offered to the leaderboard; otherwise each
        newVertex from intervalStart to n - k + depth is added, searched below and
        removed again. The leaderboard receives offers, the groups AuxOffers lists for
        the entry state, in that order; the working matrix and the group end as on entry. */
    method MbcAux(intervalStart: nat, depth: nat, gbc: real, ghost offers: seq<Entry>)
      requires Valid() && depth <= k
      requires forall v :: intervalStart <= v < n ==> !isInGroup[v]
      requires offers == AuxOffers(n, k, initialDistances, initialPathCounts, intervalStart, depth, pathCounts, isInGroup, gbc)
      requires board.Valid()
      modifies this, board
      ensures board.Valid()
      ensures pathCounts == old(pathCounts) && isInGroup == old(isInGroup)
      ensures board.entries == OfferAll(old(board.entries), offers)
      decreases k - depth, 3
    {
      if depth == k {
        OfferGroup(gbc);
      } else {
        SearchFrom(intervalStart, depth, gbc, offers);
      }
    }

    /** The loop of mbcAux: newVertex runs from intervalStart to n - k + depth. */
    method SearchFrom(intervalStart: nat, depth: nat, gbc: real, ghost offers: seq<Entry>)
      requires Valid() && depth < k
      requires forall v :: intervalStart <= v < n ==> !isInGroup[v]
      requires offers == LoopOffers(n, k, initialDistances, initialPathCounts, intervalStart, depth, pathCounts, isInGroup, gbc, intervalStart)
      requires board.Valid()
      modifies this, board
      ensures board.Valid()
      ensures pathCounts == old(pathCounts) && isInGroup == old(isInGroup)
      ensures board.entries == OfferAll(old(board.entries), offers)
      decreases k - depth, 2
    {
      ghost var P, G := pathCounts, isInGroup;
      ghost var rest := offers;
      var newVertex := intervalStart;
      while newVertex <= n - k + depth
        invariant pathCounts == P && isInGroup == G
        invariant board.Valid()
        invariant rest == LoopOffers(n, k, initialDistances, initialPathCounts, intervalStart, depth, P, G, gbc, newVertex)
        invariant OfferAll(old(board.entries), offers) == OfferAll(board.entries, rest)
        decreases n - k + depth + 1 - newVertex
      {
        ghost var before := board.entries;
        ghost var here := VertexOffers(n, k, initialDistances, initialPathCounts, depth, P, G, gbc, newVertex);
        ghost var later := LoopOffers(n, k, initialDistances, initialPathCounts, intervalStart, depth, P, G, gbc, newVertex + 1);
        AddVertex(newVertex, depth, gbc, here);
        OfferAllAppend(before, here, later);
        rest := later;
        newVertex := newVertex + 1;
      }
    }

    /** The leaf of mbcAux: the first group always goes in; later a group goes in only
        when its score beats the smallest key, after dropping the smallest entry when
        the leaderboard already holds more than five. */
    method OfferGroup(gbc: real)
      requires board.Valid()
      modifies board
      ensures board.Valid()
      ensures board.entries == Offer(old(board.entries), gbc, isInGroup)
    {
      if |board.entries| == 0 {
        board.Emplace(gbc, isInGroup);
      } else if gbc > board.entries[0].0 {
        if |board.entries| > 5 {
          board.EraseFirst();
        }
        board.Emplace(gbc, isInGroup);
      }
    }

    /** One iteration of mbcAux's loop: cover, score, subtract, recurse with newVertex
        in the group, then take it out and add the covered paths back. */
    method AddVertex(newVertex: nat, depth: nat, gbc: real, ghost offers: seq<Entry>)
      requires Valid() && depth < k && newVertex < n
      requires forall v :: newVertex <= v < n ==> !isInGroup[v]
      requires offers == VertexOffers(n, k, initialDistances, initialPathCounts, depth, pathCounts, isInGroup, gbc, newVertex)
      requires board.Valid()
      modifies this, board
      ensures board.Valid()
      ensures pathCounts == old(pathCounts) && isInGroup == old(isInGroup)
      ensures board.entries == OfferAll(old(board.entries), offers)
      decreases k - depth, 1
    {
      var P, G := pathCounts, isInGroup;
      var coveredPathCount := ComputeCovered(n, initialDistances, P, G, newVertex);
      var contributionToGBC := ContributionOf(n, initialPathCounts, P, G, coveredPathCount);
      var reduced := Subtract(n, P, coveredPathCount);
      VertexStep(n, k, initialDistances, initialPathCounts, depth, P, G, gbc, newVertex, coveredPathCount, reduced, contributionToGBC);
      Descend(newVertex, depth, gbc + contributionToGBC, coveredPathCount, reduced, offers);
    }

    /** The second half of an iteration: with coveredPathCount already subtracted into
        reduced, newVertex joins the group, the search goes one level down, newVertex
        leaves the group and the covered paths are added back. */
    method Descend(newVertex: nat, depth: nat, childGbc: real, coveredPathCount: Matrix, reduced: Matrix, ghost offers: seq<Entry>)
      requires Valid() && depth < k && newVertex < n
      requires forall v :: newVertex <= v < n ==> !isInGroup[v]
      requires coveredPathCount == Covered(n, initialDistances, pathCounts, isInGroup, newVertex)
      requires reduced == SubMat(n, pathCounts, coveredPathCount) && Working(n, reduced)
      requires offers == AuxOffers(n, k, initialDistances, initialPathCounts, newVertex + 1, depth + 1, reduced, isInGroup[newVertex := true], childGbc)
      requires board.Valid()
      modifies this, board
      ensures board.Valid()
      ensures pathCounts == old(pathCounts) && isInGroup == old(isInGroup)
      ensures board.entries == OfferAll(old(board.entries), offers)
      decreases k - depth, 0
    {
      var P, G := pathCounts, isInGroup;
      RestoreCovered(n, initialDistances, P, G, newVertex, coveredPathCount);
      pathCounts := reduced;
      isInGroup := G[newVertex := true];
      MbcAux(newVertex + 1, depth + 1, childGbc, offers);
      isInGroup := isInGroup[newVertex := false];
      var restored := AddBack(n, pathCounts, coveredPathCount);
      pathCounts := restored;
    }
  }

  // ---------------------------------------------------------------------------------
  // The loops of one iteration, on the values they read

  /** The loops filling coveredPathCount for newVertex v. */
  method ComputeCovered(n: nat, d0: Matrix, P: Matrix, G: seq<bool>, v: nat) returns (covered: Matrix)
    requires Square(n, d0) && Working(n, P) && |G| == n && v < n
    ensures covered == Covered(n, d0, P, G, v)
  {
    ghost var target := Covered(n, d0, P, G, v);
    ghost var zero := seq(n, _ => Zeros(n));
    covered := seq(n, _ => Zeros(n));
    BetweenFirst(n, zero, target);
    var i := 0;
    while i < n - 1
      invariant i <= n - 1
      invariant Between(n, zero, target, covered, i, i + 1)
    {
      if G[i] {
        BetweenSkipRow(n, zero, target, covered, i);
      } else {
        covered := CoverRow(n, d0, P, G, v, i, covered, zero, target);
        BetweenRow(n, zero, target, covered, i);
      }
      i := i + 1;
    }
    BetweenLast(n, zero, target, covered);
  }

  /** The inner loop for row i: every pair (i, j) with j > i and j outside the group. */
  method CoverRow(n: nat, d0: Matrix, P: Matrix, G: seq<bool>, v: nat, i: nat, covered: Matrix,
                  ghost zero: Matrix, ghost target: Matrix) returns (next: Matrix)
    requires Square(n, d0) && Working(n, P) && |G| == n && v < n && i < n - 1 && !G[i]
    requires zero == seq(n, _ => Zeros(n)) && target == Covered(n, d0, P, G, v)
    requires Between(n, zero, target, covered, i, i + 1)
    ensures Between(n, zero, target, next, i, n)
  {
    next := covered;
    var j := i + 1;
    while j < n
      invariant i < j <= n
      invariant Between(n, zero, target, next, i, j)
    {
      if G[j] {
        BetweenSkip(n, zero, target, next, i, j);
      } else if d0[i][j] == d0[i][v] + d0[v][j] {
        ghost var cur := next;
        next := Put(next, i, j, MulSize(P[i][v], P[v][j]));
        next := Put(next, j, i, next[i][j]);
        BetweenWrite(n, zero, target, cur, i, j);
      } else if i == v || j == v {
        ghost var cur := next;
        next := Put(next, i, j, P[i][j]);
        next := Put(next, j, i, next[i][j]);
        BetweenWrite(n, zero, target, cur, i, j);
      } else {
        BetweenSkip(n, zero, target, next, i, j);
      }
      j := j + 1;
    }
  }

  /** The loops summing contributionToGBC. */
  method ContributionOf(n: nat, p0: Matrix, P: Matrix, G: seq<bool>, covered: Matrix) returns (contribution: real)
    requires Denominators(n, p0) && Square(n, P) && Square(n, covered) && |G| == n && n >= 1
    ensures contribution == Contribution(n, p0, P, G, covered)
  {
    contribution := 0.0;
    var i := 0;
    while i < n - 1
      invariant i <= n - 1
      invariant contribution == PrefixShare(n, p0, P, G, covered, i)
    {
      if G[i] {
        i := i + 1;
        continue;
      }
      ghost var before := contribution;
      var j := i + 1;
      while j < n
        invariant i < j <= n
        invariant contribution == before + RowShare(n, p0, P, G, covered, i, j)
      {
        if G[j] {
          j := j + 1;
          continue;
        }
        if P[i][j] != 0 {
          contribution := contribution + covered[i][j] as real / p0[i][j] as real;
        }
        j := j + 1;
      }
      i := i + 1;
    }
    contribution := contribution * 2.0;
  }

  /** The loops subtracting covered from the working matrix above and below the diagonal. */
  method Subtract(n: nat, P: Matrix, covered: Matrix) returns (m: Matrix)
    requires n >= 1 && Square(n, P) && Square(n, covered)
    ensures m == SubMat(n, P, covered)
  {
    ghost var target := SubMat(n, P, covered);
    m := P;
    BetweenFirst(n, P, target);
    var i := 0;
    while i < n - 1
      invariant i <= n - 1
      invariant Between(n, P, target, m, i, i + 1)
    {
      var j := i + 1;
      while j < n
        invariant i < j <= n
        invariant Between(n, P, target, m, i, j)
      {
        ghost var cur := m;
        assert EntryAt(n, P, target, cur, i, j, i, j) && EntryAt(n, P, target, cur, i, j, j, i);
        m := Put(m, i, j, SubSize(m[i][j], covered[i][j]));
        m := Put(m, j, i, SubSize(m[j][i], covered[j][i]));
        BetweenWrite(n, P, target, cur, i, j);
        j := j + 1;
      }
      BetweenRow(n, P, target, m, i);
      i := i + 1;
    }
    BetweenLast(n, P, target, m);
  }

  /** The loops adding covered back to the working matrix above and below the diagonal. */
  method AddBack(n: nat, P: Matrix, covered: Matrix) returns (m: Matrix)
    requires n >= 1 && Square(n, P) && Square(n, covered)
    ensures m == AddMat(n, P, covered)
  {
    ghost var target := AddMat(n, P, covered);
    m := P;
    BetweenFirst(n, P, target);
    var i := 0;
    while i < n - 1
      invariant i <= n - 1
      invariant Between(n, P, target, m, i, i + 1)
    {
      var j := i + 1;
      while j < n
        invariant i < j <= n
        invariant Between(n, P, target, m, i, j)
      {
        ghost var cur := m;
        assert EntryAt(n, P, target, cur, i, j, i, j) && EntryAt(n, P, target, cur, i, j, j, i);
        m := Put(m, i, j, AddSize(m[i][j], covered[i][j]));
        m := Put(m, j, i, AddSize(m[j][i], covered[j][i]));
        BetweenWrite(n, P, target, cur, i, j);
        j := j + 1;
      }
      BetweenRow(n, P, target, m, i);
      i := i + 1;
    }
    BetweenLast(n, P, target, m);
  }

  // ---------------------------------------------------------------------------------
  // The driver

  /** optimalGroups is the leaderboard that starts from the sentinel (0, nothing
      marked) and receives every offer the search makes from the top, for the
      baseline calculatePathCounts yields. */
  ghost predicate IsMbcResult(adj: Adjacency, k: nat, optimalGroups: seq<Entry>)
    requires k <= |adj|
  {
    forall d0, p0 :: PathCountsSpec(adj, NoMask(|adj|), d0, p0) && Baseline(|adj|, d0, p0) && Working(|adj|, p0) ==>
      optimalGroups == OfferAll([(0.0, NoMask(|adj|))], AuxOffers(|adj|, k, d0, p0, 0, 0, p0, NoMask(|adj|), 0.0))
  }

  /** maximumBetweennessCentrality without its printing: the baseline search, the
      sentinel entry, and the search from the top. The leaderboard it leaves is sorted,
      holds one to six entries, and no score in it is negative. */
  method MaximumBetweennessCentrality(g: Graph, budget: nat) returns (optimalGroups: seq<Entry>)
    requires g.Valid() && budget <= g.n && CountsNonzero(g.neighbours)
    ensures IsMbcResult(g.neighbours, budget, optimalGroups)
    ensures Sorted(optimalGroups) && 1 <= |optimalGroups| <= 6
    ensures forall e :: e in optimalGroups ==> e.0 >= 0.0
  {
    var n := g.n;
    var k := budget;
    var initialPathCounts, initialDistances := CalculatePathCounts(g, []);
    assert EffectiveMask([], n) == NoMask(n);
    PathCountsEntries(g.neighbours, NoMask(n), initialDistances, initialPathCounts);
    var optimalGroupsBoard := new Leaderboard();
    optimalGroupsBoard.Emplace(0.0, NoMask(n));
    var search := new SearchState(n, k, initialDistances, initialPathCounts, optimalGroupsBoard);
    ghost var offers := AuxOffers(n, k, initialDistances, initialPathCounts, 0, 0, initialPathCounts, NoMask(n), 0.0);
    search.MbcAux(0, 0, 0.0, offers);
    optimalGroups := optimalGroupsBoard.entries;
    forall d0, p0 | PathCountsSpec(g.neighbours, NoMask(n), d0, p0) && Baseline(n, d0, p0) && Working(n, p0)
      ensures optimalGroups == OfferAll([(0.0, NoMask(n))], AuxOffers(n, k, d0, p0, 0, 0, p0, NoMask(n), 0.0))
    {
      PathCountsUnique(g.neighbours, NoMask(n), initialDistances, initialPathCounts, d0, p0);
    }
    OfferAllInvariant([(0.0, NoMask(n))], offers);
  }
}
