/** The adjacency-list multigraph: n vertices, a declared edge count m, and one
    neighbour list per vertex holding 0-indexed ids in insertion order. Vertex
    ids given to the constructors, AddEdge and HasEdge are 1-indexed. */
module Graphs {

  /** One neighbour list per vertex. */
  type Adjacency = seq<seq<nat>>

  /** Every list entry names a vertex. */
  ghost predicate WellFormed(n: nat, adj: Adjacency) {
    |adj| == n &&
    forall u, k :: 0 <= u < n && 0 <= k < |adj[u]| ==> adj[u][k] < n
  }

  /** How often x occurs in a list. */
  ghost function Occurrences(list: seq<nat>, x: nat): nat {
    if list == [] then 0
    else Occurrences(list[..|list| - 1], x) + (if list[|list| - 1] == x then 1 else 0)
  }

  /** Occurrences is the list's multiplicity of x. */
  lemma {:induction false} OccurrencesCount(list: seq<nat>, x: nat)
    ensures Occurrences(list, x) == multiset(list)[x]
  {
    if list != [] {
      var init := list[..|list| - 1];
      OccurrencesCount(init, x);
      assert list == init + [list[|list| - 1]];
    }
  }

  /** The lists are multiset-symmetric: t occurs in s's list as often as s in t's. */
  ghost predicate Symmetric(adj: Adjacency) {
    forall s, t {:trigger Occurrences(adj[s], t)} :: 0 <= s < |adj| && 0 <= t < |adj| ==> Occurrences(adj[s], t) == Occurrences(adj[t], s)
  }

  ghost predicate NoSelfLoops(adj: Adjacency) {
    forall s :: 0 <= s < |adj| ==> s !in adj[s]
  }

  /** The edge relation that the edge test decides. */
  predicate Adjacent(adj: Adjacency, s: nat, t: nat)
    requires s < |adj|
  {
    t in adj[s]
  }

  /** Vertex ids read from the input must lie in [1, n]. */
  ghost predicate InRange(n: nat, pairs: seq<(nat, nat)>) {
    forall e :: 0 <= e < |pairs| ==> 1 <= pairs[e].0 <= n && 1 <= pairs[e].1 <= n
  }

  function Empty(n: nat): (adj: Adjacency)
    ensures WellFormed(n, adj) && Symmetric(adj)
    ensures forall u :: 0 <= u < n ==> adj[u] == []
  {
    seq(n, _ => [])
  }

  /** What addEdge appends to list x when it joins s and t (0-indexed): t if x is s,
      then s if x is t (so a self-loop appends s twice). */
  function Appended(x: int, s: int, t: int): seq<int> {
    (if x == s then [t] else []) + (if x == t then [s] else [])
  }

  /** The effect of addEdge on the lists, in 0-indexed ids: t is pushed onto s's list,
      then s onto t's list. */
  function AddEdgeAdj(adj: Adjacency, s: nat, t: nat): (r: Adjacency)
    requires s < |adj| && t < |adj|
    ensures |r| == |adj|
    ensures forall x {:trigger r[x]} :: 0 <= x < |adj| ==> r[x] == adj[x] + Appended(x, s, t)
  {
    var a := adj[s := adj[s] + [t]];
    assert s == t ==> a[t] + [s] == adj[t] + Appended(t, s, t);
    a[t := a[t] + [s]]
  }

  /** addEdge changes the count of y in x's list only for (x, y) = (s, t) and (t, s). */
  lemma AddEdgeCounts(adj: Adjacency, s: nat, t: nat, x: nat, y: nat)
    requires s < |adj| && t < |adj| && x < |adj|
    ensures multiset(AddEdgeAdj(adj, s, t)[x])[y] ==
            multiset(adj[x])[y] + (if x == s && y == t then 1 else 0) + (if x == t && y == s then 1 else 0)
  {
    assert multiset(adj[x] + Appended(x, s, t)) == multiset(adj[x]) + multiset(Appended(x, s, t));
  }

  /** addEdge keeps every list entry a vertex id. */
  lemma AddEdgeWellFormed(n: nat, adj: Adjacency, s: nat, t: nat)
    requires WellFormed(n, adj) && s < n && t < n
    ensures WellFormed(n, AddEdgeAdj(adj, s, t))
  {
    var r := AddEdgeAdj(adj, s, t);
    forall u, k | 0 <= u < n && 0 <= k < |r[u]|
      ensures r[u][k] < n
    {
      assert r[u] == adj[u] + Appended(u, s, t);
    }
  }

  /** addEdge raises the counts of t in s's list and of s in t's list together. */
  lemma AddEdgeSymmetricAt(adj: Adjacency, s: nat, t: nat, x: nat, y: nat)
    requires s < |adj| && t < |adj| && x < |adj| && y < |adj|
    requires Occurrences(adj[x], y) == Occurrences(adj[y], x)
    ensures Occurrences(AddEdgeAdj(adj, s, t)[x], y) == Occurrences(AddEdgeAdj(adj, s, t)[y], x)
  {
    OccurrencesCount(adj[x], y);
    OccurrencesCount(adj[y], x);
    OccurrencesCount(AddEdgeAdj(adj, s, t)[x], y);
    OccurrencesCount(AddEdgeAdj(adj, s, t)[y], x);
    AddEdgeCounts(adj, s, t, x, y);
    AddEdgeCounts(adj, s, t, y, x);
  }

  /** addEdge keeps the lists well-formed and multiset-symmetric. */
  lemma AddEdgePreserves(n: nat, adj: Adjacency, s: nat, t: nat)
    requires WellFormed(n, adj) && Symmetric(adj) && s < n && t < n
    ensures WellFormed(n, AddEdgeAdj(adj, s, t)) && Symmetric(AddEdgeAdj(adj, s, t))
  {
    var r := AddEdgeAdj(adj, s, t);
    forall x, y | 0 <= x < n && 0 <= y < n
      ensures Occurrences(r[x], y) == Occurrences(r[y], x)
    {
      assert Occurrences(adj[x], y) == Occurrences(adj[y], x);
      AddEdgeSymmetricAt(adj, s, t, x, y);
    }
    AddEdgeWellFormed(n, adj, s, t);
  }

  /** After addEdge(s, t) the edge is present in both directions, and every edge present
      before still is (so adding an edge twice keeps it). */
  lemma AddEdgeAdjacent(adj: Adjacency, s: nat, t: nat)
    requires s < |adj| && t < |adj|
    ensures Adjacent(AddEdgeAdj(adj, s, t), s, t) && Adjacent(AddEdgeAdj(adj, s, t), t, s)
    ensures forall x, y :: 0 <= x < |adj| && Adjacent(adj, x, y) ==> Adjacent(AddEdgeAdj(adj, s, t), x, y)
  {
    var r := AddEdgeAdj(adj, s, t);
    assert r[s] == adj[s] + Appended(s, s, t) && t in Appended(s, s, t);
    assert r[t] == adj[t] + Appended(t, s, t) && s in Appended(t, s, t);
    forall x, y | 0 <= x < |adj| && Adjacent(adj, x, y) ensures Adjacent(r, x, y) {
      assert r[x] == adj[x] + Appended(x, s, t);
    }
  }

  /** The lists after adding the given 1-indexed pairs, in order, to n empty lists. */
  function Build(n: nat, pairs: seq<(nat, nat)>): (adj: Adjacency)
    requires InRange(n, pairs)
    ensures |adj| == n
    decreases |pairs|
  {
    if pairs == [] then Empty(n)
    else
      var last := pairs[|pairs| - 1];
      AddEdgeAdj(Build(n, pairs[..|pairs| - 1]), last.0 - 1, last.1 - 1)
  }

  lemma InRangePrefix(n: nat, pairs: seq<(nat, nat)>, k: nat)
    requires InRange(n, pairs) && k <= |pairs|
    ensures InRange(n, pairs[..k])
  {
  }

  /** One step of the construction: the last pair is added to the lists built from the others. */
  lemma BuildLast(n: nat, pairs: seq<(nat, nat)>)
    requires InRange(n, pairs) && pairs != []
    ensures InRange(n, pairs[..|pairs| - 1])
    ensures Build(n, pairs) == AddEdgeAdj(Build(n, pairs[..|pairs| - 1]), pairs[|pairs| - 1].0 - 1, pairs[|pairs| - 1].1 - 1)
  {
  }

  /** Building a prefix one pair longer adds that pair's edge. */
  lemma BuildPrefixStep(n: nat, pairs: seq<(nat, nat)>, k: nat)
    requires InRange(n, pairs) && k < |pairs|
    ensures InRange(n, pairs[..k]) && InRange(n, pairs[..k + 1])
    ensures Build(n, pairs[..k + 1]) == AddEdgeAdj(Build(n, pairs[..k]), pairs[k].0 - 1, pairs[k].1 - 1)
  {
    InRangePrefix(n, pairs, k + 1);
    BuildLast(n, pairs[..k + 1]);
    assert pairs[..k + 1][..k] == pairs[..k];
  }

  /** The list vertex x (0-indexed) receives from the pairs: for each pair in input
      order that touches x+1, the other endpoint (0-indexed), twice for a self-loop. */
  function Incident(pairs: seq<(nat, nat)>, x: nat): seq<int>
    decreases |pairs|
  {
    if pairs == [] then []
    else
      var last := pairs[|pairs| - 1];
      Incident(pairs[..|pairs| - 1], x) + Appended(x, last.0 as int - 1, last.1 as int - 1)
  }

  /** Each constructed list is exactly what its vertex receives, in input order. */
  lemma {:induction false} BuildRow(n: nat, pairs: seq<(nat, nat)>, x: nat)
    requires InRange(n, pairs) && x < n
    ensures Build(n, pairs)[x] == Incident(pairs, x)
    decreases |pairs|
  {
    if pairs != [] {
      BuildLast(n, pairs);
      BuildRow(n, pairs[..|pairs| - 1], x);
    }
  }

  /** How often (a, b) occurs in a list of pairs. */
  function Copies(lines: seq<(nat, nat)>, a: int, b: int): nat
  {
    if lines == [] then 0
    else (if lines[0].0 == a && lines[0].1 == b then 1 else 0) + Copies(lines[1..], a, b)
  }

  lemma {:induction false} CopiesAppend(xs: seq<(nat, nat)>, ys: seq<(nat, nat)>, a: int, b: int)
    ensures Copies(xs + ys, a, b) == Copies(xs, a, b) + Copies(ys, a, b)
  {
    if xs == [] {
      assert xs + ys == ys;
    } else {
      assert (xs + ys)[1..] == xs[1..] + ys;
      CopiesAppend(xs[1..], ys, a, b);
    }
  }

  /** Copies is the multiplicity in the multiset of the list. */
  lemma {:induction false} CopiesCount(lines: seq<(nat, nat)>, a: nat, b: nat)
    ensures Copies(lines, a, b) == multiset(lines)[(a, b)]
  {
    if lines != [] {
      CopiesCount(lines[1..], a, b);
      assert multiset(lines) == multiset{lines[0]} + multiset(lines[1..]) by {
        assert lines == [lines[0]] + lines[1..];
      }
      assert lines[0] == (lines[0].0, lines[0].1);
    }
  }

  /** The number of pairs joining a and b, counting both orientations (so a
      self-loop pair (a, a) counts twice). */
  function Joins(pairs: seq<(nat, nat)>, a: int, b: int): nat {
    Copies(pairs, a, b) + Copies(pairs, b, a)
  }

  lemma JoinsLast(pairs: seq<(nat, nat)>, a: int, b: int)
    requires pairs != []
    ensures Joins(pairs, a, b) ==
            Joins(pairs[..|pairs| - 1], a, b) +
            (if pairs[|pairs| - 1].0 == a && pairs[|pairs| - 1].1 == b then 1 else 0) +
            (if pairs[|pairs| - 1].0 == b && pairs[|pairs| - 1].1 == a then 1 else 0)
  {
    var init, last := pairs[..|pairs| - 1], pairs[|pairs| - 1];
    assert init + [last] == pairs;
    CopiesAppend(init, [last], a, b);
    CopiesAppend(init, [last], b, a);
  }

  /** How often addEdge(s, t) appends y to list x. */
  lemma AppendedCount(x: int, s: int, t: int, y: int)
    ensures multiset(Appended(x, s, t))[y] == (if x == s && y == t then 1 else 0) + (if x == t && y == s then 1 else 0)
  {
  }

  /** The last pair adds one occurrence of y to what x receives per orientation joining them. */
  lemma IncidentLast(pairs: seq<(nat, nat)>, x: nat, y: nat)
    requires pairs != []
    ensures multiset(Incident(pairs, x))[y] ==
            multiset(Incident(pairs[..|pairs| - 1], x))[y] +
            (if pairs[|pairs| - 1].0 == x + 1 && pairs[|pairs| - 1].1 == y + 1 then 1 else 0) +
            (if pairs[|pairs| - 1].0 == y + 1 && pairs[|pairs| - 1].1 == x + 1 then 1 else 0)
  {
    var init, last := pairs[..|pairs| - 1], pairs[|pairs| - 1];
    var s, t := last.0 as int - 1, last.1 as int - 1;
    assert multiset(Incident(pairs, x)) == multiset(Incident(init, x)) + multiset(Appended(x, s, t)) by {
      assert Incident(pairs, x) == Incident(init, x) + Appended(x, s, t);
    }
    AppendedCount(x, s, t, y);
  }

  /** y occurs in what x receives once per pair joining x+1 and y+1, in either orientation. */
  lemma {:induction false} IncidentCounts(pairs: seq<(nat, nat)>, x: nat, y: nat)
    ensures multiset(Incident(pairs, x))[y] == Joins(pairs, x + 1, y + 1)
    decreases |pairs|
  {
    if pairs != [] {
      IncidentLast(pairs, x, y);
      JoinsLast(pairs, x + 1, y + 1);
      IncidentCounts(pairs[..|pairs| - 1], x, y);
    }
  }

  /** The count of y in x's list is the number of input pairs joining x+1 and y+1 in
      either orientation (a self-loop pair counts twice). */
  lemma BuildCounts(n: nat, pairs: seq<(nat, nat)>, x: nat, y: nat)
    requires InRange(n, pairs) && x < n
    ensures multiset(Build(n, pairs)[x])[y] == Joins(pairs, x + 1, y + 1)
  {
    BuildRow(n, pairs, x);
    IncidentCounts(pairs, x, y);
  }

  /** With ids in range, a vertex receives only vertex ids. */
  lemma {:induction false} IncidentBounded(n: nat, pairs: seq<(nat, nat)>, x: nat)
    requires InRange(n, pairs)
    ensures forall k :: 0 <= k < |Incident(pairs, x)| ==> 0 <= Incident(pairs, x)[k] < n
    decreases |pairs|
  {
    if pairs != [] {
      var init, last := pairs[..|pairs| - 1], pairs[|pairs| - 1];
      InRangePrefix(n, pairs, |pairs| - 1);
      IncidentBounded(n, init, x);
      assert Incident(pairs, x) == Incident(init, x) + Appended(x, last.0 as int - 1, last.1 as int - 1);
    }
  }

  /** Construction yields lists whose entries are vertex ids. */
  lemma BuildWellFormed(n: nat, pairs: seq<(nat, nat)>)
    requires InRange(n, pairs)
    ensures WellFormed(n, Build(n, pairs))
  {
    forall u, k | 0 <= u < n && 0 <= k < |Build(n, pairs)[u]|
      ensures Build(n, pairs)[u][k] < n
    {
      BuildRow(n, pairs, u);
      IncidentBounded(n, pairs, u);
    }
  }

  /** Construction yields well-formed, multiset-symmetric lists. */
  lemma BuildValid(n: nat, pairs: seq<(nat, nat)>)
    requires InRange(n, pairs)
    ensures WellFormed(n, Build(n, pairs)) && Symmetric(Build(n, pairs))
  {
    BuildWellFormed(n, pairs);
    var adj := Build(n, pairs);
    forall x, y | 0 <= x < n && 0 <= y < n
      ensures Occurrences(adj[x], y) == Occurrences(adj[y], x)
    {
      OccurrencesCount(adj[x], y);
      OccurrencesCount(adj[y], x);
      BuildCounts(n, pairs, x, y);
      BuildCounts(n, pairs, y, x);
    }
  }

  /** Adding the same edges in another order or orientation gives the same lists up to order. */
  lemma BuildOrderIndependent(n: nat, ps: seq<(nat, nat)>, qs: seq<(nat, nat)>)
    requires InRange(n, ps) && InRange(n, qs)
    requires forall a, b :: Joins(ps, a, b) == Joins(qs, a, b)
    ensures forall x :: 0 <= x < n ==> multiset(Build(n, ps)[x]) == multiset(Build(n, qs)[x])
    ensures forall x, y :: 0 <= x < n && 0 <= y < n ==> (Adjacent(Build(n, ps), x, y) <==> Adjacent(Build(n, qs), x, y))
  {
    forall x | 0 <= x < n
      ensures multiset(Build(n, ps)[x]) == multiset(Build(n, qs)[x])
    {
      forall y: nat
        ensures multiset(Build(n, ps)[x])[y] == multiset(Build(n, qs)[x])[y]
      {
        BuildCounts(n, ps, x, y);
        BuildCounts(n, qs, x, y);
        assert Joins(ps, x + 1, y + 1) == Joins(qs, x + 1, y + 1);
      }
      assert forall y: int :: y < 0 ==> multiset(Build(n, ps)[x])[y] == 0 == multiset(Build(n, qs)[x])[y];
    }
    forall x, y | 0 <= x < n && 0 <= y < n
      ensures Adjacent(Build(n, ps), x, y) <==> Adjacent(Build(n, qs), x, y)
    {
      assert y in Build(n, ps)[x] <==> y in multiset(Build(n, ps)[x]);
      assert y in Build(n, qs)[x] <==> y in multiset(Build(n, qs)[x]);
    }
  }

  /** In symmetric lists the edge relation is symmetric. */
  lemma AdjacentSymmetric(adj: Adjacency, s: nat, t: nat)
    requires Symmetric(adj) && s < |adj| && t < |adj|
    ensures Adjacent(adj, s, t) <==> Adjacent(adj, t, s)
  {
    assert Occurrences(adj[s], t) == Occurrences(adj[t], s);
    OccurrencesCount(adj[s], t);
    OccurrencesCount(adj[t], s);
    assert t in adj[s] <==> multiset(adj[s])[t] > 0;
    assert s in adj[t] <==> multiset(adj[t])[s] > 0;
  }

  /** The first m pairs of a token stream. */
  function Pairs(tokens: seq<nat>, m: nat): (pairs: seq<(nat, nat)>)
    requires 2 * m <= |tokens|
    ensures |pairs| == m
    ensures forall e :: 0 <= e < m ==> pairs[e] == (tokens[2 * e], tokens[2 * e + 1])
  {
    seq(m, e requires 0 <= e < m => (tokens[2 * e], tokens[2 * e + 1]))
  }

  /** Writing pairs as a flat token stream. */
  function Flatten(pairs: seq<(nat, nat)>): (tokens: seq<nat>)
    ensures |tokens| == 2 * |pairs|
  {
    if pairs == [] then [] else [pairs[0].0, pairs[0].1] + Flatten(pairs[1..])
  }

  lemma {:induction false} PairsFlatten(pairs: seq<(nat, nat)>)
    ensures Pairs(Flatten(pairs), |pairs|) == pairs
  {
    if pairs != [] {
      PairsFlatten(pairs[1..]);
      var f := Flatten(pairs);
      assert f == [pairs[0].0, pairs[0].1] + Flatten(pairs[1..]);
      forall e | 0 <= e < |pairs|
        ensures Pairs(f, |pairs|)[e] == pairs[e]
      {
        if e > 0 {
          assert f[2 * e] == Flatten(pairs[1..])[2 * (e - 1)];
          assert f[2 * e + 1] == Flatten(pairs[1..])[2 * (e - 1) + 1];
          assert Pairs(Flatten(pairs[1..]), |pairs| - 1)[e - 1] == pairs[1..][e - 1];
        }
      }
    }
  }

  /** The first k pairs of the stream are a prefix of the first m. */
  lemma PairsTake(tokens: seq<nat>, m: nat, k: nat)
    requires 2 * m <= |tokens| && k <= m
    ensures Pairs(tokens, m)[..k] == Pairs(tokens, k)
  {
  }

  lemma PairsPrefix(n: nat, tokens: seq<nat>, m: nat, k: nat)
    requires 2 * m <= |tokens| && InRange(n, Pairs(tokens, m)) && k <= m
    ensures InRange(n, Pairs(tokens, k))
  {
    PairsTake(tokens, m, k);
  }

  /** Reading pair k of the token stream adds its edge to the lists built from the first k. */
  lemma ReadStep(n: nat, tokens: seq<nat>, m: nat, k: nat)
    requires 2 * m <= |tokens| && InRange(n, Pairs(tokens, m)) && k < m
    ensures 1 <= tokens[2 * k] <= n && 1 <= tokens[2 * k + 1] <= n
    ensures InRange(n, Pairs(tokens, k)) && InRange(n, Pairs(tokens, k + 1))
    ensures Build(n, Pairs(tokens, k + 1)) ==
            AddEdgeAdj(Build(n, Pairs(tokens, k)), tokens[2 * k] - 1, tokens[2 * k + 1] - 1)
  {
    PairsPrefix(n, tokens, m, k + 1);
    PairsTake(tokens, k + 1, k);
    BuildLast(n, Pairs(tokens, k + 1));
  }

  // ---------------------------------------------------------------------------
  // The printed form

  /** Print lines contributed by one source vertex: each stored neighbour above it. */
  function SourceLines(src: nat, nbrs: seq<nat>): (lines: seq<(nat, nat)>)
  {
    if nbrs == [] then []
    else (if src < nbrs[0] then [(src + 1, nbrs[0] + 1)] else []) + SourceLines(src, nbrs[1..])
  }

  function LinesFrom(adj: Adjacency, src: nat): seq<(nat, nat)>
    decreases |adj| - src
  {
    if src >= |adj| then [] else SourceLines(src, adj[src]) + LinesFrom(adj, src + 1)
  }

  /** The 1-indexed edge lines in print order: ascending source, then list order. */
  function EdgeLines(adj: Adjacency): seq<(nat, nat)> {
    LinesFrom(adj, 0)
  }

  /** Counting in a list by its first element. */
  lemma CountHead<T>(list: seq<T>, v: T)
    requires list != []
    ensures multiset(list)[v] == multiset(list[1..])[v] + (if list[0] == v then 1 else 0)
  {
    assert list == [list[0]] + list[1..];
  }

  lemma SourceLinesStep(src: nat, nbrs: seq<nat>, a: nat, b: nat)
    requires nbrs != []
    ensures Copies(SourceLines(src, nbrs), a, b) ==
            (if src < nbrs[0] && a == src + 1 && b == nbrs[0] + 1 then 1 else 0) +
            Copies(SourceLines(src, nbrs[1..]), a, b)
  {
    var head: seq<(nat, nat)> := if src < nbrs[0] then [(src + 1, nbrs[0] + 1)] else [];
    var rest := SourceLines(src, nbrs[1..]);
    assert SourceLines(src, nbrs) == head + rest;
    CopiesAppend(head, rest, a, b);
    if src < nbrs[0] {
      assert head[1..] == [];
    }
  }

  lemma {:induction false} SourceLinesCount(src: nat, nbrs: seq<nat>, a: nat, b: nat)
    ensures Copies(SourceLines(src, nbrs), a, b) ==
            if a == src + 1 && src + 1 < b then multiset(nbrs)[b - 1] else 0
  {
    if nbrs != [] {
      SourceLinesStep(src, nbrs, a, b);
      SourceLinesCount(src, nbrs[1..], a, b);
      if a == src + 1 && src + 1 < b {
        CountHead(nbrs, b - 1);
      }
    }
  }

  lemma {:induction false} LinesFromCount(adj: Adjacency, src: nat, a: nat, b: nat)
    ensures Copies(LinesFrom(adj, src), a, b) ==
            if src < a <= |adj| && a < b then multiset(adj[a - 1])[b - 1] else 0
    decreases |adj| - src
  {
    if src < |adj| {
      CopiesAppend(SourceLines(src, adj[src]), LinesFrom(adj, src + 1), a, b);
      SourceLinesCount(src, adj[src], a, b);
      LinesFromCount(adj, src + 1, a, b);
    }
  }

  /** Each stored entry t of list s with s < t is printed exactly once as "s+1 t+1";
      entries with s >= t (self-loops and the reverse copies) are never printed. */
  lemma EdgeLinesCount(adj: Adjacency, a: nat, b: nat)
    ensures Copies(EdgeLines(adj), a, b) ==
            if 1 <= a <= |adj| && a < b then multiset(adj[a - 1])[b - 1] else 0
  {
    LinesFromCount(adj, 0, a, b);
  }

  /** The same count for the 0-indexed endpoints x and y. */
  lemma EdgeLinesCountAt(adj: Adjacency, x: nat, y: nat)
    ensures Copies(EdgeLines(adj), x + 1, y + 1) == if x < |adj| && x < y then multiset(adj[x])[y] else 0
  {
    EdgeLinesCount(adj, x + 1, y + 1);
  }

  /** An entry of a list of pairs is counted there. */
  lemma {:induction false} CopiesAt(lines: seq<(nat, nat)>, e: nat)
    requires e < |lines|
    ensures Copies(lines, lines[e].0, lines[e].1) > 0
  {
    if e > 0 {
      CopiesAt(lines[1..], e - 1);
    }
  }

  lemma EdgeLinesInRange(n: nat, adj: Adjacency)
    requires WellFormed(n, adj)
    ensures InRange(n, EdgeLines(adj))
    ensures forall e :: 0 <= e < |EdgeLines(adj)| ==> EdgeLines(adj)[e].0 < EdgeLines(adj)[e].1
  {
    var lines := EdgeLines(adj);
    forall e | 0 <= e < |lines|
      ensures 1 <= lines[e].0 < lines[e].1 <= n
    {
      var p := lines[e];
      CopiesAt(lines, e);
      EdgeLinesCount(adj, p.0, p.1);
      assert multiset(adj[p.0 - 1])[p.1 - 1] > 0;
      var k :| 0 <= k < |adj[p.0 - 1]| && adj[p.0 - 1][k] == p.1 - 1;
    }
  }

  /** The lines printed for source src all name src+1 first. */
  lemma {:induction false} SourceLinesSource(src: nat, nbrs: seq<nat>)
    ensures forall e :: 0 <= e < |SourceLines(src, nbrs)| ==> SourceLines(src, nbrs)[e].0 == src + 1
  {
    if nbrs != [] {
      SourceLinesSource(src, nbrs[1..]);
    }
  }

  lemma {:induction false} LinesFromOrdered(adj: Adjacency, src: nat)
    ensures forall e :: 0 <= e < |LinesFrom(adj, src)| ==> LinesFrom(adj, src)[e].0 > src
    ensures forall e, f :: 0 <= e < f < |LinesFrom(adj, src)| ==> LinesFrom(adj, src)[e].0 <= LinesFrom(adj, src)[f].0
    decreases |adj| - src
  {
    if src < |adj| {
      SourceLinesSource(src, adj[src]);
      LinesFromOrdered(adj, src + 1);
    }
  }

  /** The edge lines come out by ascending source vertex. */
  lemma EdgeLinesOrdered(adj: Adjacency)
    ensures forall e, f :: 0 <= e < f < |EdgeLines(adj)| ==> EdgeLines(adj)[e].0 <= EdgeLines(adj)[f].0
  {
    LinesFromOrdered(adj, 0);
  }

  /** Counting argument of the round trip, for any list of lines with the printed counts. */
  lemma RebuildCount(n: nat, adj: Adjacency, lines: seq<(nat, nat)>, x: nat, y: nat)
    requires WellFormed(n, adj) && Symmetric(adj) && NoSelfLoops(adj) && x < n
    requires InRange(n, lines)
    requires Copies(lines, x + 1, y + 1) == if x < y then multiset(adj[x])[y] else 0
    requires Copies(lines, y + 1, x + 1) == if y < x then multiset(adj[y])[x] else 0
    ensures multiset(Build(n, lines)[x])[y] == multiset(adj[x])[y]
  {
    BuildCounts(n, lines, x, y);
    if y < x {
      assert Occurrences(adj[y], x) == Occurrences(adj[x], y);
      OccurrencesCount(adj[y], x);
      OccurrencesCount(adj[x], y);
    } else if y == x {
      assert x !in adj[x];
    } else if n <= y {
      assert y !in adj[x];
    }
  }

  /** One list of the round trip below. */
  lemma RebuildRow(n: nat, adj: Adjacency, x: nat)
    requires WellFormed(n, adj) && Symmetric(adj) && NoSelfLoops(adj) && x < n
    requires InRange(n, EdgeLines(adj))
    ensures multiset(Build(n, EdgeLines(adj))[x]) == multiset(adj[x])
  {
    var lines := EdgeLines(adj);
    forall y: nat
      ensures multiset(Build(n, lines)[x])[y] == multiset(adj[x])[y]
    {
      EdgeLinesCountAt(adj, x, y);
      EdgeLinesCountAt(adj, y, x);
      RebuildCount(n, adj, lines, x, y);
    }
  }

  /** Reading back the printed edge lines rebuilds lists with the same contents. */
  lemma RebuildFromEdgeLines(n: nat, adj: Adjacency)
    requires WellFormed(n, adj) && Symmetric(adj) && NoSelfLoops(adj)
    ensures InRange(n, EdgeLines(adj))
    ensures forall x :: 0 <= x < n ==> multiset(Build(n, EdgeLines(adj))[x]) == multiset(adj[x])
  {
    EdgeLinesInRange(n, adj);
    forall x | 0 <= x < n
      ensures multiset(Build(n, EdgeLines(adj))[x]) == multiset(adj[x])
    {
      RebuildRow(n, adj, x);
    }
  }

  function DigitChar(d: nat): char
    requires d < 10
  {
    "0123456789"[d]
  }

  /** Decimal text of a natural number, as stream output writes it. */
  function NatToString(x: nat): (s: string)
    ensures |s| >= 1
    ensures forall i :: 0 <= i < |s| ==> '0' <= s[i] <= '9'
  {
    if x < 10 then [DigitChar(x)] else NatToString(x / 10) + [DigitChar(x % 10)]
  }

  /** The number a string of decimal digits spells, read from the left. */
  function DigitsValue(s: string): nat
    requires forall i :: 0 <= i < |s| ==> '0' <= s[i] <= '9'
  {
    if s == [] then 0 else 10 * DigitsValue(s[..|s| - 1]) + (s[|s| - 1] as int - '0' as int)
  }

  /** The character of digit d stands for d. */
  lemma DigitCharValue(d: nat)
    requires d < 10
    ensures DigitChar(d) as int - '0' as int == d
  {
  }

  /** The decimal text of x spells x, without a leading zero. */
  lemma {:induction false} NatToStringValue(x: nat)
    ensures DigitsValue(NatToString(x)) == x
    ensures x >= 10 ==> NatToString(x)[0] != '0'
  {
    var s := NatToString(x);
    if x < 10 {
      DigitCharValue(x);
      assert s[..0] == [];
    } else {
      var t := NatToString(x / 10);
      NatToStringValue(x / 10);
      assert s == t + [DigitChar(x % 10)];
      assert s[..|s| - 1] == t;
      DigitCharValue(x % 10);
      if x / 10 < 10 {
        DigitCharValue(x / 10);
      }
    }
  }


  function RenderLines(lines: seq<(nat, nat)>): string {
    if lines == [] then ""
    else NatToString(lines[0].0) + " " + NatToString(lines[0].1) + "\n" + RenderLines(lines[1..])
  }

  /** Printing a run of lines is printing each part in turn. */
  lemma {:induction false} RenderLinesAppend(a: seq<(nat, nat)>, b: seq<(nat, nat)>)
    ensures RenderLines(a + b) == RenderLines(a) + RenderLines(b)
  {
    if a == [] {
      assert a + b == b;
    } else {
      var head := NatToString(a[0].0) + " " + NatToString(a[0].1) + "\n";
      assert (a + b)[0] == a[0] && (a + b)[1..] == a[1..] + b;
      assert RenderLines(a + b) == head + RenderLines(a[1..] + b);
      RenderLinesAppend(a[1..], b);
    }
  }

  /** The text written by operator<<: a header "n m" and then the edge lines. */
  function Render(n: nat, m: nat, adj: Adjacency): string {
    NatToString(n) + " " + NatToString(m) + "\n" + RenderLines(EdgeLines(adj))
  }

  lemma {:induction false} LinesFromEmpty(n: nat, src: nat)
    ensures LinesFrom(Empty(n), src) == []
    decreases n - src
  {
    if src < n {
      LinesFromEmpty(n, src + 1);
      assert SourceLines(src, Empty(n)[src]) == [];
    }
  }

  /** A graph without edges prints only its header line. */
  lemma RenderEdgeless(n: nat, m: nat)
    ensures Render(n, m, Empty(n)) == NatToString(n) + " " + NatToString(m) + "\n"
  {
    LinesFromEmpty(n, 0);
  }

  /** Ten vertices and no edges print as "10 0". */
  lemma RenderTenEdgeless()
    ensures Render(10, 0, Empty(10)) == "10 0\n"
  {
    RenderEdgeless(10, 0);
    assert NatToString(1) == "1" && NatToString(0) == "0";
    assert NatToString(10) == NatToString(1) + "0";
  }

  // ---------------------------------------------------------------------------
  // The graph object

  class Graph {
    var n: nat
    var m: nat
    var neighbours: Adjacency

    ghost predicate Valid()
      reads this
    {
      WellFormed(n, neighbours) && Symmetric(neighbours)
    }

    /** Graph(n, m, in): n empty lists, then the first m pairs of the input, in order. */
    constructor (n: nat, m: nat, input: seq<nat>)
      requires 2 * m <= |input| && InRange(n, Pairs(input, m))
      ensures Valid() && this.n == n && this.m == m
      ensures neighbours == Build(n, Pairs(input, m))
    {
      this.n := n;
      this.m := m;
      neighbours := Empty(n);
      new;
      ReadEdges(input);
    }

    /** Graph(in): n and m are the first two tokens, the pairs follow. */
    constructor FromStream(input: seq<nat>)
      requires 2 <= |input| && 2 * input[1] <= |input| - 2
      requires InRange(input[0], Pairs(input[2..], input[1]))
      ensures Valid() && n == input[0] && m == input[1]
      ensures neighbours == Build(input[0], Pairs(input[2..], input[1]))
    {
      n := input[0];
      m := input[1];
      neighbours := Empty(input[0]);
      new;
      ReadEdges(input[2..]);
    }

    /** The loop shared by the constructors: read m pairs and add each edge. */
    method ReadEdges(input: seq<nat>)
      requires Valid() && neighbours == Empty(n)
      requires 2 * m <= |input| && InRange(n, Pairs(input, m))
      modifies this
      ensures Valid() && n == old(n) && m == old(m)
      ensures neighbours == Build(n, Pairs(input, m))
    {
      var edgeIndex := 0;
      assert Pairs(input, 0) == [];
      while edgeIndex < m
        invariant 0 <= edgeIndex <= m
        invariant n == old(n) && m == old(m)
        invariant InRange(n, Pairs(input, edgeIndex))
        invariant neighbours == Build(n, Pairs(input, edgeIndex))
      {
        ReadStep(n, input, m, edgeIndex);
        BuildValid(n, Pairs(input, edgeIndex));
        AddEdge(input[2 * edgeIndex], input[2 * edgeIndex + 1]);
        edgeIndex := edgeIndex + 1;
      }
      BuildValid(n, Pairs(input, m));
    }

    /** getNeighbours(u): the stored 0-indexed list of u. */
    method GetNeighbours(u: nat) returns (nbrs: seq<nat>)
      requires Valid() && u < n
      ensures nbrs == neighbours[u]
      ensures forall k :: 0 <= k < |nbrs| ==> nbrs[k] < n
    {
      nbrs := neighbours[u];
    }

    /** hasEdge(u, v), declared as areConnected: search the shorter list (u's on a
        tie) for the other endpoint. */
    method HasEdge(u: nat, v: nat) returns (connected: bool, ghost inspected: nat)
      requires Valid() && 1 <= u <= n && 1 <= v <= n
      ensures connected <==> Adjacent(neighbours, u - 1, v - 1)
      ensures connected <==> Adjacent(neighbours, v - 1, u - 1)
      ensures inspected <= |neighbours[u - 1]| && inspected <= |neighbours[v - 1]|
    {
      var s, t := u - 1, v - 1;
      var sHasMoreNeighbours := |neighbours[s]| > |neighbours[t]|;
      var nbrs := if sHasMoreNeighbours then neighbours[t] else neighbours[s];
      var value := if sHasMoreNeighbours then s else t;
      var i := 0;
      while i < |nbrs| && nbrs[i] != value
        invariant 0 <= i <= |nbrs|
        invariant value !in nbrs[..i]
      {
        i := i + 1;
      }
      connected := i < |nbrs|;
      inspected := if connected then i + 1 else i;
      assert nbrs == nbrs[..i] + nbrs[i..];
      AdjacentSymmetric(neighbours, s, t);
    }

    /** addEdge(u, v): append v-1 to list u-1 and u-1 to list v-1; nothing else changes. */
    method AddEdge(u: nat, v: nat)
      requires Valid() && 1 <= u <= n && 1 <= v <= n
      modifies this
      ensures Valid() && n == old(n) && m == old(m)
      ensures neighbours == AddEdgeAdj(old(neighbours), u - 1, v - 1)
    {
      AddEdgePreserves(n, neighbours, u - 1, v - 1);
      neighbours := neighbours[u - 1 := neighbours[u - 1] + [v - 1]];
      neighbours := neighbours[v - 1 := neighbours[v - 1] + [u - 1]];
    }

    /** operator<<: the header "n m" followed by one line per printed edge. */
    function ToString(): (text: string)
      reads this
    {
      Render(n, m, neighbours)
    }
  }
}
