/** The graphs of the repository's test program, worked out on the model of `Graph`:
    the star built by both constructors, the edges added one by one, and the printed
    form of a six-vertex graph. A lemma whose statement names literal data takes it
    as a parameter fixed by its precondition, which keeps the solver from unfolding
    the recursive functions on it everywhere. */
module GraphExamples {
  import opened Graphs

  // ---------------------------------------------------------------------------
  // Lists computed front to back

  /** The list vertex x receives from the first k pairs, folded from the front. */
  function IncidentUpTo(pairs: seq<(nat, nat)>, x: nat, k: nat): seq<int>
    requires k <= |pairs|
  {
    if k == 0 then []
    else IncidentUpTo(pairs, x, k - 1) + Appended(x, pairs[k - 1].0 as int - 1, pairs[k - 1].1 as int - 1)
  }

  lemma {:induction false} IncidentUpToPrefix(pairs: seq<(nat, nat)>, x: nat, k: nat)
    requires k <= |pairs|
    ensures Incident(pairs[..k], x) == IncidentUpTo(pairs, x, k)
  {
    if k > 0 {
      IncidentUpToPrefix(pairs, x, k - 1);
      assert pairs[..k][..k - 1] == pairs[..k - 1];
    }
  }

  /** List x of the constructed graph, computed front to back. */
  lemma BuiltRow(n: nat, pairs: seq<(nat, nat)>, x: nat)
    requires InRange(n, pairs) && x < n
    ensures Build(n, pairs)[x] == IncidentUpTo(pairs, x, |pairs|)
  {
    BuildRow(n, pairs, x);
    IncidentUpToPrefix(pairs, x, |pairs|);
    assert pairs[..|pairs|] == pairs;
  }

  // ---------------------------------------------------------------------------
  // The star: "1 2 1 3 1 4 1 5 1 6" on six vertices

  function StarTokens(): seq<nat> {
    [1, 2, 1, 3, 1, 4, 1, 5, 1, 6]
  }

  function StarPairs(): seq<(nat, nat)> {
    [(1, 2), (1, 3), (1, 4), (1, 5), (1, 6)]
  }

  function StarLists(): Adjacency {
    [[1, 2, 3, 4, 5], [0], [0], [0], [0], [0]]
  }

  lemma StarCentre() ensures IncidentUpTo(StarPairs(), 0, 5) == StarLists()[0] { }
  lemma StarLeaf(x: nat) requires 1 <= x < 6 ensures IncidentUpTo(StarPairs(), x, 5) == StarLists()[x] { }

  /** Graph(6, 5, in) on the star's input holds the centre's five neighbours and one per leaf. */
  lemma StarBuild(tokens: seq<nat>)
    requires tokens == StarTokens()
    ensures 2 * 5 <= |tokens| && InRange(6, Pairs(tokens, 5))
    ensures Build(6, Pairs(tokens, 5)) == StarLists()
  {
    assert Pairs(tokens, 5) == StarPairs();
    var b := Build(6, StarPairs());
    BuiltRow(6, StarPairs(), 0);
    StarCentre();
    forall x | 1 <= x < 6
      ensures b[x] == StarLists()[x]
    {
      BuiltRow(6, StarPairs(), x);
      StarLeaf(x);
    }
    assert b == StarLists();
  }

  /** In the star, vertex 1 is joined to every other vertex and no two others are joined
      (0-indexed: i and j are adjacent exactly when one of them is 0). */
  lemma StarEdges(tokens: seq<nat>)
    requires tokens == StarTokens()
    ensures 2 * 5 <= |tokens| && InRange(6, Pairs(tokens, 5))
    ensures forall i, j :: 0 <= i < 6 && 0 <= j < 6 ==>
      (Adjacent(Build(6, Pairs(tokens, 5)), i, j) <==> (i == 0) != (j == 0))
  {
    StarBuild(tokens);
  }

  /** Graph(in) on "6 5" followed by the star's pairs reads the same graph. */
  lemma StarFromStream(input: seq<nat>)
    requires input == [6, 5] + StarTokens()
    ensures 2 <= |input| && input[0] == 6 && input[1] == 5 && 2 * 5 <= |input| - 2
    ensures InRange(6, Pairs(input[2..], 5)) && Build(6, Pairs(input[2..], 5)) == StarLists()
  {
    assert input[2..] == StarTokens();
    StarBuild(input[2..]);
  }

  // ---------------------------------------------------------------------------
  // Edges added one by one against the same edges read from the input

  function PathRead(): seq<(nat, nat)> {
    [(1, 2), (2, 3), (3, 4), (4, 5)]
  }

  function PathAdded(): seq<(nat, nat)> {
    [(1, 2), (3, 4), (2, 3), (5, 4)]
  }

  lemma PathReadRow(x: nat) requires x < 5 ensures IncidentUpTo(PathRead(), x, 4) == [[1], [0, 2], [1, 3], [2, 4], [3]][x] { }
  lemma PathAddedRow(x: nat) requires x < 5 ensures IncidentUpTo(PathAdded(), x, 4) == [[1], [0, 2], [3, 1], [2, 4], [3]][x] { }

  /** The lists of the path read in order. */
  ghost predicate PathReadRows(adj: Adjacency) {
    |adj| == 5 && adj[0] == [1] && adj[1] == [0, 2] && adj[2] == [1, 3] && adj[3] == [2, 4] && adj[4] == [3]
  }

  /** The lists of the path added out of order: only list 3 differs, in order. */
  ghost predicate PathAddedRows(adj: Adjacency) {
    |adj| == 5 && adj[0] == [1] && adj[1] == [0, 2] && adj[2] == [3, 1] && adj[3] == [2, 4] && adj[4] == [3]
  }

  lemma PathReadBuild(read: seq<(nat, nat)>)
    requires read == PathRead()
    ensures InRange(5, read) && PathReadRows(Build(5, read))
  {
    forall x | 0 <= x < 5
      ensures Build(5, read)[x] == [[1], [0, 2], [1, 3], [2, 4], [3]][x]
    {
      BuiltRow(5, read, x); PathReadRow(x);
    }
  }

  lemma PathAddedBuild(added: seq<(nat, nat)>)
    requires added == PathAdded()
    ensures InRange(5, added) && PathAddedRows(Build(5, added))
  {
    forall x | 0 <= x < 5
      ensures Build(5, added)[x] == [[1], [0, 2], [3, 1], [2, 4], [3]][x]
    {
      BuiltRow(5, added, x); PathAddedRow(x);
    }
  }

  /** The path 1-2-3-4-5 read in order, and added as (1,2), (3,4), (2,3), (5,4), give
      the same edge relation, though list 3 holds its neighbours in another order. */
  lemma AddedPathEdges(read: seq<(nat, nat)>, added: seq<(nat, nat)>)
    requires read == PathRead() && added == PathAdded()
    ensures InRange(5, read) && InRange(5, added)
    ensures Build(5, read)[2] == [1, 3] && Build(5, added)[2] == [3, 1]
    ensures forall x, y :: 0 <= x < 5 && 0 <= y < 5 ==>
      (Adjacent(Build(5, read), x, y) <==> Adjacent(Build(5, added), x, y))
  {
    PathReadBuild(read);
    PathAddedBuild(added);
  }

  // ---------------------------------------------------------------------------
  // The printing example: six vertices, ten edges

  function PrintTokens(): seq<nat> {
    [1, 2, 1, 3, 1, 4, 1, 5, 1, 6, 2, 3, 3, 4, 4, 5, 5, 6, 6, 2]
  }

  function PrintPairs(): seq<(nat, nat)> {
    [(1, 2), (1, 3), (1, 4), (1, 5), (1, 6), (2, 3), (3, 4), (4, 5), (5, 6), (6, 2)]
  }

  /** The printed edge lines: each edge once, smaller id first, by ascending source. */
  function PrintLines(): seq<(nat, nat)> {
    [(1, 2), (1, 3), (1, 4), (1, 5), (1, 6), (2, 3), (2, 6), (3, 4), (4, 5), (5, 6)]
  }

  /** Lists holding the example's rows, given one by one. */
  ghost predicate PrintRows(adj: Adjacency) {
    |adj| == 6 && adj[0] == [1, 2, 3, 4, 5] && adj[1] == [0, 2, 5] && adj[2] == [0, 1, 3] &&
    adj[3] == [0, 2, 4] && adj[4] == [0, 3, 5] && adj[5] == [0, 4, 1]
  }

  lemma PrintRow0() ensures IncidentUpTo(PrintPairs(), 0, 10) == [1, 2, 3, 4, 5] { }
  lemma PrintRow1() ensures IncidentUpTo(PrintPairs(), 1, 10) == [0, 2, 5] { }
  lemma PrintRow2() ensures IncidentUpTo(PrintPairs(), 2, 10) == [0, 1, 3] { }
  lemma PrintRow3() ensures IncidentUpTo(PrintPairs(), 3, 10) == [0, 2, 4] { }
  lemma PrintRow4() ensures IncidentUpTo(PrintPairs(), 4, 10) == [0, 3, 5] { }
  lemma PrintRow5() ensures IncidentUpTo(PrintPairs(), 5, 10) == [0, 4, 1] { }

  lemma PrintPairsRead(tokens: seq<nat>)
    requires tokens == PrintTokens()
    ensures 2 * 10 <= |tokens| && Pairs(tokens, 10) == PrintPairs()
  {
  }

  /** Graph(6, 10, in) on the example's pairs holds these lists; vertex 6's list keeps
      the input order, 1 before 5 before 2. */
  lemma PrintBuild(pairs: seq<(nat, nat)>)
    requires pairs == PrintPairs()
    ensures InRange(6, pairs) && PrintRows(Build(6, pairs))
  {
    BuiltRow(6, pairs, 0); PrintRow0();
    BuiltRow(6, pairs, 1); PrintRow1();
    BuiltRow(6, pairs, 2); PrintRow2();
    BuiltRow(6, pairs, 3); PrintRow3();
    BuiltRow(6, pairs, 4); PrintRow4();
    BuiltRow(6, pairs, 5); PrintRow5();
  }

  /** Printing walks the sources in ascending order. */
  lemma LinesFromStep(adj: Adjacency, src: nat)
    requires src < |adj|
    ensures LinesFrom(adj, src) == SourceLines(src, adj[src]) + LinesFrom(adj, src + 1)
  {
  }

  lemma PrintSource0() ensures SourceLines(0, [1, 2, 3, 4, 5]) == PrintLines()[..5] { }
  lemma PrintSource1() ensures SourceLines(1, [0, 2, 5]) == PrintLines()[5..7] { }
  lemma PrintSource2() ensures SourceLines(2, [0, 1, 3]) == PrintLines()[7..8] { }
  lemma PrintSource3() ensures SourceLines(3, [0, 2, 4]) == PrintLines()[8..9] { }
  lemma PrintSource4() ensures SourceLines(4, [0, 3, 5]) == PrintLines()[9..] { }
  lemma PrintSource5() ensures SourceLines(5, [0, 4, 1]) == [] { }

  lemma PrintFrom3(adj: Adjacency)
    requires PrintRows(adj)
    ensures LinesFrom(adj, 3) == PrintLines()[8..]
  {
    var ls := PrintLines();
    LinesFromStep(adj, 5); PrintSource5();
    LinesFromStep(adj, 4); PrintSource4();
    LinesFromStep(adj, 3); PrintSource3();
    assert ls[8..9] + ls[9..] == ls[8..];
  }

  /** The edge lines of the example lists. */
  lemma PrintEdgeLines(adj: Adjacency)
    requires PrintRows(adj)
    ensures EdgeLines(adj) == PrintLines()
  {
    var ls := PrintLines();
    PrintFrom3(adj);
    LinesFromStep(adj, 2); PrintSource2();
    assert ls[7..8] + ls[8..] == ls[7..];
    LinesFromStep(adj, 1); PrintSource1();
    assert ls[5..7] + ls[7..] == ls[5..];
    LinesFromStep(adj, 0); PrintSource0();
    assert ls[..5] + ls[5..] == ls;
  }

  lemma PrintChunk1(ls: seq<(nat, nat)>)
    requires ls == PrintLines()
    ensures |ls| == 10 && RenderLines(ls[..2]) == "1 2\n1 3\n"
  {
    assert RenderLines([(1, 2), (1, 3)]) == "1 2\n1 3\n";
    assert ls[..2] == [(1, 2), (1, 3)];
  }

  lemma PrintChunk2(ls: seq<(nat, nat)>)
    requires ls == PrintLines()
    ensures |ls| == 10 && RenderLines(ls[2..4]) == "1 4\n1 5\n"
  {
    assert RenderLines([(1, 4), (1, 5)]) == "1 4\n1 5\n";
    assert ls[2..4] == [(1, 4), (1, 5)];
  }

  lemma PrintChunk3(ls: seq<(nat, nat)>)
    requires ls == PrintLines()
    ensures |ls| == 10 && RenderLines(ls[4..6]) == "1 6\n2 3\n"
  {
    assert RenderLines([(1, 6), (2, 3)]) == "1 6\n2 3\n";
    assert ls[4..6] == [(1, 6), (2, 3)];
  }

  lemma PrintChunk4(ls: seq<(nat, nat)>)
    requires ls == PrintLines()
    ensures |ls| == 10 && RenderLines(ls[6..8]) == "2 6\n3 4\n"
  {
    assert RenderLines([(2, 6), (3, 4)]) == "2 6\n3 4\n";
    assert ls[6..8] == [(2, 6), (3, 4)];
  }

  lemma PrintChunk5(ls: seq<(nat, nat)>)
    requires ls == PrintLines()
    ensures |ls| == 10 && RenderLines(ls[8..]) == "4 5\n5 6\n"
  {
    assert RenderLines([(4, 5), (5, 6)]) == "4 5\n5 6\n";
    assert ls[8..] == [(4, 5), (5, 6)];
  }

  /** Printing the first j lines is printing the first i and then lines i to j. */
  lemma RenderSplit(ls: seq<(nat, nat)>, i: nat, j: nat, front: string, middle: string)
    requires i <= j <= |ls|
    requires RenderLines(ls[..i]) == front && RenderLines(ls[i..j]) == middle
    ensures RenderLines(ls[..j]) == front + middle
  {
    RenderLinesAppend(ls[..i], ls[i..j]);
    assert ls[..i] + ls[i..j] == ls[..j];
  }

  /** The text of the example's edge lines. */
  lemma PrintText(ls: seq<(nat, nat)>)
    requires ls == PrintLines()
    ensures RenderLines(ls) == "1 2\n1 3\n" + "1 4\n1 5\n" + "1 6\n2 3\n" + "2 6\n3 4\n" + "4 5\n5 6\n"
  {
    PrintChunk1(ls); PrintChunk2(ls); PrintChunk3(ls); PrintChunk4(ls); PrintChunk5(ls);
    var t1, t2, t3, t4, t5 := "1 2\n1 3\n", "1 4\n1 5\n", "1 6\n2 3\n", "2 6\n3 4\n", "4 5\n5 6\n";
    RenderSplit(ls, 2, 4, t1, t2);
    RenderSplit(ls, 4, 6, t1 + t2, t3);
    RenderSplit(ls, 6, 8, t1 + t2 + t3, t4);
    assert ls[8..10] == ls[8..];
    RenderSplit(ls, 8, 10, t1 + t2 + t3 + t4, t5);
    assert ls[..10] == ls;
  }

  /** The text of the edge lines of lists holding the example rows. */
  lemma PrintRowsText(adj: Adjacency)
    requires PrintRows(adj)
    ensures RenderLines(EdgeLines(adj)) == "1 2\n1 3\n" + "1 4\n1 5\n" + "1 6\n2 3\n" + "2 6\n3 4\n" + "4 5\n5 6\n"
  {
    PrintEdgeLines(adj);
    PrintText(EdgeLines(adj));
  }

  /** The text of the edge lines of the graph built from the example's pairs. */
  lemma PrintBody(pairs: seq<(nat, nat)>)
    requires pairs == PrintPairs()
    ensures InRange(6, pairs)
    ensures RenderLines(EdgeLines(Build(6, pairs))) == "1 2\n1 3\n" + "1 4\n1 5\n" + "1 6\n2 3\n" + "2 6\n3 4\n" + "4 5\n5 6\n"
  {
    PrintBuild(pairs);
    PrintRowsText(Build(6, pairs));
  }

  /** The header line of six vertices and ten edges. */
  lemma PrintHeader()
    ensures NatToString(6) + " " + NatToString(10) + "\n" == "6 10\n"
  {
    assert NatToString(6) == "6" && NatToString(1) == "1" && NatToString(0) == "0";
    assert NatToString(10) == NatToString(1) + "0";
  }

  /** The printed text of a graph from its header and the text of its edge lines. */
  lemma RenderFrom(n: nat, m: nat, adj: Adjacency, header: string, body: string)
    requires NatToString(n) + " " + NatToString(m) + "\n" == header
    requires RenderLines(EdgeLines(adj)) == body
    ensures Render(n, m, adj) == header + body
  {
  }

  lemma PrintJoin(text: string)
    requires text == "6 10\n" + ("1 2\n1 3\n" + "1 4\n1 5\n" + "1 6\n2 3\n" + "2 6\n3 4\n" + "4 5\n5 6\n")
    ensures text == "6 10\n1 2\n1 3\n1 4\n1 5\n1 6\n2 3\n2 6\n3 4\n4 5\n5 6\n"
  {
  }

  /** Graph(6, 10, in) on "1 2 1 3 1 4 1 5 1 6 2 3 3 4 4 5 5 6 6 2" prints the header
      "6 10" and then each edge once, smaller id first, by ascending source. */
  lemma PrintExample(tokens: seq<nat>)
    requires tokens == PrintTokens()
    ensures 2 * 10 <= |tokens| && InRange(6, Pairs(tokens, 10))
    ensures Render(6, 10, Build(6, Pairs(tokens, 10))) ==
            "6 10\n1 2\n1 3\n1 4\n1 5\n1 6\n2 3\n2 6\n3 4\n4 5\n5 6\n"
  {
    PrintPairsRead(tokens);
    var pairs := Pairs(tokens, 10);
    PrintBody(pairs);
    PrintHeader();
    RenderFrom(6, 10, Build(6, pairs), "6 10\n", "1 2\n1 3\n" + "1 4\n1 5\n" + "1 6\n2 3\n" + "2 6\n3 4\n" + "4 5\n5 6\n");
    PrintJoin(Render(6, 10, Build(6, pairs)));
  }
}
