/** The fixed graph of `checkSCC` (solver.py), with the labels 'A' .. 'I'
    numbered 0 .. 8 (the labels `numToString` gives them, in the same
    order): both solvers find the components {A, B, C}, {D, E}, {F},
    {G, H} and {I}. */
module SccFixture {
  import opened Base
  import opened Sorting
  import opened Partition
  import opened Graphs

  /** The adjacency dictionary as written in `checkSCC`. */
  const Given: Adjacency := map[0 := [1], 1 := [0, 2, 3], 2 := [0, 7], 3 := [6, 4], 4 := [3, 5],
                                5 := [5], 6 := [8, 7], 7 := [6], 8 := []]

  /** The same lists sorted by the constructor. */
  const E1: Adjacency := map[0 := [1], 1 := [0, 2, 3], 2 := [0, 7], 3 := [4, 6], 4 := [3, 5],
                             5 := [5], 6 := [7, 8], 7 := [6], 8 := []]

  const V1: seq<int> := [0, 1, 2, 3, 4, 5, 6, 7, 8]

  /** `Graph(V, E, isDirected=True)` of `checkSCC`. */
  const G1 := Graph(V1, E1, true, None, None)

  /** The expected components, each sorted. */
  const Expected: seq<seq<int>> := [[0, 1, 2], [3, 4], [5], [6, 7], [8]]

  /** `E` has the sorted lists of the fixture. */
  ghost predicate Lists(E: Adjacency) {
    && Wf(E) && 0 in E && 1 in E && 2 in E && 3 in E && 4 in E && 5 in E && 6 in E && 7 in E && 8 in E
    && E[0] == [1] && E[1] == [0, 2, 3] && E[2] == [0, 7] && E[3] == [4, 6] && E[4] == [3, 5]
    && E[5] == [5] && E[6] == [7, 8] && E[7] == [6] && E[8] == []
  }

  lemma E1Lists()
    ensures Lists(E1)
  {
    E1Wf();
  }

  lemma E1Wf()
    ensures Wf(E1) && forall v | v in V1 :: v in E1
  {
  }

  lemma SortedD()
    ensures SortBy([6, 4], IntLe) == [4, 6]
  {
    assert [6, 4][1..] == [4];
    assert SortBy([4], IntLe) == [4];
    assert Insert(6, [4], IntLe) == [4, 6];
  }

  lemma SortedG()
    ensures SortBy([8, 7], IntLe) == [7, 8]
  {
    assert [8, 7][1..] == [7];
    assert SortBy([7], IntLe) == [7];
    assert Insert(8, [7], IntLe) == [7, 8];
  }

  /** The constructor's sort of the list of `v`. */
  lemma SortedList(v: int)
    requires v in Given
    ensures SortBy(Given[v], IntLe) == E1[v]
  {
    var s := Given[v];
    if v == 3 {
      assert s == [6, 4];
      SortedD();
    } else if v == 6 {
      assert s == [8, 7];
      SortedG();
    } else {
      assert s == E1[v] && SortedBy(s, IntLe);
      SortedIntsFixed(s);
    }
  }

  lemma SortedLists()
    ensures forall v | v in Given :: SortBy(Given[v], IntLe) == E1[v]
  {
    forall v | v in Given ensures SortBy(Given[v], IntLe) == E1[v] {
      SortedList(v);
    }
  }

  /** What the constructor asks of `V` and `G`, with `V` sorted and `E`
      holding the sorted lists of `G`. */
  ghost predicate Accepts(V: seq<int>, G: Adjacency, E: Adjacency) {
    && NoDup(V) && Closed(V, G) && Complete(V, G) && SortBy(V, IntLe) == V
    && G.Keys == E.Keys && forall v | v in G :: SortBy(G[v], IntLe) == E[v]
  }

  /** The graph the constructor builds from lists it accepts. */
  lemma Accepted(V: seq<int>, G: Adjacency, E: Adjacency)
    requires Accepts(V, G, E)
    ensures NewGraph(V, G, true, None, None) == Ok(Graph(V, E, true, None, None))
  {
    var r := NewGraph(V, G, true, None, None).value;
    assert r.V == V;
    forall v | v in r.E ensures r.E[v] == E[v] {
      assert r.E[v] == SortBy(G[v], IntLe);
    }
    assert r.E == E;
  }

  /** A list holding `0, 1, ..` in order has no repeat and is sorted. */
  lemma Iota(s: seq<int>)
    requires forall i | 0 <= i < |s| :: s[i] == i
    ensures NoDup(s) && SortedBy(s, IntLe)
  {
  }

  lemma V1Sorted()
    ensures NoDup(V1) && SortedBy(V1, IntLe) && SortBy(V1, IntLe) == V1
  {
    assert forall i | 0 <= i < |V1| :: V1[i] == i;
    Iota(V1);
    SortedIntsFixed(V1);
  }

  lemma GivenClosed()
    ensures Closed(V1, Given) && Complete(V1, Given) && Given.Keys == E1.Keys
  {
  }

  lemma GivenAccepted()
    ensures Accepts(V1, Given, E1)
  {
    V1Sorted();
    GivenClosed();
    SortedLists();
  }

  /** `Graph(V, E, isDirected=True)` sorts `D`'s and `G`'s lists. */
  lemma Construct()
    ensures NewGraph(V1, Given, true, None, None) == Ok(Graph(V1, E1, true, None, None))
  {
    GivenAccepted();
    Accepted(V1, Given, E1);
  }

  // ---------------------------------------------------------------------
  // The expected result

  lemma ExpectedSorted()
    ensures forall i | 0 <= i < |Expected| :: SortedBy(Expected[i], IntLe)
  {
    assert SortedBy([0, 1, 2], IntLe) && SortedBy([3, 4], IntLe) && SortedBy([6, 7], IntLe);
    forall i | 0 <= i < |Expected| ensures SortedBy(Expected[i], IntLe) {
      assert Expected[i] in {[0, 1, 2], [3, 4], [5], [6, 7], [8]};
    }
  }

  lemma ExpectedCanonical()
    ensures Canonical(Expected, IntLe)
  {
    assert LexLe([0, 1, 2], [3, 4], IntLe) && LexLe([3, 4], [5], IntLe);
    assert LexLe([5], [6, 7], IntLe) && LexLe([6, 7], [8], IntLe);
    ExpectedSorted();
    IntLeTotal();
    LexTotalOrder(IntLe);
    ChainSorted(Expected, Lex(IntLe));
  }

  /** Any component list without a repeated vertex that covers the fixture's
      vertices and groups them as `Expected` does gives `SCC(Expected)`. */
  lemma ExpectedScc(c: seq<seq<int>>)
    requires NoDup(Flatten(c)) && multiset(Flatten(c)) == multiset(V1) && Groups(c) == Groups(Expected)
    ensures NewScc(c) == Ok(Scc(V1, Expected))
  {
    V1Sorted();
    ExpectedCanonical();
    NewSccIs(c, V1, Expected);
  }

  lemma G1Valid()
    ensures NewGraph(V1, Given, true, None, None) == Ok(G1) && Valid(G1)
  {
    Construct();
    NewGraphValid(V1, Given, true, None, None);
  }

  /** The graph `Graph(V, E, isDirected=True)` builds in `checkSCC`. */
  lemma Built(g: Graph)
    requires NewGraph(V1, Given, true, None, None) == Ok(g)
    ensures g == G1 && Valid(g) && Lists(g.E)
  {
    G1Valid();
    E1Lists();
  }
}
