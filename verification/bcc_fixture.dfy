/** The fixed graph of `checkBCC` (solver.py): six vertices 1 .. 6, an
    undirected graph given with both directions of every edge. */
module BccFixture {
  import opened Base
  import opened Sorting
  import opened Partition
  import opened Graphs
  import opened TarjanBcc
  import opened TarjanBccResult
  import opened SentinelCase

  /** The adjacency dictionary as written in `checkBCC`; its lists are sorted already. */
  const EB: Adjacency := map[1 := [2, 3, 6], 2 := [1, 3, 4, 5], 3 := [1, 2], 4 := [2, 5], 5 := [2, 4], 6 := [1]]

  const VB: seq<int> := [1, 2, 3, 4, 5, 6]

  /** `Graph(V, E, isDirected=False)` of `checkBCC`. */
  const GB := Graph(VB, EB, false, None, None)

  /** `E` has the lists of the fixture. */
  ghost predicate ListsB(E: Adjacency) {
    && E.Keys == {1, 2, 3, 4, 5, 6}
    && E[1] == [2, 3, 6] && E[2] == [1, 3, 4, 5] && E[3] == [1, 2] && E[4] == [2, 5] && E[5] == [2, 4] && E[6] == [1]
  }

  lemma EBLists()
    ensures ListsB(EB)
  {
  }

  /** Every edge with its reverse, no self-loop, no repeated entry. */
  lemma ListsWf(E: Adjacency)
    requires ListsB(E)
    ensures Wf(E)
  {
  }

  lemma ListsSimple(E: Adjacency)
    requires ListsB(E)
    ensures Simple(E) && Wf(E)
  {
    assert NoDup(E[1]) && NoDup(E[2]) && NoDup(E[3]) && NoDup(E[4]) && NoDup(E[5]) && NoDup(E[6]);
  }

  /** A list holding `1, 2, ..` in order has no repeat and is sorted. */
  lemma Ascending(s: seq<int>)
    requires forall i | 0 <= i < |s| :: s[i] == i + 1
    ensures NoDup(s) && SortedBy(s, IntLe) && -1 !in s
  {
  }

  lemma ListsSorted(E: Adjacency)
    requires ListsB(E)
    ensures forall v | v in E :: SortedBy(E[v], IntLe)
  {
    assert SortedBy([2, 3, 6], IntLe) && SortedBy([1, 3, 4, 5], IntLe) && SortedBy([1, 2], IntLe);
    assert SortedBy([2, 5], IntLe) && SortedBy([2, 4], IntLe) && SortedBy([1], IntLe);
  }

  lemma ListsClosed(E: Adjacency)
    requires ListsB(E)
    ensures Closed([1, 2, 3, 4, 5, 6], E) && Complete([1, 2, 3, 4, 5, 6], E)
  {
  }

  lemma ListsValid(g: Graph)
    requires g.V == [1, 2, 3, 4, 5, 6] && ListsB(g.E)
    ensures Valid(g) && -1 !in g.V
  {
    assert forall i | 0 <= i < |g.V| :: g.V[i] == i + 1;
    Ascending(g.V);
    ListsSorted(g.E);
    ListsClosed(g.E);
  }

  /** The graph `Graph(V, E, isDirected=False)` builds in `checkBCC`. */
  lemma BuiltB(g: Graph)
    requires NewGraph(VB, EB, false, None, None) == Ok(g)
    ensures g == GB
  {
    GBValid();
    Rebuilt(GB, g);
  }

  lemma GBValid()
    ensures Valid(GB) && !GB.directed && GB.scc == None && GB.bcc == None && NewGraph(GB.V, GB.E, false, None, None) == NewGraph(VB, EB, false, None, None)
  {
    EBLists();
    ListsValid(GB);
  }

  /** The constructor returns a valid undirected graph without attachments unchanged. */
  lemma Rebuilt(h: Graph, g: Graph)
    requires Valid(h) && !h.directed && h.scc == None && h.bcc == None
    requires NewGraph(h.V, h.E, false, None, None) == Ok(g)
    ensures g == h
  {
    NewGraphIdempotent(h, false, None, None);
  }

  /** For the graph `G` of `checkBCC`: the solver as written returns what the
      solver with parentless roots returns (no vertex is -1), so
      `tbcc.solve(G)` succeeds and `G.setBCC(bcc)` attaches its result. */
  lemma CheckBcc(g: Graph)
    requires NewGraph(VB, EB, false, None, None) == Ok(g)
    ensures Valid(g) && BiconnectedAsWritten(g) == Biconnected(g) && Biconnected(g).Ok?
    ensures SetBcc(g, Biconnected(g).value).Ok?
  {
    BuiltB(g);
    EBLists();
    ListsSimple(g.E);
    ListsValid(g);
    SentinelHarmless(g);
    BiconnectedAttaches(g);
  }

  // ---------------------------------------------------------------------
  // The search from vertex 1, step by step, for any adjacency with the
  // fixture's lists: `An` when `n` is entered, `Bn` when its visit ends,
  // `Cn` after the component closed by the tree edge into `n` is popped

  const P := Progress
  const K := Known

  // The status, index and parent maps grow one entry at a time
  const S1 := map[1 := P]
  const S2 := S1[2 := P]
  const S3 := S2[3 := P]
  const S3K := S3[3 := K]
  const S4 := S3K[4 := P]
  const S5 := S4[5 := P]
  const S5K := S5[5 := K]
  const S4K := S5K[4 := K]
  const S2K := S4K[2 := K]
  const S6 := S2K[6 := P]
  const S6K := S6[6 := K]
  const S1K := S6K[1 := K]

  const N1 := map[1 := 0]
  const N2 := N1[2 := 1]
  const N3 := N2[3 := 2]
  const N4 := N3[4 := 3]
  const N5 := N4[5 := 4]
  const N6 := N5[6 := 5]

  const T2 := map[2 := 1]
  const T3 := T2[3 := 2]
  const T4 := T3[4 := 2]
  const T5 := T4[5 := 4]
  const T6 := T5[6 := 1]

  /** The components popped: {2, 4, 5}, then {1, 2, 3}, then the bridge {1, 6}. */
  const L1: seq<seq<Edge>> := [[(5, 2), (4, 5), (2, 4)]]
  const L2: seq<seq<Edge>> := [[(5, 2), (4, 5), (2, 4)], [(3, 1), (2, 3), (1, 2)]]
  const L3: seq<seq<Edge>> := [[(5, 2), (4, 5), (2, 4)], [(3, 1), (2, 3), (1, 2)], [(1, 6)]]

  const A1 := State(1, S1, N1, map[], [], [])
  /** 2 entered from 1 through the tree edge `(1, 2)`, indexed 1. */
  const A2 := State(2, S2, N2, T2, [(1, 2)], [])
  const A3 := State(3, S3, N3, T3, [(1, 2), (2, 3)], [])
  /** The back edge `(3, 1)` pushed. */
  const R3 := State(3, S3, N3, T3, [(1, 2), (2, 3), (3, 1)], [])
  const B3 := State(3, S3K, N3, T3, [(1, 2), (2, 3), (3, 1)], [])
  const A4 := State(4, S4, N4, T4, [(1, 2), (2, 3), (3, 1), (2, 4)], [])
  const A5 := State(5, S5, N5, T5, [(1, 2), (2, 3), (3, 1), (2, 4), (4, 5)], [])
  /** The back edge `(5, 2)` pushed. */
  const R5 := State(5, S5, N5, T5, [(1, 2), (2, 3), (3, 1), (2, 4), (4, 5), (5, 2)], [])
  const B5 := State(5, S5K, N5, T5, [(1, 2), (2, 3), (3, 1), (2, 4), (4, 5), (5, 2)], [])
  const B4 := State(5, S4K, N5, T5, [(1, 2), (2, 3), (3, 1), (2, 4), (4, 5), (5, 2)], [])
  /** {2, 4, 5} popped: the low-link 1 of 4 does not reach above 2. */
  const C4 := State(5, S4K, N5, T5, [(1, 2), (2, 3), (3, 1)], L1)
  const B2 := State(5, S2K, N5, T5, [(1, 2), (2, 3), (3, 1)], L1)
  /** {1, 2, 3} popped. */
  const C2 := State(5, S2K, N5, T5, [], L2)
  const A6 := State(6, S6, N6, T6, [(1, 6)], L2)
  const B6 := State(6, S6K, N6, T6, [(1, 6)], L2)
  /** The bridge {1, 6} popped. */
  const C6 := State(6, S6K, N6, T6, [], L3)
  const F1 := State(6, S1K, N6, T6, [], L3)

  lemma Enter1() ensures Push(Link(Init, 1, None), 1) == A1 { }
  lemma Enter2() ensures Push(Link(A1, 2, Some(1)), 2) == A2 { }
  lemma Enter3() ensures Push(Link(A2, 3, Some(2)), 3) == A3 { }
  lemma Enter4() ensures Push(Link(B3, 4, Some(2)), 4) == A4 { }
  lemma Enter5() ensures Push(Link(A4, 5, Some(4)), 5) == A5 { }
  lemma Enter6() ensures Push(Link(C2, 6, Some(1)), 6) == A6 { }

  /** The component {2, 4, 5}: popped down to the tree edge `(2, 4)`. */
  lemma Close4()
    ensures AfterChild(B4, 2, 4, 1) == C4
  {
    var s: seq<Edge> := [(1, 2), (2, 3), (3, 1), (2, 4), (4, 5), (5, 2)];
    assert s[..5] == [(1, 2), (2, 3), (3, 1), (2, 4), (4, 5)];
    assert s[..5][..4] == [(1, 2), (2, 3), (3, 1), (2, 4)];
    assert s[..5][..4][..3] == [(1, 2), (2, 3), (3, 1)];
    assert PopUntil((2, 4), s[..5][..4]) == ([(1, 2), (2, 3), (3, 1)], [(2, 4)]);
    assert [(4, 5)] + [(2, 4)] == [(4, 5), (2, 4)];
    assert [(5, 2)] + [(4, 5), (2, 4)] == [(5, 2), (4, 5), (2, 4)];
    assert PopUntil((2, 4), s) == ([(1, 2), (2, 3), (3, 1)], [(5, 2), (4, 5), (2, 4)]);
  }

  /** The component {1, 2, 3}: popped down to the tree edge `(1, 2)`. */
  lemma Close2()
    ensures AfterChild(B2, 1, 2, 0) == C2
  {
    var s: seq<Edge> := [(1, 2), (2, 3), (3, 1)];
    assert s[..2] == [(1, 2), (2, 3)];
    assert s[..2][..1] == [(1, 2)];
    assert s[..2][..1][..0] == [];
    assert PopUntil((1, 2), s[..2][..1]) == ([], [(1, 2)]);
    assert [(2, 3)] + [(1, 2)] == [(2, 3), (1, 2)];
    assert [(3, 1)] + [(2, 3), (1, 2)] == [(3, 1), (2, 3), (1, 2)];
    assert PopUntil((1, 2), s) == ([], [(3, 1), (2, 3), (1, 2)]);
  }

  /** The bridge {1, 6}. */
  lemma Close6()
    ensures AfterChild(B6, 1, 6, 5) == C6
  {
    assert |[(1, 6)][..0]| == 0;
    assert PopUntil((1, 6), [(1, 6)]) == ([], [(1, 6)]);
  }

  /** `__DFS(v)` from the result of its loop. */
  lemma VisitStep(E: Adjacency, v: int, parent: Option<int>, st: State, st1: State, low: int, st2: State)
    requires Wf(E) && v in E && StatusOf(st, v) == Unknown
    requires Push(Link(st, v, parent), v) == st1 && Scan(E, v, E[v], st.time, st1, Optional) == (low, st2)
    ensures Visit(E, v, parent, st, Optional) == (low, st2.(status := st2.status[v := Known]))
  {
  }

  /** The loop of `__DFS` skips the edge back to the parent. */
  lemma ScanSkip(E: Adjacency, v: int, adj: seq<int>, low: int, st: State)
    requires Wf(E) && (forall a | a in adj :: a in E) && adj != []
    requires SkipsParent(st, v, adj[0], Optional)
    ensures Scan(E, v, adj, low, st, Optional) == Scan(E, v, adj[1..], low, st, Optional)
  {
  }

  /** ... takes the index of a finished neighbour into the low-link ... */
  lemma ScanKnown(E: Adjacency, v: int, adj: seq<int>, low: int, st: State)
    requires Wf(E) && (forall a | a in adj :: a in E) && adj != []
    requires !SkipsParent(st, v, adj[0], Optional) && StatusOf(st, adj[0]) == Known
    ensures Scan(E, v, adj, low, st, Optional) == Scan(E, v, adj[1..], Min(DfsOf(st, adj[0]), low), st, Optional)
  {
  }

  /** ... and pushes a back edge to a vertex still in progress. */
  lemma ScanBack(E: Adjacency, v: int, adj: seq<int>, low: int, st: State)
    requires Wf(E) && (forall a | a in adj :: a in E) && adj != []
    requires !SkipsParent(st, v, adj[0], Optional) && StatusOf(st, adj[0]) == Progress
    ensures Scan(E, v, adj, low, st, Optional) ==
      Scan(E, v, adj[1..], Min(DfsOf(st, adj[0]), low), PushPair(st, (v, adj[0])), Optional)
  {
  }

  /** One step of the loop of `__DFS` that searches into a child. */
  lemma ScanChild(E: Adjacency, v: int, adj: seq<int>, low: int, st: State, l: int, st': State)
    requires Wf(E) && (forall a | a in adj :: a in E) && adj != []
    requires !SkipsParent(st, v, adj[0], Optional) && StatusOf(st, adj[0]) == Unknown
    requires Visit(E, adj[0], Some(v), st, Optional) == (l, st')
    ensures Scan(E, v, adj, low, st, Optional) == Scan(E, v, adj[1..], Min(low, l), AfterChild(st', v, adj[0], l), Optional)
  {
  }

  lemma Visit5(E: Adjacency)
    requires ListsB(E)
    ensures Visit(E, 5, Some(4), A4, Optional) == (1, B5)
  {
    ListsWf(E);
    Enter5();
    ScanBack(E, 5, [2, 4], 4, A5);
    assert PushPair(A5, (5, 2)) == R5;
    ScanSkip(E, 5, [4], 1, R5);
    VisitStep(E, 5, Some(4), A4, A5, 1, R5);
  }

  /** The loop of 4: the search into 5 returns the low-link 1, which does
      not close a component at 4. */
  lemma Scan4(E: Adjacency)
    requires ListsB(E)
    ensures Scan(E, 4, [2, 5], 3, A4, Optional) == (1, B5)
  {
    ListsWf(E);
    Visit5(E);
    ScanSkip(E, 4, [2, 5], 3, A4);
    ScanChild(E, 4, [5], 3, A4, 1, B5);
    assert AfterChild(B5, 4, 5, 1) == B5;
  }

  lemma Visit4(E: Adjacency)
    requires ListsB(E)
    ensures Visit(E, 4, Some(2), B3, Optional) == (1, B4)
  {
    ListsWf(E);
    Scan4(E);
    Enter4();
    VisitStep(E, 4, Some(2), B3, A4, 1, B5);
  }

  lemma Visit3(E: Adjacency)
    requires ListsB(E)
    ensures Visit(E, 3, Some(2), A2, Optional) == (0, B3)
  {
    ListsWf(E);
    Enter3();
    ScanBack(E, 3, [1, 2], 2, A3);
    assert PushPair(A3, (3, 1)) == R3;
    ScanSkip(E, 3, [2], 0, R3);
    VisitStep(E, 3, Some(2), A2, A3, 0, R3);
  }

  /** The loop of 2 after the search into 3: the search into 4 closes {2, 4, 5}. */
  lemma Scan2(E: Adjacency)
    requires ListsB(E)
    ensures Scan(E, 2, [4, 5], 0, B3, Optional) == (0, C4)
  {
    ListsWf(E);
    Visit4(E);
    ScanChild(E, 2, [4, 5], 0, B3, 1, B4);
    Close4();
    ScanKnown(E, 2, [5], 0, C4);
  }

  lemma Visit2(E: Adjacency)
    requires ListsB(E)
    ensures Visit(E, 2, Some(1), A1, Optional) == (0, B2)
  {
    ListsWf(E);
    Visit3(E);
    Scan2(E);
    Enter2();
    ScanSkip(E, 2, [1, 3, 4, 5], 1, A2);
    ScanChild(E, 2, [3, 4, 5], 1, A2, 0, B3);
    assert AfterChild(B3, 2, 3, 0) == B3;
    VisitStep(E, 2, Some(1), A1, A2, 0, C4);
  }

  lemma Visit6(E: Adjacency)
    requires ListsB(E)
    ensures Visit(E, 6, Some(1), C2, Optional) == (5, B6)
  {
    ListsWf(E);
    Enter6();
    ScanSkip(E, 6, [1], 5, A6);
    VisitStep(E, 6, Some(1), C2, A6, 5, A6);
  }

  /** The loop of 1 after the search into 2 and the finished 3: the search
      into 6 closes {1, 6}. */
  lemma Scan6(E: Adjacency)
    requires ListsB(E)
    ensures Scan(E, 1, [6], 0, C2, Optional) == (0, C6)
  {
    ListsWf(E);
    Visit6(E);
    ScanChild(E, 1, [6], 0, C2, 5, B6);
    Close6();
  }

  lemma Scan1(E: Adjacency)
    requires ListsB(E)
    ensures Scan(E, 1, [3, 6], 0, C2, Optional) == (0, C6)
  {
    ListsWf(E);
    Scan6(E);
    ScanKnown(E, 1, [3, 6], 0, C2);
  }

  lemma Visit1(E: Adjacency)
    requires ListsB(E)
    ensures Visit(E, 1, None, Init, Optional) == (0, F1)
  {
    ListsWf(E);
    Visit2(E);
    Scan1(E);
    Enter1();
    ScanChild(E, 1, [2, 3, 6], 0, A1, 0, B2);
    Close2();
    VisitStep(E, 1, None, Init, A1, 0, C6);
  }

  /** The roots after the first are finished already and are skipped. */
  lemma {:induction false} SolveKnown(E: Adjacency, vs: seq<int>, st: State)
    requires Wf(E) && (forall v | v in vs :: v in E) && forall v | v in vs :: StatusOf(st, v) == Known
    ensures SolveFrom(E, vs, st, Optional) == st
    decreases |vs|
  {
    if vs != [] {
      SolveKnown(E, vs[1..], st);
    }
  }

  /** The loop of `solve` starts a search at an unreached root. */
  lemma SolveRoot(E: Adjacency, vs: seq<int>, st: State, st': State)
    requires Wf(E) && (forall v | v in vs :: v in E) && vs != [] && StatusOf(st, vs[0]) == Unknown
    requires Visit(E, vs[0], None, st, Optional).1 == st'
    ensures SolveFrom(E, vs, st, Optional) == SolveFrom(E, vs[1..], st', Optional)
  {
  }

  lemma AllKnown()
    ensures forall v | v in VB[1..] :: StatusOf(F1, v) == Known
  {
    assert VB[1..] == [2, 3, 4, 5, 6];
  }

  lemma SolveB(E: Adjacency)
    requires ListsB(E)
    ensures SolveFrom(E, VB, Init, Optional) == F1
  {
    ListsWf(E);
    Visit1(E);
    SolveRoot(E, VB, Init, F1);
    AllKnown();
    SolveKnown(E, VB[1..], F1);
  }

  /** The three components of `checkBCC`'s graph, each pair with its reverse:
      the triangle {2, 4, 5}, the triangle {1, 2, 3} and the bridge {1, 6}. */
  const Blocks: seq<seq<Edge>> := [[(5, 2), (2, 5), (4, 5), (5, 4), (2, 4), (4, 2)],
                                   [(3, 1), (1, 3), (2, 3), (3, 2), (1, 2), (2, 1)],
                                   [(1, 6), (6, 1)]]

  lemma BothBlocks()
    ensures MapSeq(Both, L3) == Blocks
  {
    assert Both([(1, 6)]) == [(1, 6), (6, 1)];
    assert Both([(5, 2), (4, 5), (2, 4)]) == Blocks[0];
    assert Both([(3, 1), (2, 3), (1, 2)]) == Blocks[1];
  }

  /** `TarjanBCC().solve(G)` on the graph of `checkBCC` pops the triangle
      {2, 4, 5} first, then the triangle {1, 2, 3}, then the bridge {1, 6}. */
  lemma FixtureComponents(g: Graph)
    requires Valid(g) && g.V == VB && ListsB(g.E)
    ensures Components(g, Optional) == Blocks
  {
    SolveB(g.E);
    BothBlocks();
  }

  /** The code as written agrees with the corrected solver on this graph,
      and `BCC` accepts the result. */
  lemma FixtureAccepted(g: Graph)
    requires Valid(g) && g.V == VB && ListsB(g.E)
    ensures BiconnectedAsWritten(g) == Biconnected(g) && Biconnected(g).Ok?
  {
    ListsSimple(g.E);
    SentinelHarmless(g);
    BiconnectedAttaches(g);
  }

  /** ... so the `BCC` it returns, the same in the code as written, has
      three components grouped as `Blocks`. */
  lemma FixtureBcc(g: Graph)
    requires Valid(g) && g.V == VB && ListsB(g.E)
    ensures BiconnectedAsWritten(g) == Biconnected(g)
    ensures Biconnected(g).Ok? && BccLen(Biconnected(g).value) == 3
    ensures Groups(Biconnected(g).value.comp) == Groups(Blocks)
  {
    FixtureAccepted(g);
    FixtureComponents(g);
  }
}
