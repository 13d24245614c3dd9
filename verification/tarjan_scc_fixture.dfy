/** `TarjanSCC().solve(G)` on the graph of `checkSCC`, step by step: the
    search from A reaches every vertex and emits {I}, {G, H}, {F}, {D, E}
    and {A, B, C}, in that order. */
module TarjanSccFixture {
  import opened Base
  import opened Sorting
  import opened Partition
  import opened Graphs
  import opened SccFixture
  import opened TarjanScc

  const P := Progress
  const K := Known

  // ---------------------------------------------------------------------
  // The states of the search: `An` when `n` is entered, `Bn` when the
  // component rooted at `n` is emitted

  const A0 := State(1, map[0 := P], map[0 := 0], [0], [])
  const A1 := State(2, map[0 := P, 1 := P], map[0 := 0, 1 := 1], [0, 1], [])
  const A2 := State(3, map[0 := P, 1 := P, 2 := P], map[0 := 0, 1 := 1, 2 := 2], [0, 1, 2], [])
  const A7 := State(4, map[0 := P, 1 := P, 2 := P, 7 := P], map[0 := 0, 1 := 1, 2 := 2, 7 := 3], [0, 1, 2, 7], [])
  const A6 := State(5, map[0 := P, 1 := P, 2 := P, 7 := P, 6 := P], map[0 := 0, 1 := 1, 2 := 2, 7 := 3, 6 := 4],
                    [0, 1, 2, 7, 6], [])
  const D6 := map[0 := 0, 1 := 1, 2 := 2, 7 := 3, 6 := 4, 8 := 5]
  const A8 := State(6, map[0 := P, 1 := P, 2 := P, 7 := P, 6 := P, 8 := P], D6, [0, 1, 2, 7, 6, 8], [])
  const B8 := State(6, map[0 := P, 1 := P, 2 := P, 7 := P, 6 := P, 8 := K], D6, [0, 1, 2, 7, 6], [[8]])
  const B7 := State(6, map[0 := P, 1 := P, 2 := P, 7 := K, 6 := K, 8 := K], D6, [0, 1, 2], [[8], [6, 7]])
  const A3 := State(7, map[0 := P, 1 := P, 2 := P, 7 := K, 6 := K, 8 := K, 3 := P], D6[3 := 6],
                    [0, 1, 2, 3], [[8], [6, 7]])
  const A4 := State(8, map[0 := P, 1 := P, 2 := P, 7 := K, 6 := K, 8 := K, 3 := P, 4 := P], D6[3 := 6][4 := 7],
                    [0, 1, 2, 3, 4], [[8], [6, 7]])
  const D9 := D6[3 := 6][4 := 7][5 := 8]
  const A5 := State(9, map[0 := P, 1 := P, 2 := P, 7 := K, 6 := K, 8 := K, 3 := P, 4 := P, 5 := P], D9,
                    [0, 1, 2, 3, 4, 5], [[8], [6, 7]])
  const B5 := State(9, map[0 := P, 1 := P, 2 := P, 7 := K, 6 := K, 8 := K, 3 := P, 4 := P, 5 := K], D9,
                    [0, 1, 2, 3, 4], [[8], [6, 7], [5]])
  const B3 := State(9, map[0 := P, 1 := P, 2 := P, 7 := K, 6 := K, 8 := K, 3 := K, 4 := K, 5 := K], D9,
                    [0, 1, 2], [[8], [6, 7], [5], [4, 3]])
  const B0 := State(9, map[0 := K, 1 := K, 2 := K, 7 := K, 6 := K, 8 := K, 3 := K, 4 := K, 5 := K], D9,
                    [], [[8], [6, 7], [5], [4, 3], [2, 1, 0]])

  lemma PushA() ensures Push(Init, 0) == A0 { }
  lemma PushB() ensures Push(A0, 1) == A1 { }
  lemma PushC() ensures Push(A1, 2) == A2 { }
  lemma PushH() ensures Push(A2, 7) == A7 { }
  lemma PushG() ensures Push(A7, 6) == A6 { }
  lemma PushI() ensures Push(A6, 8) == A8 { }
  lemma PushD() ensures Push(B7, 3) == A3 { }
  lemma PushE() ensures Push(A3, 4) == A4 { }
  lemma PushF() ensures Push(A4, 5) == A5 { }

  lemma EmitI()
    ensures Emit(A8, 8) == B8
  {
    assert A8.stack[..5] == [0, 1, 2, 7, 6];
    assert PopUntil(8, A8.stack) == ([0, 1, 2, 7, 6], [8]);
    assert MarkKnown(A8.status, [8]) == B8.status;
  }

  lemma PopH()
    ensures PopUntil(7, [0, 1, 2, 7, 6]) == ([0, 1, 2], [6, 7])
  {
    assert [0, 1, 2, 7, 6][..4] == [0, 1, 2, 7];
    assert [0, 1, 2, 7][..3] == [0, 1, 2];
    assert PopUntil(7, [0, 1, 2, 7]) == ([0, 1, 2], [7]);
    assert [6] + [7] == [6, 7];
  }

  lemma MarkH() ensures MarkKnown(B8.status, [6, 7]) == B7.status { }

  lemma EmitH()
    ensures Emit(B8, 7) == B7
  {
    PopH();
    MarkH();
  }

  lemma EmitF()
    ensures Emit(A5, 5) == B5
  {
    assert A5.stack[..5] == [0, 1, 2, 3, 4];
    assert PopUntil(5, A5.stack) == ([0, 1, 2, 3, 4], [5]);
    assert MarkKnown(A5.status, [5]) == B5.status;
  }

  lemma PopD()
    ensures PopUntil(3, [0, 1, 2, 3, 4]) == ([0, 1, 2], [4, 3])
  {
    assert [0, 1, 2, 3, 4][..4] == [0, 1, 2, 3];
    assert [0, 1, 2, 3][..3] == [0, 1, 2];
    assert PopUntil(3, [0, 1, 2, 3]) == ([0, 1, 2], [3]);
    assert [4] + [3] == [4, 3];
  }

  lemma MarkD() ensures MarkKnown(B5.status, [4, 3]) == B3.status { }

  lemma EmitD()
    ensures Emit(B5, 3) == B3
  {
    PopD();
    MarkD();
  }

  lemma PopA()
    ensures PopUntil(0, [0, 1, 2]) == ([], [2, 1, 0])
  {
    assert [0, 1, 2][..2] == [0, 1];
    assert [0, 1][..1] == [0];
    assert [0][..0] == [];
    assert PopUntil(0, [0]) == ([], [0]);
    assert [1] + [0] == [1, 0];
    assert PopUntil(0, [0, 1]) == ([], [1, 0]);
    assert [2] + [1, 0] == [2, 1, 0];
  }

  lemma MarkA() ensures MarkKnown(B3.status, [2, 1, 0]) == B0.status { }

  lemma EmitA()
    ensures Emit(B3, 0) == B0
  {
    PopA();
    MarkA();
  }

  // ---------------------------------------------------------------------
  // The calls of `__DFS`, innermost first, on any adjacency with the
  // fixture's lists (stated for such an `E` rather than for `E1` itself, so
  // that the solver does not evaluate every call on the constant anew)

  /** One step of the loop over `adj`, by the status of its first entry. */
  lemma ScanOver(E: Adjacency, v: int, adj: seq<int>, low: int, st: State)
    requires Wf(E) && (forall a | a in adj :: a in E) && adj != [] && StatusOf(st, adj[0]) != Unknown
    ensures Scan(E, v, adj, low, st) ==
      if StatusOf(st, adj[0]) == Progress then Scan(E, v, adj[1..], Min(DfsOf(st, adj[0]), low), st)
      else Scan(E, v, adj[1..], low, st)
  {
  }

  lemma ScanChild(E: Adjacency, v: int, adj: seq<int>, low: int, st: State, l: int, st': State)
    requires Wf(E) && (forall a | a in adj :: a in E) && adj != [] && StatusOf(st, adj[0]) == Unknown
    requires Visit(E, adj[0], st) == (l, st')
    ensures Scan(E, v, adj, low, st) == Scan(E, v, adj[1..], Min(l, low), st')
  {
  }

  /** `__DFS(v)` from the result of its loop. */
  lemma VisitStep(E: Adjacency, v: int, st: State, st1: State, low: int, st2: State)
    requires Wf(E) && v in E && StatusOf(st, v) == Unknown
    requires Push(st, v) == st1 && Scan(E, v, E[v], st.time, st1) == (low, st2)
    ensures Visit(E, v, st) == if low == DfsOf(st2, v) then (low, Emit(st2, v)) else (low, st2)
  {
  }

  lemma VisitI(E: Adjacency)
    requires Lists(E)
    ensures Visit(E, 8, A6) == (5, B8)
  {
    PushI();
    EmitI();
    VisitStep(E, 8, A6, A8, 5, A8);
  }

  lemma VisitG(E: Adjacency)
    requires Lists(E)
    ensures Visit(E, 6, A7) == (3, B8)
  {
    VisitI(E);
    PushG();
    ScanOver(E, 6, [7, 8], 4, A6);
    ScanChild(E, 6, [8], 3, A6, 5, B8);
    VisitStep(E, 6, A7, A6, 3, B8);
  }

  lemma VisitH(E: Adjacency)
    requires Lists(E)
    ensures Visit(E, 7, A2) == (3, B7)
  {
    VisitG(E);
    PushH();
    EmitH();
    ScanChild(E, 7, [6], 3, A7, 3, B8);
    VisitStep(E, 7, A2, A7, 3, B8);
  }

  lemma VisitC(E: Adjacency)
    requires Lists(E)
    ensures Visit(E, 2, A1) == (0, B7)
  {
    VisitH(E);
    PushC();
    ScanOver(E, 2, [0, 7], 2, A2);
    ScanChild(E, 2, [7], 0, A2, 3, B7);
    VisitStep(E, 2, A1, A2, 0, B7);
  }

  lemma VisitF(E: Adjacency)
    requires Lists(E)
    ensures Visit(E, 5, A4) == (8, B5)
  {
    PushF();
    EmitF();
    ScanOver(E, 5, [5], 8, A5);
    VisitStep(E, 5, A4, A5, 8, A5);
  }

  /** The last step of the loop of E: the call on F. */
  lemma ScanF(E: Adjacency)
    requires Lists(E)
    ensures Scan(E, 4, [5], 6, A4) == (6, B5)
  {
    VisitF(E);
    ScanChild(E, 4, [5], 6, A4, 8, B5);
  }

  lemma VisitE(E: Adjacency)
    requires Lists(E)
    ensures Visit(E, 4, A3) == (6, B5)
  {
    ScanF(E);
    PushE();
    ScanOver(E, 4, [3, 5], 7, A4);
    VisitStep(E, 4, A3, A4, 6, B5);
  }

  lemma VisitD(E: Adjacency)
    requires Lists(E)
    ensures Visit(E, 3, B7) == (6, B3)
  {
    VisitE(E);
    PushD();
    EmitD();
    ScanChild(E, 3, [4, 6], 6, A3, 6, B5);
    ScanOver(E, 3, [6], 6, B5);
    VisitStep(E, 3, B7, A3, 6, B5);
  }

  /** The last step of the loop of B: the call on D. */
  lemma ScanD(E: Adjacency)
    requires Lists(E)
    ensures Scan(E, 1, [3], 0, B7) == (0, B3)
  {
    VisitD(E);
    ScanChild(E, 1, [3], 0, B7, 6, B3);
  }

  lemma VisitB(E: Adjacency)
    requires Lists(E)
    ensures Visit(E, 1, A0) == (0, B3)
  {
    VisitC(E);
    ScanD(E);
    PushB();
    ScanOver(E, 1, [0, 2, 3], 1, A1);
    ScanChild(E, 1, [2, 3], 0, A1, 0, B7);
    VisitStep(E, 1, A0, A1, 0, B3);
  }

  lemma VisitA(E: Adjacency)
    requires Lists(E)
    ensures Visit(E, 0, Init) == (0, B0)
  {
    VisitB(E);
    PushA();
    EmitA();
    ScanChild(E, 0, [1], 0, A0, 0, B3);
    VisitStep(E, 0, Init, A0, 0, B3);
  }

  // ---------------------------------------------------------------------
  // The whole solve

  /** The loop of `solve` skips vertices already reached. */
  lemma {:induction false} SolveKnown(E: Adjacency, vs: seq<int>, st: State)
    requires Wf(E) && forall v | v in vs :: v in E && StatusOf(st, v) != Unknown
    ensures SolveFrom(E, vs, st) == st
    decreases |vs|
  {
    if vs != [] {
      SolveKnown(E, vs[1..], st);
    }
  }

  /** After the search from A the loop of `solve` finds every other vertex reached. */
  lemma SolveRest(E: Adjacency)
    requires Lists(E)
    ensures SolveFrom(E, [1, 2, 3, 4, 5, 6, 7, 8], B0) == B0
  {
    assert forall v | v in [1, 2, 3, 4, 5, 6, 7, 8] :: v in E && StatusOf(B0, v) != Unknown;
    SolveKnown(E, [1, 2, 3, 4, 5, 6, 7, 8], B0);
  }

  /** The loop of `solve` starts with the search from A. */
  lemma FirstRoot(E: Adjacency)
    requires Lists(E)
    ensures SolveFrom(E, V1, Init) == SolveFrom(E, [1, 2, 3, 4, 5, 6, 7, 8], B0)
  {
    VisitA(E);
    assert V1[1..] == [1, 2, 3, 4, 5, 6, 7, 8];
  }

  lemma SolveAll(E: Adjacency)
    requires Lists(E)
    ensures SolveFrom(E, V1, Init) == B0
  {
    FirstRoot(E);
    SolveRest(E);
  }

  /** The components in the order `TarjanSCC` emits them. */
  const Emitted: seq<seq<int>> := [[8], [6, 7], [5], [4, 3], [2, 1, 0]]

  lemma FlatEmitted()
    ensures Flatten(Emitted) == [8, 6, 7, 5, 4, 3, 2, 1, 0]
  {
  }

  lemma EmittedVertices()
    ensures NoDup([8, 6, 7, 5, 4, 3, 2, 1, 0])
    ensures multiset([8, 6, 7, 5, 4, 3, 2, 1, 0]) == multiset([0, 1, 2, 3, 4, 5, 6, 7, 8])
  {
    assert forall x :: x in [8, 6, 7, 5, 4, 3, 2, 1, 0] <==> x in [0, 1, 2, 3, 4, 5, 6, 7, 8];
    assert NoDup([0, 1, 2, 3, 4, 5, 6, 7, 8]);
    NoDupSameMembers([8, 6, 7, 5, 4, 3, 2, 1, 0], [0, 1, 2, 3, 4, 5, 6, 7, 8]);
  }

  lemma EmittedGroups()
    ensures NoDup(Flatten(Emitted)) && multiset(Flatten(Emitted)) == multiset(V1)
    ensures Groups(Emitted) == Groups(Expected)
  {
    FlatEmitted();
    EmittedVertices();
    ReversedGroups();
  }

  lemma Reversed()
    ensures multiset([[8], [6, 7], [5], [3, 4], [0, 1, 2]]) == multiset([[0, 1, 2], [3, 4], [5], [6, 7], [8]])
  {
  }

  lemma ReversedGroups()
    ensures Groups(Emitted) == Groups(Expected)
  {
    var sorted := [[8], [6, 7], [5], [3, 4], [0, 1, 2]];
    assert multiset([4, 3]) == multiset([3, 4]) && multiset([2, 1, 0]) == multiset([0, 1, 2]);
    GroupsPointwise(Emitted, sorted);
    Reversed();
    MapPermutation(Content, sorted, Expected);
  }

  /** `tarjan.solve(G)` in `checkSCC`: the SCC with the components
      {A, B, C}, {D, E}, {F}, {G, H} and {I}. */
  lemma TarjanFixture(g: Graph)
    requires Valid(g) && g.V == V1 && Lists(g.E)
    ensures Tarjan(g) == Ok(Scc(V1, Expected))
  {
    SolveAll(g.E);
    assert B0.scc == Emitted;
    EmittedGroups();
    ExpectedScc(Emitted);
  }
}
