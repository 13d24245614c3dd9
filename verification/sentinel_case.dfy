/** The parent of a search root in `TarjanBCC` is read through
    `defaultdict(lambda: -1)`, so a root `v` skips its neighbour `-1` as if
    it were the edge back to its parent. On the graph with the vertices -2
    and -1 and the one edge between them, the edge is never pushed, the
    result has no component, and `setBCC` rejects it; with roots that have
    no parent the same graph gives the one component `{(-2, -1), (-1, -2)}`. */
module SentinelCase {
  import opened Base
  import opened Sorting
  import opened Partition
  import opened Graphs
  import opened TarjanBcc
  import opened TarjanBccResult

  const E0: Adjacency := map[-2 := [-1], -1 := [-2]]

  /** The graph `Graph([-2, -1], {-2: [-1], -1: [-2]}, isDirected=False)`. */
  const G0 := Graph([-2, -1], E0, false, None, None)

  lemma E0Simple()
    ensures Simple(E0) && Wf(E0)
  {
    assert NoDup(E0[-2]) && NoDup(E0[-1]);
  }

  lemma G0Simple()
    ensures Valid(G0) && Simple(E0) && Wf(E0) && EdgeCount(G0.V, E0) == 2
  {
    E0Simple();
    assert NoDup(G0.V) && SortedBy(G0.V, IntLe);
    assert forall v | v in E0 :: SortedBy(E0[v], IntLe);
  }

  // ---------------------------------------------------------------------
  // As written: the root -2 skips its neighbour -1

  /** -2 entered as a root, indexed 0. */
  const S1 := State(1, map[-2 := Progress], map[-2 := 0], map[], [], [])
  const S2 := State(1, map[-2 := Known], map[-2 := 0], map[], [], [])
  /** -1 entered as a second root, indexed 1. */
  const S3 := State(2, map[-2 := Known, -1 := Progress], map[-2 := 0, -1 := 1], map[], [], [])
  const S4 := State(2, map[-2 := Known, -1 := Known], map[-2 := 0, -1 := 1], map[], [], [])

  lemma SentinelFirstRoot()
    ensures Wf(E0) && Visit(E0, -2, None, Init, Sentinel) == (0, S2)
  {
    E0Simple();
    assert SkipsParent(S1, -2, -1, Sentinel);
    assert Scan(E0, -2, [-1], 0, S1, Sentinel) == Scan(E0, -2, [], 0, S1, Sentinel) == (0, S1);
    assert Push(Link(Init, -2, None), -2) == S1;
    assert S1.status[-2 := Known] == S2.status;
  }

  lemma SentinelSecondRoot()
    ensures Wf(E0) && Visit(E0, -1, None, S2, Sentinel) == (0, S4)
  {
    E0Simple();
    assert !SkipsParent(S3, -1, -2, Sentinel) && StatusOf(S3, -2) == Known;
    assert Scan(E0, -1, [-2], 1, S3, Sentinel) == Scan(E0, -1, [], 0, S3, Sentinel) == (0, S3);
    assert Push(Link(S2, -1, None), -1) == S3;
    assert S3.status[-1 := Known] == S4.status;
  }

  /** `TarjanBCC().solve(G0)` as written returns a `BCC` without any pair,
      which `G0.setBCC` rejects: the graph has two edge pairs. */
  lemma SentinelLosesEdge()
    ensures Components(G0, Sentinel) == []
    ensures BiconnectedAsWritten(G0) == Ok(Bcc([], []))
    ensures SetBcc(G0, BiconnectedAsWritten(G0).value) == Err(AttachmentMismatch)
  {
    G0Simple();
    SentinelFirstRoot();
    SentinelSecondRoot();
    assert SolveFrom(E0, [-1], S4, Sentinel) == SolveFrom(E0, [], S4, Sentinel) == S4;
    assert SolveFrom(E0, [-2, -1], Init, Sentinel) == SolveFrom(E0, [-1], S2, Sentinel) == S4;
    assert Flatten<Edge>([]) == [];
  }

  // ---------------------------------------------------------------------
  // Roots without a parent

  /** -1 entered from -2 through the tree edge `(-2, -1)`. */
  const T1 := State(2, map[-2 := Progress, -1 := Progress], map[-2 := 0, -1 := 1], map[-1 := -2], [(-2, -1)], [])
  const T2 := State(2, map[-2 := Progress, -1 := Known], map[-2 := 0, -1 := 1], map[-1 := -2], [(-2, -1)], [])
  /** The stack popped down to `(-2, -1)` after the child returned the low-link 1. */
  const T3 := State(2, map[-2 := Progress, -1 := Known], map[-2 := 0, -1 := 1], map[-1 := -2], [], [[(-2, -1)]])
  const T4 := State(2, map[-2 := Known, -1 := Known], map[-2 := 0, -1 := 1], map[-1 := -2], [], [[(-2, -1)]])

  lemma OptionalChild()
    ensures Wf(E0) && Visit(E0, -1, Some(-2), S1, Optional) == (1, T2)
  {
    E0Simple();
    assert SkipsParent(T1, -1, -2, Optional);
    assert Scan(E0, -1, [-2], 1, T1, Optional) == Scan(E0, -1, [], 1, T1, Optional) == (1, T1);
    assert Link(S1, -1, Some(-2)).tree == map[-1 := -2];
    assert Push(Link(S1, -1, Some(-2)), -1) == T1;
    assert T1.status[-1 := Known] == T2.status;
  }

  lemma OptionalRoot()
    ensures Wf(E0) && Visit(E0, -2, None, Init, Optional) == (0, T4)
  {
    E0Simple();
    OptionalChild();
    assert !SkipsParent(S1, -2, -1, Optional) && StatusOf(S1, -1) == Unknown;
    assert PopUntil((-2, -1), [(-2, -1)]) == ([], [(-2, -1)]);
    assert AfterChild(T2, -2, -1, 1) == T3;
    assert Scan(E0, -2, [-1], 0, S1, Optional) == Scan(E0, -2, [], 0, T3, Optional) == (0, T3);
    assert Push(Link(Init, -2, None), -2) == S1;
    assert T3.status[-2 := Known] == T4.status;
  }

  /** With roots that have no parent, the edge forms the one component. */
  lemma OptionalKeepsEdge()
    ensures Components(G0, Optional) == [[(-2, -1), (-1, -2)]]
  {
    E0Simple();
    OptionalRoot();
    assert SolveFrom(E0, [-1], T4, Optional) == SolveFrom(E0, [], T4, Optional) == T4;
    assert SolveFrom(E0, [-2, -1], Init, Optional) == SolveFrom(E0, [-1], T4, Optional) == T4;
    assert Both([(-2, -1)]) == [(-2, -1), (-1, -2)];
  }

  /** ... and `setBCC` accepts the result. */
  lemma OptionalAttaches()
    ensures Biconnected(G0).Ok? && SetBcc(G0, Biconnected(G0).value).Ok?
  {
    G0Simple();
    BiconnectedAttaches(G0);
  }

  // ---------------------------------------------------------------------
  // Graphs without the vertex -1

  lemma VisitModes(E: Adjacency, v: int, parent: Option<int>, st: State)
    requires Wf(E) && -1 !in E && v in E && StatusOf(st, v) == Unknown
    ensures Visit(E, v, parent, st, Sentinel) == Visit(E, v, parent, st, Optional)
    decreases Unvisited(E, st), 0
  {
    var st1 := Push(Link(st, v, parent), v);
    assert v in Unvisited(E, st) && v !in Unvisited(E, st1);
    ScanModes(E, v, E[v], st.time, st1);
  }

  lemma ScanModes(E: Adjacency, v: int, adj: seq<int>, low: int, st: State)
    requires Wf(E) && -1 !in E && forall a | a in adj :: a in E
    ensures Scan(E, v, adj, low, st, Sentinel) == Scan(E, v, adj, low, st, Optional)
    decreases Unvisited(E, st), |adj| + 1
  {
    if adj != [] {
      var a := adj[0];
      assert SkipsParent(st, v, a, Sentinel) == SkipsParent(st, v, a, Optional);
      if SkipsParent(st, v, a, Optional) {
        ScanModes(E, v, adj[1..], low, st);
      } else if StatusOf(st, a) == Known {
        ScanModes(E, v, adj[1..], Min(DfsOf(st, a), low), st);
      } else if StatusOf(st, a) == Progress {
        ScanModes(E, v, adj[1..], Min(DfsOf(st, a), low), PushPair(st, (v, a)));
      } else {
        VisitModes(E, a, Some(v), st);
        var c := Visit(E, a, Some(v), st, Optional);
        UnvisitedShrinks(E, st, c.1);
        var st' := AfterChild(c.1, v, a, c.0);
        assert Unvisited(E, st') == Unvisited(E, c.1);
        ScanModes(E, v, adj[1..], Min(low, c.0), st');
      }
    }
  }

  lemma {:induction false} SolveModes(E: Adjacency, vs: seq<int>, st: State)
    requires Wf(E) && -1 !in E && forall v | v in vs :: v in E
    ensures SolveFrom(E, vs, st, Sentinel) == SolveFrom(E, vs, st, Optional)
    decreases |vs|
  {
    if vs != [] {
      if StatusOf(st, vs[0]) == Unknown {
        VisitModes(E, vs[0], None, st);
      }
      var st' := if StatusOf(st, vs[0]) == Unknown then Visit(E, vs[0], None, st, Optional).1 else st;
      SolveModes(E, vs[1..], st');
    }
  }

  /** On a graph without the vertex -1, the solver as written returns what
      the solver with parentless roots returns. */
  lemma SentinelHarmless(g: Graph)
    requires Valid(g) && -1 !in g.V
    ensures BiconnectedAsWritten(g) == Biconnected(g)
  {
    assert Wf(g.E) && -1 !in g.E;
    SolveModes(g.E, g.V, Init);
  }
}
