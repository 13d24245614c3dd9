/** `KorsajuSCC().solve(G)` on the graph of `checkSCC`, step by step: the
    first pass finishes the vertices in the order I, G, H, C, F, E, D, B, A;
    the second pass pops A, D, F, H and I as roots over the reversed edges
    and claims {A, B, C}, {D, E}, {F}, {H, G} and {I}. */
module KosarajuFixture {
  import opened Base
  import opened Sorting
  import opened Partition
  import opened Graphs
  import opened SccFixture
  import opened Kosaraju

  // ---------------------------------------------------------------------
  // The reversed lists `ET` built by `solve`

  /** The reversed lists of the fixture: the predecessors of each vertex in
      ascending order. */
  const ET1: Adjacency := map[0 := [1, 2], 1 := [0], 2 := [1], 3 := [1, 4], 4 := [3], 5 := [4, 5], 6 := [3, 7], 7 := [2, 6], 8 := [6]]

  /** `ET` has the reversed lists of the fixture. */
  ghost predicate ListsT(ET: Adjacency) {
    && Wf(ET) && 0 in ET && 1 in ET && 2 in ET && 3 in ET && 4 in ET && 5 in ET && 6 in ET && 7 in ET && 8 in ET
    && ET[0] == [1, 2] && ET[1] == [0] && ET[2] == [1] && ET[3] == [1, 4] && ET[4] == [3] && ET[5] == [4, 5] && ET[6] == [3, 7] && ET[7] == [2, 6] && ET[8] == [6]
  }

  /** The fixture's lists as a graph: what `ReverseAll` asks of them. */
  ghost predicate Shaped(E: Adjacency) {
    Lists(E) && NoDup(V1) && Closed(V1, E) && Complete(V1, E)
  }

  /** The predecessors of `u` as `Into` lists them for the fixture's lists,
      vertex by vertex. */
  ghost function Row(u: int): seq<int> {
    Repeat(0, Count([1], u)) + (Repeat(1, Count([0, 2, 3], u)) + (Repeat(2, Count([0, 7], u)) + (Repeat(3, Count([4, 6], u)) + (Repeat(4, Count([3, 5], u)) + (Repeat(5, Count([5], u)) + (Repeat(6, Count([7, 8], u)) + (Repeat(7, Count([6], u)) + (Repeat(8, Count([], u))))))))))
  }

  lemma IntoStep(V: seq<int>, E: Adjacency, u: int)
    requires V != [] && V[0] in E
    ensures Into(V, E, u) == Repeat(V[0], Count(E[V[0]], u)) + Into(V[1..], E, u)
  {
  }

  lemma IntoRow(E: Adjacency, u: int)
    requires Lists(E)
    ensures Into(V1, E, u) == Row(u)
  {
    IntoStep([0, 1, 2, 3, 4, 5, 6, 7, 8], E, u);
    IntoStep([1, 2, 3, 4, 5, 6, 7, 8], E, u);
    IntoStep([2, 3, 4, 5, 6, 7, 8], E, u);
    IntoStep([3, 4, 5, 6, 7, 8], E, u);
    IntoStep([4, 5, 6, 7, 8], E, u);
    IntoStep([5, 6, 7, 8], E, u);
    IntoStep([6, 7, 8], E, u);
    IntoStep([7, 8], E, u);
    IntoStep([8], E, u);
  }

  lemma Row0() ensures Row(0) == [1, 2] { }
  lemma Row1() ensures Row(1) == [0] { }
  lemma Row2() ensures Row(2) == [1] { }
  lemma Row3() ensures Row(3) == [1, 4] { }
  lemma Row4() ensures Row(4) == [3] { }
  lemma Row5() ensures Row(5) == [4, 5] { }
  lemma Row6() ensures Row(6) == [3, 7] { }
  lemma Row7() ensures Row(7) == [2, 6] { }
  lemma Row8() ensures Row(8) == [6] { }

  lemma Reversed0(E: Adjacency)
    requires Shaped(E)
    ensures ReverseAll(V1, E)[0] == [1, 2]
  {
    ReverseAllOrder(V1, E, 0);
    IntoRow(E, 0);
    Row0();
  }

  lemma Reversed1(E: Adjacency)
    requires Shaped(E)
    ensures ReverseAll(V1, E)[1] == [0]
  {
    ReverseAllOrder(V1, E, 1);
    IntoRow(E, 1);
    Row1();
  }

  lemma Reversed2(E: Adjacency)
    requires Shaped(E)
    ensures ReverseAll(V1, E)[2] == [1]
  {
    ReverseAllOrder(V1, E, 2);
    IntoRow(E, 2);
    Row2();
  }

  lemma Reversed3(E: Adjacency)
    requires Shaped(E)
    ensures ReverseAll(V1, E)[3] == [1, 4]
  {
    ReverseAllOrder(V1, E, 3);
    IntoRow(E, 3);
    Row3();
  }

  lemma Reversed4(E: Adjacency)
    requires Shaped(E)
    ensures ReverseAll(V1, E)[4] == [3]
  {
    ReverseAllOrder(V1, E, 4);
    IntoRow(E, 4);
    Row4();
  }

  lemma Reversed5(E: Adjacency)
    requires Shaped(E)
    ensures ReverseAll(V1, E)[5] == [4, 5]
  {
    ReverseAllOrder(V1, E, 5);
    IntoRow(E, 5);
    Row5();
  }

  lemma Reversed6(E: Adjacency)
    requires Shaped(E)
    ensures ReverseAll(V1, E)[6] == [3, 7]
  {
    ReverseAllOrder(V1, E, 6);
    IntoRow(E, 6);
    Row6();
  }

  lemma Reversed7(E: Adjacency)
    requires Shaped(E)
    ensures ReverseAll(V1, E)[7] == [2, 6]
  {
    ReverseAllOrder(V1, E, 7);
    IntoRow(E, 7);
    Row7();
  }

  lemma Reversed8(E: Adjacency)
    requires Shaped(E)
    ensures ReverseAll(V1, E)[8] == [6]
  {
    ReverseAllOrder(V1, E, 8);
    IntoRow(E, 8);
    Row8();
  }

  /** `ReverseAll` gives the fixture's reversed lists. */
  lemma ReversedLists(E: Adjacency)
    requires Shaped(E)
    ensures ListsT(ReverseAll(V1, E))
  {
    ReverseAllShape(V1, E);
    Reversed0(E);
    Reversed1(E);
    Reversed2(E);
    Reversed3(E);
    Reversed4(E);
    Reversed5(E);
    Reversed6(E);
    Reversed7(E);
    Reversed8(E);
  }

  // ---------------------------------------------------------------------
  // The first pass: the vertices marked so far and the finish stack

  const W0: set<int> := {0}
  const W1: set<int> := {0, 1}
  const W2: set<int> := {0, 1, 2}
  const W7: set<int> := {0, 1, 2, 7}
  const W6: set<int> := {0, 1, 2, 7, 6}
  const W8: set<int> := {0, 1, 2, 7, 6, 8}
  const W3: set<int> := {0, 1, 2, 7, 6, 8, 3}
  const W4: set<int> := {0, 1, 2, 7, 6, 8, 3, 4}
  const W5: set<int> := {0, 1, 2, 7, 6, 8, 3, 4, 5}

  /** `__DFS(v)` from the result of its loop. */
  lemma DfsStep(E: Adjacency, v: int, st: Finish, w: set<int>, r: Finish)
    requires Wf(E) && v in E && v !in st.visited && Stacked(E, st)
    requires st.visited + {v} == w && DfsScan(E, E[v], Finish(w, st.stack)) == r
    ensures Dfs(E, v, st) == Finish(r.visited, r.stack + [v])
  {
    assert st.(visited := st.visited + {v}) == Finish(w, st.stack);
  }

  /** A step of the loop of `__DFS` over a marked entry. */
  lemma DfsSkip(E: Adjacency, adj: seq<int>, st: Finish)
    requires Wf(E) && (forall a | a in adj :: a in E) && Stacked(E, st)
    requires adj != [] && adj[0] in st.visited
    ensures DfsScan(E, adj, st) == DfsScan(E, adj[1..], st)
  {
  }

  /** A step of the loop of `__DFS` that searches from an unmarked entry. */
  lemma DfsCall(E: Adjacency, adj: seq<int>, st: Finish, st': Finish)
    requires Wf(E) && (forall a | a in adj :: a in E) && Stacked(E, st)
    requires adj != [] && adj[0] !in st.visited && Dfs(E, adj[0], st) == st'
    ensures DfsScan(E, adj, st) == DfsScan(E, adj[1..], st')
  {
  }

  lemma Dfs8(E: Adjacency)
    requires Lists(E)
    ensures Dfs(E, 8, Finish(W6, [])) == Finish(W8, [8])
  {
    DfsStep(E, 8, Finish(W6, []), W8, Finish(W8, []));
  }

  lemma Dfs6(E: Adjacency)
    requires Lists(E)
    ensures Dfs(E, 6, Finish(W7, [])) == Finish(W8, [8, 6])
  {
    Dfs8(E);
    DfsSkip(E, [7, 8], Finish(W6, []));
    DfsCall(E, [8], Finish(W6, []), Finish(W8, [8]));
    DfsStep(E, 6, Finish(W7, []), W6, Finish(W8, [8]));
  }

  lemma Dfs7(E: Adjacency)
    requires Lists(E)
    ensures Dfs(E, 7, Finish(W2, [])) == Finish(W8, [8, 6, 7])
  {
    Dfs6(E);
    DfsCall(E, [6], Finish(W7, []), Finish(W8, [8, 6]));
    DfsStep(E, 7, Finish(W2, []), W7, Finish(W8, [8, 6]));
  }

  lemma Dfs2(E: Adjacency)
    requires Lists(E)
    ensures Dfs(E, 2, Finish(W1, [])) == Finish(W8, [8, 6, 7, 2])
  {
    Dfs7(E);
    DfsSkip(E, [0, 7], Finish(W2, []));
    DfsCall(E, [7], Finish(W2, []), Finish(W8, [8, 6, 7]));
    DfsStep(E, 2, Finish(W1, []), W2, Finish(W8, [8, 6, 7]));
  }

  lemma Dfs5(E: Adjacency)
    requires Lists(E)
    ensures Dfs(E, 5, Finish(W4, [8, 6, 7, 2])) == Finish(W5, [8, 6, 7, 2, 5])
  {
    DfsSkip(E, [5], Finish(W5, [8, 6, 7, 2]));
    DfsStep(E, 5, Finish(W4, [8, 6, 7, 2]), W5, Finish(W5, [8, 6, 7, 2]));
  }

  lemma Dfs4(E: Adjacency)
    requires Lists(E)
    ensures Dfs(E, 4, Finish(W3, [8, 6, 7, 2])) == Finish(W5, [8, 6, 7, 2, 5, 4])
  {
    Dfs5(E);
    DfsSkip(E, [3, 5], Finish(W4, [8, 6, 7, 2]));
    DfsCall(E, [5], Finish(W4, [8, 6, 7, 2]), Finish(W5, [8, 6, 7, 2, 5]));
    DfsStep(E, 4, Finish(W3, [8, 6, 7, 2]), W4, Finish(W5, [8, 6, 7, 2, 5]));
  }

  lemma Dfs3(E: Adjacency)
    requires Lists(E)
    ensures Dfs(E, 3, Finish(W8, [8, 6, 7, 2])) == Finish(W5, [8, 6, 7, 2, 5, 4, 3])
  {
    Dfs4(E);
    DfsCall(E, [4, 6], Finish(W3, [8, 6, 7, 2]), Finish(W5, [8, 6, 7, 2, 5, 4]));
    DfsSkip(E, [6], Finish(W5, [8, 6, 7, 2, 5, 4]));
    DfsStep(E, 3, Finish(W8, [8, 6, 7, 2]), W3, Finish(W5, [8, 6, 7, 2, 5, 4]));
  }

  lemma Dfs1(E: Adjacency)
    requires Lists(E)
    ensures Dfs(E, 1, Finish(W0, [])) == Finish(W5, [8, 6, 7, 2, 5, 4, 3, 1])
  {
    Dfs2(E);
    Dfs3(E);
    DfsSkip(E, [0, 2, 3], Finish(W1, []));
    DfsCall(E, [2, 3], Finish(W1, []), Finish(W8, [8, 6, 7, 2]));
    DfsCall(E, [3], Finish(W8, [8, 6, 7, 2]), Finish(W5, [8, 6, 7, 2, 5, 4, 3]));
    DfsStep(E, 1, Finish(W0, []), W1, Finish(W5, [8, 6, 7, 2, 5, 4, 3]));
  }

  lemma Dfs0(E: Adjacency)
    requires Lists(E)
    ensures Dfs(E, 0, Finish({}, [])) == Finish(W5, [8, 6, 7, 2, 5, 4, 3, 1, 0])
  {
    Dfs1(E);
    DfsCall(E, [1], Finish(W0, []), Finish(W5, [8, 6, 7, 2, 5, 4, 3, 1]));
    DfsStep(E, 0, Finish({}, []), W0, Finish(W5, [8, 6, 7, 2, 5, 4, 3, 1]));
  }

  /** The loop of `solve` skips vertices already marked. */
  lemma {:induction false} FirstPassKnown(E: Adjacency, vs: seq<int>, st: Finish)
    requires Wf(E) && Stacked(E, st) && forall v | v in vs :: v in E && v in st.visited
    ensures FirstPass(E, vs, st) == st
    decreases |vs|
  {
    if vs != [] {
      FirstPassKnown(E, vs[1..], st);
    }
  }

  /** The first pass: the search from A marks every vertex. */
  lemma FirstPassAll(E: Adjacency)
    requires Lists(E)
    ensures FirstPass(E, V1, Finish({}, [])) == Finish(W5, [8, 6, 7, 2, 5, 4, 3, 1, 0])
  {
    Dfs0(E);
    assert V1[1..] == [1, 2, 3, 4, 5, 6, 7, 8];
    FirstPassKnown(E, [1, 2, 3, 4, 5, 6, 7, 8], Finish(W5, [8, 6, 7, 2, 5, 4, 3, 1, 0]));
  }

  // ---------------------------------------------------------------------
  // The second pass: the searches over the reversed lists

  const U4: set<int> := {0, 1, 2, 3, 4}
  const U5: set<int> := {0, 1, 2, 3, 4, 5}
  const U7: set<int> := {0, 1, 2, 3, 4, 5, 7}
  const U6: set<int> := {0, 1, 2, 3, 4, 5, 7, 6}

  /** `__DFST(v)` from the result of its loop. */
  lemma ClaimStep(ET: Adjacency, v: int, st: Claim, w: set<int>, c: seq<int>, r: Claim)
    requires Wf(ET) && v in ET && v !in st.visited
    requires st.visited + {v} == w && st.comp + [v] == c && DfsTScan(ET, ET[v], Claim(w, c)) == r
    ensures DfsT(ET, v, st) == r
  {
  }

  /** A step of the loop of `__DFST` over a marked entry. */
  lemma ClaimSkip(ET: Adjacency, adj: seq<int>, st: Claim)
    requires Wf(ET) && (forall a | a in adj :: a in ET) && adj != [] && adj[0] in st.visited
    ensures DfsTScan(ET, adj, st) == DfsTScan(ET, adj[1..], st)
  {
  }

  /** A step of the loop of `__DFST` that searches from an unmarked entry. */
  lemma ClaimCall(ET: Adjacency, adj: seq<int>, st: Claim, st': Claim)
    requires Wf(ET) && (forall a | a in adj :: a in ET) && adj != [] && adj[0] !in st.visited
    requires DfsT(ET, adj[0], st) == st'
    ensures DfsTScan(ET, adj, st) == DfsTScan(ET, adj[1..], st')
  {
  }

  lemma Claim1(ET: Adjacency)
    requires ListsT(ET)
    ensures DfsT(ET, 1, Claim(W0, [0])) == Claim(W1, [0, 1])
  {
    ClaimSkip(ET, [0], Claim(W1, [0, 1]));
    ClaimStep(ET, 1, Claim(W0, [0]), W1, [0, 1], Claim(W1, [0, 1]));
  }

  lemma Claim2(ET: Adjacency)
    requires ListsT(ET)
    ensures DfsT(ET, 2, Claim(W1, [0, 1])) == Claim(W2, [0, 1, 2])
  {
    ClaimSkip(ET, [1], Claim(W2, [0, 1, 2]));
    ClaimStep(ET, 2, Claim(W1, [0, 1]), W2, [0, 1, 2], Claim(W2, [0, 1, 2]));
  }

  lemma Claim0(ET: Adjacency)
    requires ListsT(ET)
    ensures DfsT(ET, 0, Claim({}, [])) == Claim(W2, [0, 1, 2])
  {
    Claim1(ET);
    Claim2(ET);
    ClaimCall(ET, [1, 2], Claim(W0, [0]), Claim(W1, [0, 1]));
    ClaimCall(ET, [2], Claim(W1, [0, 1]), Claim(W2, [0, 1, 2]));
    ClaimStep(ET, 0, Claim({}, []), W0, [0], Claim(W2, [0, 1, 2]));
  }

  lemma Claim4(ET: Adjacency)
    requires ListsT(ET)
    ensures DfsT(ET, 4, Claim({0, 1, 2, 3}, [3])) == Claim(U4, [3, 4])
  {
    ClaimSkip(ET, [3], Claim(U4, [3, 4]));
    ClaimStep(ET, 4, Claim({0, 1, 2, 3}, [3]), U4, [3, 4], Claim(U4, [3, 4]));
  }

  lemma Claim3(ET: Adjacency)
    requires ListsT(ET)
    ensures DfsT(ET, 3, Claim(W2, [])) == Claim(U4, [3, 4])
  {
    Claim4(ET);
    ClaimSkip(ET, [1, 4], Claim({0, 1, 2, 3}, [3]));
    ClaimCall(ET, [4], Claim({0, 1, 2, 3}, [3]), Claim(U4, [3, 4]));
    ClaimStep(ET, 3, Claim(W2, []), {0, 1, 2, 3}, [3], Claim(U4, [3, 4]));
  }

  lemma Claim5(ET: Adjacency)
    requires ListsT(ET)
    ensures DfsT(ET, 5, Claim(U4, [])) == Claim(U5, [5])
  {
    ClaimSkip(ET, [4, 5], Claim(U5, [5]));
    ClaimSkip(ET, [5], Claim(U5, [5]));
    ClaimStep(ET, 5, Claim(U4, []), U5, [5], Claim(U5, [5]));
  }

  lemma Claim6(ET: Adjacency)
    requires ListsT(ET)
    ensures DfsT(ET, 6, Claim(U7, [7])) == Claim(U6, [7, 6])
  {
    ClaimSkip(ET, [3, 7], Claim(U6, [7, 6]));
    ClaimSkip(ET, [7], Claim(U6, [7, 6]));
    ClaimStep(ET, 6, Claim(U7, [7]), U6, [7, 6], Claim(U6, [7, 6]));
  }

  lemma Claim7(ET: Adjacency)
    requires ListsT(ET)
    ensures DfsT(ET, 7, Claim(U5, [])) == Claim(U6, [7, 6])
  {
    Claim6(ET);
    ClaimSkip(ET, [2, 6], Claim(U7, [7]));
    ClaimCall(ET, [6], Claim(U7, [7]), Claim(U6, [7, 6]));
    ClaimStep(ET, 7, Claim(U5, []), U7, [7], Claim(U6, [7, 6]));
  }

  lemma Claim8(ET: Adjacency)
    requires ListsT(ET)
    ensures DfsT(ET, 8, Claim(U6, [])) == Claim(W5, [8])
  {
    ClaimSkip(ET, [6], Claim(W5, [8]));
    ClaimStep(ET, 8, Claim(U6, []), W5, [8], Claim(W5, [8]));
  }

  /** A popped vertex already claimed. */
  lemma PassSkip(ET: Adjacency, rest: seq<int>, v: int, vis: set<int>, scc: seq<seq<int>>)
    requires Wf(ET) && (forall x | x in rest + [v] :: x in ET) && v in vis
    ensures SecondPass(ET, rest + [v], vis, scc) == SecondPass(ET, rest, vis, scc)
  {
    assert (rest + [v])[..|rest|] == rest;
  }

  /** A popped vertex not yet claimed: the root of a new component. */
  lemma PassRoot(ET: Adjacency, rest: seq<int>, v: int, vis: set<int>, scc: seq<seq<int>>, c: Claim)
    requires Wf(ET) && (forall x | x in rest + [v] :: x in ET) && v !in vis
    requires DfsT(ET, v, Claim(vis, [])) == c
    ensures SecondPass(ET, rest + [v], vis, scc) == SecondPass(ET, rest, c.visited, scc + [c.comp])
  {
    assert (rest + [v])[..|rest|] == rest;
  }

  /** The components in the order `KorsajuSCC` claims them. */
  const Claimed: seq<seq<int>> := [[0, 1, 2], [3, 4], [5], [7, 6], [8]]

  lemma SecondPassA(ET: Adjacency)
    requires ListsT(ET)
    ensures SecondPass(ET, [8, 6, 7, 2, 5, 4, 3, 1, 0], {}, [])
         == SecondPass(ET, [8, 6, 7, 2, 5, 4, 3], W2, [[0, 1, 2]])
  {
    Claim0(ET);
    assert [8, 6, 7, 2, 5, 4, 3, 1] + [0] == [8, 6, 7, 2, 5, 4, 3, 1, 0];
    PassRoot(ET, [8, 6, 7, 2, 5, 4, 3, 1], 0, {}, [], Claim(W2, [0, 1, 2]));
    assert [] + [[0, 1, 2]] == [[0, 1, 2]];
    assert [8, 6, 7, 2, 5, 4, 3] + [1] == [8, 6, 7, 2, 5, 4, 3, 1];
    PassSkip(ET, [8, 6, 7, 2, 5, 4, 3], 1, W2, [[0, 1, 2]]);
  }

  lemma SecondPassD(ET: Adjacency)
    requires ListsT(ET)
    ensures SecondPass(ET, [8, 6, 7, 2, 5, 4, 3], W2, [[0, 1, 2]])
         == SecondPass(ET, [8, 6, 7, 2, 5], U4, [[0, 1, 2], [3, 4]])
  {
    Claim3(ET);
    assert [8, 6, 7, 2, 5, 4] + [3] == [8, 6, 7, 2, 5, 4, 3];
    PassRoot(ET, [8, 6, 7, 2, 5, 4], 3, W2, [[0, 1, 2]], Claim(U4, [3, 4]));
    assert [[0, 1, 2]] + [[3, 4]] == [[0, 1, 2], [3, 4]];
    assert [8, 6, 7, 2, 5] + [4] == [8, 6, 7, 2, 5, 4];
    PassSkip(ET, [8, 6, 7, 2, 5], 4, U4, [[0, 1, 2], [3, 4]]);
  }

  lemma SecondPassF(ET: Adjacency)
    requires ListsT(ET)
    ensures SecondPass(ET, [8, 6, 7, 2, 5], U4, [[0, 1, 2], [3, 4]])
         == SecondPass(ET, [8, 6, 7], U5, [[0, 1, 2], [3, 4], [5]])
  {
    Claim5(ET);
    assert [8, 6, 7, 2] + [5] == [8, 6, 7, 2, 5];
    PassRoot(ET, [8, 6, 7, 2], 5, U4, [[0, 1, 2], [3, 4]], Claim(U5, [5]));
    assert [[0, 1, 2], [3, 4]] + [[5]] == [[0, 1, 2], [3, 4], [5]];
    assert [8, 6, 7] + [2] == [8, 6, 7, 2];
    PassSkip(ET, [8, 6, 7], 2, U5, [[0, 1, 2], [3, 4], [5]]);
  }

  lemma SecondPassH(ET: Adjacency)
    requires ListsT(ET)
    ensures SecondPass(ET, [8, 6, 7], U5, [[0, 1, 2], [3, 4], [5]]) == Claimed
  {
    Claim7(ET);
    Claim8(ET);
    assert [8, 6] + [7] == [8, 6, 7];
    PassRoot(ET, [8, 6], 7, U5, [[0, 1, 2], [3, 4], [5]], Claim(U6, [7, 6]));
    assert [8] + [6] == [8, 6];
    PassSkip(ET, [8], 6, U6, [[0, 1, 2], [3, 4], [5], [7, 6]]);
    assert [] + [8] == [8];
    PassRoot(ET, [], 8, U6, [[0, 1, 2], [3, 4], [5], [7, 6]], Claim(W5, [8]));
  }

  /** The second pass over the finish stack of the first. */
  lemma SecondPassAll(ET: Adjacency)
    requires ListsT(ET)
    ensures SecondPass(ET, [8, 6, 7, 2, 5, 4, 3, 1, 0], {}, []) == Claimed
  {
    SecondPassA(ET);
    SecondPassD(ET);
    SecondPassF(ET);
    SecondPassH(ET);
  }

  // ---------------------------------------------------------------------
  // The result

  lemma ClaimedGroups()
    ensures Groups(Claimed) == Groups(Expected)
  {
    assert multiset([7, 6]) == multiset([6, 7]);
    GroupsPointwise(Claimed, Expected);
  }

  /** The raw component list of `korsaju.solve(G)` in `checkSCC`. */
  lemma ClaimedOnFixture(g: Graph)
    requires Valid(g) && g.V == V1 && Lists(g.E)
    ensures Components(g) == Claimed
  {
    Shape(g);
    FirstPassAll(g.E);
    ReversedLists(g.E);
    SecondPassAll(ReverseAll(V1, g.E));
  }

  lemma Shape(g: Graph)
    requires Valid(g) && g.V == V1 && Lists(g.E)
    ensures Shaped(g.E)
  {
  }

  /** `korsaju.solve(G)` in `checkSCC`: the SCC with the components
      {A, B, C}, {D, E}, {F}, {G, H} and {I}. */
  lemma KosarajuResult(g: Graph)
    requires Valid(g) && g.V == V1 && Lists(g.E)
    ensures Kosaraju.Kosaraju(g) == Ok(Scc(V1, Expected))
  {
    ClaimedOnFixture(g);
    KosarajuPartition(g);
    ClaimedGroups();
    ExpectedScc(Claimed);
  }
}
