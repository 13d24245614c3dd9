/** The run of `checkSCC(given=True)` (solver.py): the two solvers agree on
    the fixed graph, and the graph accepts the result. */
module SccCheck {
  import opened Base
  import opened Partition
  import opened Graphs
  import opened SccFixture
  import TarjanScc
  import Kosaraju
  import TarjanSccFixture
  import KosarajuFixture

  /** For the graph `G = Graph(V, E, isDirected=True)` of `checkSCC`: both
      solvers return the same SCC, so `tarjanSCC != korsajuSCC` is false
      (`SCC.__eq__` compares the component lists), and `G.setSCC(tarjanSCC)`
      attaches the components {A, B, C}, {D, E}, {F}, {G, H} and {I}. */
  lemma CheckScc(g: Graph)
    requires NewGraph(V1, Given, true, None, None) == Ok(g)
    ensures Valid(g) && g.V == V1
    ensures TarjanScc.Tarjan(g) == Kosaraju.Kosaraju(g) == Ok(Scc(V1, Expected))
    ensures SetScc(g, Scc(V1, Expected)) == Ok(g.(scc := Some(Scc(V1, Expected))))
  {
    Built(g);
    TarjanSccFixture.TarjanFixture(g);
    KosarajuFixture.KosarajuResult(g);
  }
}
