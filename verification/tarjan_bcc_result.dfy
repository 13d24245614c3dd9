/** What `TarjanBCC().solve(G)` returns on a simple undirected graph: the
    components it hands to `BCC` partition the edge pairs of the graph, so
    the `BCC` constructor accepts them and `setBCC` attaches the result. */
module TarjanBccResult {
  import opened Base
  import opened Sorting
  import opened Partition
  import opened Graphs
  import opened TarjanBcc
  import opened TarjanBccProofs

  // ---------------------------------------------------------------------
  // Pairs and their reverses

  lemma {:induction false} BothAppend(a: seq<Edge>, b: seq<Edge>)
    ensures Both(a + b) == Both(a) + Both(b)
    decreases |a|
  {
    if a != [] {
      assert (a + b)[1..] == a[1..] + b;
      BothAppend(a[1..], b);
    } else {
      assert a + b == b;
    }
  }

  /** Building the components one by one and flattening them gives the
      same list as adding reverses to the flattened popped pairs. */
  lemma {:induction false} BothFlatten(c: seq<seq<Edge>>)
    ensures Flatten(MapSeq(Both, c)) == Both(Flatten(c))
    decreases |c|
  {
    if c != [] {
      assert MapSeq(Both, c)[1..] == MapSeq(Both, c[1..]);
      BothFlatten(c[1..]);
      BothAppend(c[0], Flatten(c[1..]));
    }
  }

  /** A pair is in a component exactly when it or its reverse was popped. */
  lemma {:induction false} BothMember(ps: seq<Edge>, e: Edge)
    ensures e in Both(ps) <==> e in ps || Rev(e) in ps
    decreases |ps|
  {
    if ps != [] {
      BothMember(ps[1..], e);
      assert ps == [ps[0]] + ps[1..];
    }
  }

  /** Every component holds the reverse of each of its pairs. */
  lemma BothSymmetric(ps: seq<Edge>)
    ensures Symmetric(Both(ps))
  {
    var b := Both(ps);
    forall k | 0 <= k < |b| ensures (b[k].1, b[k].0) in b {
      BothMember(ps, b[k]);
      BothMember(ps, (b[k].1, b[k].0));
    }
  }

  /** Popped pairs that occur once and never together with their reverse
      give components without a repeated pair. */
  lemma {:induction false} BothNoDup(ps: seq<Edge>)
    requires NoDup(ps) && forall x, y | (x, y) in ps :: (y, x) !in ps
    ensures NoDup(Both(ps))
    decreases |ps|
  {
    if ps != [] {
      var e := ps[0];
      var t := ps[1..];
      assert ps == [e] + t;
      NoDupSplit([e], t);
      BothNoDup(t);
      BothMember(t, e);
      BothMember(t, Rev(e));
      assert Rev(Rev(e)) == e;
      var x, y := e.0, e.1;
      assert (x, y) in ps;
      assert (y, x) !in ps;
      NoDupConcat([e, Rev(e)], Both(t));
    }
  }

  // ---------------------------------------------------------------------
  // The edge pairs of a graph

  /** The pairs `(v, a)` for the entries `a` of `adj`, in order. */
  function Out(v: int, adj: seq<int>): (r: seq<Edge>)
    ensures |r| == |adj|
    ensures forall e :: e in r <==> e.0 == v && e.1 in adj
  {
    if adj == [] then [] else [(v, adj[0])] + Out(v, adj[1..])
  }

  lemma {:induction false} OutNoDup(v: int, adj: seq<int>)
    requires NoDup(adj)
    ensures NoDup(Out(v, adj))
    decreases |adj|
  {
    if adj != [] {
      assert adj == [adj[0]] + adj[1..];
      NoDupSplit([adj[0]], adj[1..]);
      OutNoDup(v, adj[1..]);
      NoDupConcat([(v, adj[0])], Out(v, adj[1..]));
    }
  }

  /** Every pair `(v, a)` with `a` in `E[v]`, for the vertices `v` of `V` in
      order: the pairs `setBCC` counts. */
  function Pairs(V: seq<int>, E: Adjacency): (r: seq<Edge>)
    ensures |r| == EdgeCount(V, E)
    ensures forall e :: e in r <==> e.0 in V && e.0 in E && e.1 in E[e.0]
  {
    if V == [] then []
    else (if V[0] in E then Out(V[0], E[V[0]]) else []) + Pairs(V[1..], E)
  }

  lemma {:induction false} PairsNoDup(V: seq<int>, E: Adjacency)
    requires NoDup(V) && forall v | v in E :: NoDup(E[v])
    ensures NoDup(Pairs(V, E))
    decreases |V|
  {
    if V != [] {
      assert V == [V[0]] + V[1..];
      NoDupSplit([V[0]], V[1..]);
      PairsNoDup(V[1..], E);
      if V[0] in E {
        OutNoDup(V[0], E[V[0]]);
        NoDupConcat(Out(V[0], E[V[0]]), Pairs(V[1..], E));
      } else {
        assert Pairs(V, E) == Pairs(V[1..], E);
      }
    }
  }

  // ---------------------------------------------------------------------
  // The result of `solve`

  /** After the loop of `solve` over `V` every vertex of `V` is finished
      and the stack is empty. */
  lemma SolveDone(E: Adjacency, V: seq<int>, st: State)
    requires Simple(E) && (forall v | v in V :: v in E) && Blank(st)
    ensures Wf(E)
    ensures var r := SolveFrom(E, V, st, Optional);
      Inv(E, r) && r.stack == [] && forall v | v in V :: StatusOf(r, v) == Known
  {
    InitInv(E, st);
    SolveInv(E, V, st);
  }

  /** The popped pairs of a finished search: each edge of the graph once,
      in exactly one direction. */
  lemma FinalPairs(E: Adjacency, st: State)
    requires Simple(E) && Inv(E, st) && st.stack == [] && forall x | x in E :: StatusOf(st, x) == Known
    ensures var F := Flatten(st.closed);
      && NoDup(F)
      && (forall x, y | (x, y) in F :: (y, x) !in F && x in E && y in E[x])
      && (forall x, y | x in E && y in E[x] :: (x, y) in F || (y, x) in F)
  {
    var F := Flatten(st.closed);
    assert Pushed(st) == multiset(F);
    forall e: Edge | e in multiset(F) ensures multiset(F)[e] == 1 {
      var x, y := e.0, e.1;
      assert (x, y) in Pushed(st);
    }
    NoDupMultiset(F);
    forall x, y | x in E && y in E[x] ensures (x, y) in F || (y, x) in F {
      assert StatusOf(st, x) == Known;
      assert (x, y) in Pushed(st) || (y, x) in Pushed(st);
    }
  }

  /** Pairs that hold each edge of the graph once, in exactly one
      direction, give with their reverses every edge pair of the graph once. */
  lemma BothCover(F: seq<Edge>, E: Adjacency, V: seq<int>)
    requires Simple(E) && NoDup(V) && forall x | x in E :: x in V
    requires NoDup(F)
    requires forall x, y | (x, y) in F :: (y, x) !in F && x in E && y in E[x]
    requires forall x, y | x in E && y in E[x] :: (x, y) in F || (y, x) in F
    ensures NoDup(Both(F))
    ensures forall x, y :: (x, y) in Both(F) <==> x in E && y in E[x]
    ensures multiset(Both(F)) == multiset(Pairs(V, E))
  {
    BothNoDup(F);
    forall x, y ensures (x, y) in Both(F) <==> x in E && y in E[x] {
      BothMember(F, (x, y));
      if (y, x) in F {
        assert y in E && x in E[y];
      }
    }
    forall e: Edge ensures e in Both(F) <==> e in Pairs(V, E) {
      var x, y := e.0, e.1;
      assert (x, y) in Both(F) <==> x in E && y in E[x];
    }
    PairsNoDup(V, E);
    NoDupSameMembers(Both(F), Pairs(V, E));
  }

  /** The components built from the popped pairs of a search over all of
      `V`: every edge pair once, each component closed under reversal. */
  lemma SolvedPairs(E: Adjacency, V: seq<int>, st: State)
    requires Simple(E) && NoDup(V) && (forall v | v in V :: v in E) && (forall x | x in E :: x in V) && Blank(st)
    ensures Wf(E)
    ensures var comps := MapSeq(Both, SolveFrom(E, V, st, Optional).closed);
      && NoDup(Flatten(comps))
      && (forall i | 0 <= i < |comps| :: Symmetric(comps[i]))
      && (forall x, y :: (x, y) in Flatten(comps) <==> x in E && y in E[x])
      && multiset(Flatten(comps)) == multiset(Pairs(V, E))
  {
    SolveDone(E, V, st);
    var r := SolveFrom(E, V, st, Optional);
    FinalPairs(E, r);
    BothCover(Flatten(r.closed), E, V);
    BothFlatten(r.closed);
    var comps := MapSeq(Both, r.closed);
    forall i | 0 <= i < |comps| ensures Symmetric(comps[i]) {
      BothSymmetric(r.closed[i]);
    }
  }

  /** On a simple graph (every edge with its reverse, no self-loops, no
      repeated entries) the components `solve` hands to `BCC` hold every
      edge pair of the graph exactly once, each component with the reverse
      of each of its pairs; so the `BCC` constructor accepts them. */
  lemma BiconnectedPartition(g: Graph)
    requires Valid(g) && Simple(g.E)
    ensures var comps := Components(g, Optional);
      && NoDup(Flatten(comps))
      && (forall i | 0 <= i < |comps| :: Symmetric(comps[i]))
      && (forall x, y :: (x, y) in Flatten(comps) <==> x in g.E && y in g.E[x])
      && multiset(Flatten(comps)) == multiset(Pairs(g.V, g.E))
      && Biconnected(g).Ok?
  {
    SolvedPairs(g.E, g.V, Init);
  }

  /** `G.setBCC(TarjanBCC().solve(G))` succeeds on a simple graph: the
      result holds as many pairs as the adjacency lists hold entries. */
  lemma BiconnectedAttaches(g: Graph)
    requires Valid(g) && Simple(g.E)
    ensures Biconnected(g).Ok? && SetBcc(g, Biconnected(g).value).Ok?
  {
    BiconnectedPartition(g);
    var comps := Components(g, Optional);
    var b := Biconnected(g).value;
    assert multiset(b.E) == multiset(Pairs(g.V, g.E));
    assert |b.E| == |multiset(b.E)| == |multiset(Pairs(g.V, g.E))| == |Pairs(g.V, g.E)|;
  }
}
