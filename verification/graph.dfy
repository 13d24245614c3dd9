/** The `Graph` of basicComponent.py: a vertex list, an adjacency list per
    vertex, a directedness flag, and optionally an attached SCC and BCC.
    The constructor validates and sorts; copies and transposes go through
    the constructor again. */
module Graphs {
  import opened Base
  import opened Sorting
  import opened Partition

  /** The adjacency dictionary `E`: vertex to its list of successors. */
  type Adjacency = map<int, seq<int>>

  datatype Graph = Graph(V: seq<int>, E: Adjacency, directed: bool, scc: Option<Scc>, bcc: Option<Bcc>)

  /** Every key of `E`, and every entry of its lists, is a vertex of `V`. */
  predicate Closed(V: seq<int>, E: Adjacency) {
    forall v | v in E :: v in V && forall a | a in E[v] :: a in V
  }

  /** Every vertex of `V` has an adjacency list. */
  predicate Complete(V: seq<int>, E: Adjacency) {
    forall v | v in V :: v in E
  }

  /** Every entry of an adjacency list has an adjacency list itself: what a
      search needs to follow edges without a `KeyError`. */
  predicate Wf(E: Adjacency) {
    forall v | v in E :: forall a | a in E[v] :: a in E
  }

  /** The shape of every graph the constructor returns: distinct vertices in
      ascending order, one adjacency list per vertex, sorted, naming vertices only. */
  predicate Valid(g: Graph) {
    && NoDup(g.V) && SortedBy(g.V, IntLe)
    && Closed(g.V, g.E) && Complete(g.V, g.E)
    && forall v | v in g.E :: SortedBy(g.E[v], IntLe)
  }

  /** `Graph(V, E, isDirected, scc, bcc)`: rejects a repeated vertex, then a key
      or an entry outside `V`, then a vertex without an adjacency list (the
      `KeyError` of `E[v].sort()`); sorts `V` and every list. */
  function NewGraph(V: seq<int>, E: Adjacency, directed: bool, scc: Option<Scc>, bcc: Option<Bcc>): (r: Result<Graph>)
    ensures r.Ok? <==> NoDup(V) && Closed(V, E) && Complete(V, E)
    ensures !NoDup(V) ==> r == Err(DuplicateVertex)
    ensures NoDup(V) && !Closed(V, E) ==> r == Err(UnknownVertex)
    ensures NoDup(V) && Closed(V, E) && !Complete(V, E) ==> r == Err(MissingAdjacency)
    ensures r.Ok? ==> multiset(r.value.V) == multiset(V) && r.value.E.Keys == E.Keys
    ensures r.Ok? ==> forall v | v in E :: multiset(r.value.E[v]) == multiset(E[v])
    ensures r.Ok? ==> r.value.directed == directed && r.value.scc == scc && r.value.bcc == bcc
  {
    if !NoDup(V) then Err(DuplicateVertex)
    else if !Closed(V, E) then Err(UnknownVertex)
    else if !Complete(V, E) then Err(MissingAdjacency)
    else Ok(Graph(SortBy(V, IntLe), map v | v in E :: SortBy(E[v], IntLe), directed, scc, bcc))
  }

  /** Every graph the constructor returns is `Valid`. */
  lemma NewGraphValid(V: seq<int>, E: Adjacency, directed: bool, scc: Option<Scc>, bcc: Option<Bcc>)
    requires NewGraph(V, E, directed, scc, bcc).Ok?
    ensures Valid(NewGraph(V, E, directed, scc, bcc).value)
  {
    var g := NewGraph(V, E, directed, scc, bcc).value;
    IntLeTotal();
    SortBySorted(V, IntLe);
    NoDupPermutation(V, g.V);
    SameMembers(V, g.V);
    forall v | v in g.E
      ensures SortedBy(g.E[v], IntLe) && forall a | a in g.E[v] :: a in g.V
    {
      SortBySorted(E[v], IntLe);
      SameMembers(E[v], g.E[v]);
    }
  }

  /** In a valid graph the keys of `E` are exactly the vertices. */
  lemma ValidKeys(g: Graph)
    requires Valid(g)
    ensures g.E.Keys == set v | v in g.V
  {
    forall v ensures v in g.E.Keys <==> v in (set v | v in g.V) {
    }
  }

  /** Rebuilding a valid graph from its own lists changes nothing: the
      constructor's sorting is idempotent. */
  lemma NewGraphIdempotent(g: Graph, directed: bool, scc: Option<Scc>, bcc: Option<Bcc>)
    requires Valid(g)
    ensures NewGraph(g.V, g.E, directed, scc, bcc) == Ok(Graph(g.V, g.E, directed, scc, bcc))
  {
    IntLeTotal();
    SortSorted(g.V, IntLe);
    var e := map v | v in g.E :: SortBy(g.E[v], IntLe);
    forall v | v in g.E
      ensures e[v] == g.E[v]
    {
      SortSorted(g.E[v], IntLe);
    }
    assert e == g.E;
  }

  lemma SortedIntsFixed(s: seq<int>)
    requires SortedBy(s, IntLe)
    ensures SortBy(s, IntLe) == s
  {
    IntLeTotal();
    SortSorted(s, IntLe);
  }

  /** `Graph.__eq__`: same vertex list and same adjacency lists; the
      directedness flag and the attachments are not compared. */
  predicate Same(g: Graph, h: Graph) {
    g.V == h.V && g.E == h.E
  }

  /** `Graph.copy`: a fresh graph with the same lists and flag, no attachments. */
  function Copy(g: Graph): (r: Result<Graph>)
    requires Valid(g)
    ensures r.Ok? && Same(r.value, g) && Valid(r.value)
    ensures r.value.directed == g.directed && r.value.scc == None && r.value.bcc == None
  {
    var e := map v | v in g.V :: g.E[v];
    ValidKeys(g);
    assert e == g.E;
    NewGraphIdempotent(g, g.directed, None, None);
    NewGraph(g.V, e, g.directed, None, None)
  }

  // ---------------------------------------------------------------------
  // Transpose

  /** The vertices `x` of `V`, each as often as `u` occurs in `E[x]`: the
      predecessors of `u`, with multiplicity. */
  function Incoming(V: seq<int>, E: Adjacency, u: int): multiset<int> {
    if V == [] then multiset{}
    else
      var m := if V[0] in E then multiset(E[V[0]])[u] else 0;
      multiset{}[V[0] := m] + Incoming(V[1..], E, u)
  }

  lemma {:induction false} IncomingCount(V: seq<int>, E: Adjacency, u: int, x: int)
    requires NoDup(V) && Complete(V, E)
    ensures Incoming(V, E, u)[x] == if x in V then multiset(E[x])[u] else 0
    decreases |V|
  {
    if V != [] {
      assert V[0] !in V[1..];
      assert x in V <==> x == V[0] || x in V[1..];
      IncomingCount(V[1..], E, u, x);
    }
  }

  /** `ET[a].append(v)` for every `a` of `adj`, in order. */
  function AddReverse(ET: Adjacency, v: int, adj: seq<int>): (r: Adjacency)
    requires forall a | a in adj :: a in ET
    ensures r.Keys == ET.Keys
    decreases |adj|
  {
    if adj == [] then ET
    else
      var a := adj[0];
      assert adj == [a] + adj[1..];
      AddReverse(ET[a := ET[a] + [v]], v, adj[1..])
  }

  /** The number of occurrences of `u` in `s`. */
  function Count(s: seq<int>, u: int): nat {
    if s == [] then 0 else (if s[0] == u then 1 else 0) + Count(s[1..], u)
  }

  /** `n` copies of `x`. */
  function Repeat(x: int, n: nat): (r: seq<int>)
    ensures |r| == n && forall y | y in r :: y == x
  {
    if n == 0 then [] else [x] + Repeat(x, n - 1)
  }

  /** The vertices `x` of `V` in order, each as often as `u` occurs in
      `E[x]`: the reversed list of `u`, order included. */
  function Into(V: seq<int>, E: Adjacency, u: int): seq<int> {
    if V == [] then []
    else (if V[0] in E then Repeat(V[0], Count(E[V[0]], u)) else []) + Into(V[1..], E, u)
  }

  /** The appends of one vertex `v` put `v` at the end of the list of each
      entry of `adj`, once per occurrence. */
  lemma {:induction false} AddReverseAt(ET: Adjacency, v: int, adj: seq<int>, u: int)
    requires (forall a | a in adj :: a in ET) && u in ET
    ensures AddReverse(ET, v, adj)[u] == ET[u] + Repeat(v, Count(adj, u))
    decreases |adj|
  {
    if adj == [] {
      assert ET[u] + [] == ET[u];
    } else {
      var a, t := adj[0], adj[1..];
      AddReverseAt(ET[a := ET[a] + [v]], v, t, u);
      assert adj == [a] + t;
      AddReverseFirst(ET, v, a, t, u);
    }
  }

  /** The step of `AddReverseAt` for the first entry `a`. */
  lemma AddReverseFirst(ET: Adjacency, v: int, a: int, t: seq<int>, u: int)
    requires a in ET && (forall x | x in t :: x in ET) && u in ET
    requires var et := ET[a := ET[a] + [v]];
      AddReverse(et, v, t)[u] == et[u] + Repeat(v, Count(t, u))
    ensures AddReverse(ET, v, [a] + t)[u] == ET[u] + Repeat(v, Count([a] + t, u))
  {
    AddReverseCons(ET, v, a, t);
    CountCons(a, t, u);
    if u == a {
      FirstSame(ET[u], v, AddReverse(ET, v, [a] + t)[u], Count(t, u));
    }
  }

  lemma FirstSame(l: seq<int>, v: int, r: seq<int>, n: nat)
    requires r == (l + [v]) + Repeat(v, n)
    ensures r == l + Repeat(v, n + 1)
  {
    assert Repeat(v, n + 1) == [v] + Repeat(v, n);
  }

  lemma AddReverseCons(ET: Adjacency, v: int, a: int, t: seq<int>)
    requires a in ET && forall x | x in t :: x in ET
    ensures AddReverse(ET, v, [a] + t) == AddReverse(ET[a := ET[a] + [v]], v, t)
  {
    assert ([a] + t)[0] == a && ([a] + t)[1..] == t;
  }

  lemma CountCons(a: int, t: seq<int>, u: int)
    ensures Count([a] + t, u) == (if a == u then 1 else 0) + Count(t, u)
  {
    assert ([a] + t)[0] == a && ([a] + t)[1..] == t;
  }

  lemma {:induction false} CountIs(s: seq<int>, u: int)
    ensures Count(s, u) == multiset(s)[u]
    decreases |s|
  {
    if s != [] {
      assert s == [s[0]] + s[1..];
      CountIs(s[1..], u);
    }
  }

  lemma {:induction false} RepeatBag(x: int, n: nat)
    ensures multiset(Repeat(x, n)) == multiset{}[x := n]
  {
    if n > 0 {
      RepeatBag(x, n - 1);
    }
  }

  /** The ordered predecessors of `u` are, as a multiset, its predecessors. */
  lemma {:induction false} IntoIncoming(V: seq<int>, E: Adjacency, u: int)
    ensures multiset(Into(V, E, u)) == Incoming(V, E, u)
    decreases |V|
  {
    if V != [] {
      IntoIncoming(V[1..], E, u);
      if V[0] in E {
        CountIs(E[V[0]], u);
        RepeatBag(V[0], Count(E[V[0]], u));
      }
    }
  }

  /** Every vertex of `V` has an adjacency list whose entries are keys of `ET`. */
  predicate Targets(V: seq<int>, E: Adjacency, ET: Adjacency) {
    forall v | v in V :: v in E && forall a | a in E[v] :: a in ET
  }

  lemma TargetsTail(V: seq<int>, E: Adjacency, ET: Adjacency, et: Adjacency)
    requires Targets(V, E, ET) && V != [] && et.Keys == ET.Keys
    ensures Targets(V[1..], E, et)
  {
    assert forall v | v in V[1..] :: v in V;
  }

  /** The loop `for v in V: for adjV in E[v]: ET[adjV].append(v)`. */
  function Reverse(V: seq<int>, E: Adjacency, ET: Adjacency): (r: Adjacency)
    requires Targets(V, E, ET)
    ensures r.Keys == ET.Keys
    decreases |V|
  {
    if V == [] then ET
    else
      var et := AddReverse(ET, V[0], E[V[0]]);
      TargetsTail(V, E, ET, et);
      Reverse(V[1..], E, et)
  }

  /** `h` holds the edges of `g` reversed, with their multiplicities. */
  predicate Transposed(g: Graph, h: Graph)
    requires Complete(g.V, g.E) && Complete(g.V, h.E)
  {
    forall u, x | u in g.V && x in g.V :: multiset(h.E[u])[x] == multiset(g.E[x])[u]
  }

  /** Every edge comes with its reverse, with the same multiplicity: the
      adjacency lists of an undirected graph. */
  predicate Undirected(g: Graph)
    requires Complete(g.V, g.E)
  {
    forall u, x | u in g.V && x in g.V :: multiset(g.E[u])[x] == multiset(g.E[x])[u]
  }

  /** The loop over all of `V` appends to the list of `u` exactly the
      predecessors of `u`, in the order of `V`. */
  lemma {:induction false} ReverseAt(V: seq<int>, E: Adjacency, ET: Adjacency, u: int)
    requires Targets(V, E, ET) && u in ET
    ensures Reverse(V, E, ET)[u] == ET[u] + Into(V, E, u)
    decreases |V|
  {
    if V == [] {
      assert ET[u] + [] == ET[u];
    } else {
      var et := AddReverse(ET, V[0], E[V[0]]);
      TargetsTail(V, E, ET, et);
      ReverseAt(V[1..], E, et, u);
      AddReverseAt(ET, V[0], E[V[0]], u);
      Concat3(Reverse(V, E, ET)[u], et[u], ET[u], Repeat(V[0], Count(E[V[0]], u)), Into(V[1..], E, u));
    }
  }

  lemma Concat3(r: seq<int>, m: seq<int>, l: seq<int>, p: seq<int>, q: seq<int>)
    requires r == m + q && m == l + p
    ensures r == l + (p + q)
  {
  }

  /** The reversed adjacency lists: `ET` starts with an empty list per vertex. */
  function ReverseAll(V: seq<int>, E: Adjacency): (et: Adjacency)
    requires NoDup(V) && Closed(V, E) && Complete(V, E)
    ensures et.Keys == set v | v in V
    ensures forall u | u in V :: multiset(et[u]) == Incoming(V, E, u)
  {
    var empty: Adjacency := map v | v in V :: [];
    assert Targets(V, E, empty) by {
      forall v, a | v in V && a in E[v] ensures a in empty {
        assert v in E;
      }
    }
    var et := Reverse(V, E, empty);
    assert et.Keys == set v | v in V;
    forall u | u in V
      ensures multiset(et[u]) == Incoming(V, E, u)
    {
      ReverseAt(V, E, empty, u);
      assert [] + Into(V, E, u) == Into(V, E, u);
      IntoIncoming(V, E, u);
    }
    et
  }

  /** `ET[u]` lists the predecessors of `u` in the order of `V`, each as
      often as it lists `u`. */
  lemma ReverseAllOrder(V: seq<int>, E: Adjacency, u: int)
    requires NoDup(V) && Closed(V, E) && Complete(V, E) && u in V
    ensures ReverseAll(V, E)[u] == Into(V, E, u)
  {
    var empty: Adjacency := map v | v in V :: [];
    assert Targets(V, E, empty) by {
      forall v, a | v in V && a in E[v] ensures a in empty {
        assert v in E;
      }
    }
    ReverseAt(V, E, empty, u);
    assert [] + Into(V, E, u) == Into(V, E, u);
  }

  /** The reversed lists name vertices only, one list per vertex, and
      `x` is in `ET[u]` exactly when `u` is in `E[x]`. */
  lemma ReverseAllShape(V: seq<int>, E: Adjacency)
    requires NoDup(V) && Closed(V, E) && Complete(V, E)
    ensures Wf(ReverseAll(V, E)) && ReverseAll(V, E).Keys == set v | v in V
    ensures forall u, x | u in V :: x in ReverseAll(V, E)[u] <==> x in V && u in E[x]
  {
    ReversedEntries(V, E, ReverseAll(V, E));
  }

  lemma ReversedEntries(V: seq<int>, E: Adjacency, et: Adjacency)
    requires NoDup(V) && Complete(V, E) && et.Keys == set v | v in V
    requires forall u | u in V :: multiset(et[u]) == Incoming(V, E, u)
    ensures Wf(et)
    ensures forall u, x | u in V :: x in et[u] <==> x in V && u in E[x]
  {
    forall u, x | u in V
      ensures x in et[u] <==> x in V && u in E[x]
    {
      ReversedEntry(V, E, et[u], u, x);
    }
    forall v, a | v in et && a in et[v] ensures a in et {
      assert v in V;
      ReversedEntry(V, E, et[v], v, a);
    }
  }

  lemma ReversedEntry(V: seq<int>, E: Adjacency, l: seq<int>, u: int, x: int)
    requires NoDup(V) && Complete(V, E) && multiset(l) == Incoming(V, E, u)
    ensures x in l <==> x in V && u in E[x]
  {
    IncomingCount(V, E, u, x);
    assert x in l <==> multiset(l)[x] > 0;
    if x in V {
      assert u in E[x] <==> multiset(E[x])[u] > 0;
    }
  }

  /** `Graph.transpose`: a copy when the graph is undirected, otherwise the
      graph of the reversed edges. */
  function Transpose(g: Graph): (r: Result<Graph>)
    requires Valid(g)
    ensures r.Ok? && Valid(r.value) && r.value.V == g.V
    ensures r.value.directed == g.directed && r.value.scc == None && r.value.bcc == None
    ensures !g.directed ==> Same(r.value, g)
    ensures g.directed || Undirected(g) ==> Transposed(g, r.value)
  {
    if !g.directed then Copy(g)
    else
      var et := ReverseAll(g.V, g.E);
      assert Closed(g.V, et) by {
        forall u, x | u in et && x in et[u] ensures x in g.V {
          IncomingCount(g.V, g.E, u, x);
        }
      }
      NewGraphValid(g.V, et, true, None, None);
      var r := NewGraph(g.V, et, true, None, None);
      SortedIntsFixed(g.V);
      assert Transposed(g, r.value) by {
        forall u, x | u in g.V && x in g.V
          ensures multiset(r.value.E[u])[x] == multiset(g.E[x])[u]
        {
          IncomingCount(g.V, g.E, u, x);
        }
      }
      r
  }

  /** Two valid graphs over the same vertices whose lists agree as multisets
      have the same adjacency lists. */
  lemma SameCounts(g: Graph, h: Graph)
    requires Valid(g) && Valid(h) && g.V == h.V
    requires forall u, x | u in g.V && x in g.V :: multiset(h.E[u])[x] == multiset(g.E[u])[x]
    ensures g.E == h.E
  {
    forall u | u in g.V
      ensures h.E[u] == g.E[u]
    {
      forall x
        ensures multiset(h.E[u])[x] == multiset(g.E[u])[x]
      {
        if x !in g.V {
          assert x !in h.E[u] && x !in g.E[u];
        }
      }
      assert multiset(h.E[u]) == multiset(g.E[u]);
      IntLeTotal();
      SortedUnique(h.E[u], g.E[u], IntLe);
    }
    ValidKeys(g);
    ValidKeys(h);
  }

  /** Transposing twice gives back the graph (the self-check of basicComponent.py). */
  lemma TransposeInvolution(g: Graph)
    requires Valid(g)
    ensures Same(Transpose(Transpose(g).value).value, g)
  {
    var t := Transpose(g).value;
    var tt := Transpose(t).value;
    if g.directed {
      assert Transposed(g, t) && Transposed(t, tt);
      SameCounts(g, tt);
    }
  }

  // ---------------------------------------------------------------------
  // Attachments

  /** `sum(len(e) for e in E.values())` over the vertices of `V`. */
  function EdgeCount(V: seq<int>, E: Adjacency): nat {
    if V == [] then 0
    else (if V[0] in E then |E[V[0]]| else 0) + EdgeCount(V[1..], E)
  }

  /** `Graph.setSCC`: attaches an SCC over exactly the graph's vertices. */
  function SetScc(g: Graph, s: Scc): (r: Result<Graph>)
    ensures r.Ok? <==> s.V == g.V
    ensures r.Err? ==> r.error == AttachmentMismatch
    ensures r.Ok? ==> Same(r.value, g) && r.value.directed == g.directed
    ensures r.Ok? ==> r.value.scc == Some(s) && r.value.bcc == g.bcc
  {
    if s.V != g.V then Err(AttachmentMismatch) else Ok(g.(scc := Some(s)))
  }

  /** `Graph.setBCC`: attaches a BCC holding as many edge pairs as the
      adjacency lists hold entries. */
  function SetBcc(g: Graph, b: Bcc): (r: Result<Graph>)
    ensures r.Ok? <==> |b.E| == EdgeCount(g.V, g.E)
    ensures r.Err? ==> r.error == AttachmentMismatch
    ensures r.Ok? ==> Same(r.value, g) && r.value.directed == g.directed
    ensures r.Ok? ==> r.value.bcc == Some(b) && r.value.scc == g.scc
  {
    if |b.E| != EdgeCount(g.V, g.E) then Err(AttachmentMismatch) else Ok(g.(bcc := Some(b)))
  }
}
