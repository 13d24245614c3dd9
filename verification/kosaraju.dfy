/** `KorsajuSCC` (solver.py): Kosaraju's two-pass strongly connected
    components. The first pass pushes every vertex on a finish stack when
    its search ends; the second pass pops the stack and lets every vertex
    not yet claimed start a search over the reversed edges, which claims the
    vertices it reaches into a new component. Each `status` dictionary
    (a `defaultdict(bool)`) is the set of vertices marked so far. */
module Kosaraju {
  import opened Base
  import opened Sorting
  import opened Partition
  import opened Graphs

  // ---------------------------------------------------------------------
  // First pass: the finish stack

  /** The state of the first pass: the marked vertices and the finish stack. */
  datatype Finish = Finish(visited: set<int>, stack: seq<int>)

  /** The finish stack holds vertices of the graph only. */
  predicate Stacked(E: Adjacency, st: Finish) {
    forall x | x in st.stack :: x in E
  }

  /** `__DFS(v)`: marks `v`, searches from its unmarked successors, then pushes `v`. */
  function Dfs(E: Adjacency, v: int, st: Finish): (r: Finish)
    requires Wf(E) && v in E && v !in st.visited && Stacked(E, st)
    ensures st.visited + {v} <= r.visited && Stacked(E, r)
    decreases E.Keys - st.visited, 0
  {
    var st1 := st.(visited := st.visited + {v});
    assert E.Keys - st1.visited < E.Keys - st.visited by {
      assert v in E.Keys - st.visited;
    }
    var st2 := DfsScan(E, E[v], st1);
    st2.(stack := st2.stack + [v])
  }

  /** The loop `for adjV in E[v]` of `__DFS(v)`, from the entries `adj` on. */
  function DfsScan(E: Adjacency, adj: seq<int>, st: Finish): (r: Finish)
    requires Wf(E) && (forall a | a in adj :: a in E) && Stacked(E, st)
    ensures st.visited <= r.visited && Stacked(E, r)
    decreases E.Keys - st.visited, |adj| + 1
  {
    if adj == [] then st
    else if adj[0] in st.visited then DfsScan(E, adj[1..], st)
    else
      var st' := Dfs(E, adj[0], st);
      DfsScan(E, adj[1..], st')
  }

  /** The first loop of `solve`: a search from every vertex of `vs` not yet marked. */
  function FirstPass(E: Adjacency, vs: seq<int>, st: Finish): (r: Finish)
    requires Wf(E) && (forall v | v in vs :: v in E) && Stacked(E, st)
    ensures st.visited <= r.visited && Stacked(E, r)
    ensures forall v | v in vs :: v in r.visited
    decreases |vs|
  {
    if vs == [] then st
    else
      var st' := if vs[0] in st.visited then st else Dfs(E, vs[0], st);
      FirstPass(E, vs[1..], st')
  }

  // ---------------------------------------------------------------------
  // Second pass: claiming components over the reversed edges

  /** The state of a search of the second pass: the marked vertices and the
      component being built. */
  datatype Claim = Claim(visited: set<int>, comp: seq<int>)

  /** `__DFST(v)`: marks `v`, adds it to the component, and searches from its
      unmarked successors in the reversed graph. */
  function DfsT(ET: Adjacency, v: int, st: Claim): (r: Claim)
    requires Wf(ET) && v in ET && v !in st.visited
    ensures st.visited + {v} <= r.visited
    decreases ET.Keys - st.visited, 0
  {
    var st1 := Claim(st.visited + {v}, st.comp + [v]);
    assert ET.Keys - st1.visited < ET.Keys - st.visited by {
      assert v in ET.Keys - st.visited;
    }
    DfsTScan(ET, ET[v], st1)
  }

  /** The loop `for adjV in ET[v]` of `__DFST(v)`, from the entries `adj` on. */
  function DfsTScan(ET: Adjacency, adj: seq<int>, st: Claim): (r: Claim)
    requires Wf(ET) && forall a | a in adj :: a in ET
    ensures st.visited <= r.visited
    decreases ET.Keys - st.visited, |adj| + 1
  {
    if adj == [] then st
    else if adj[0] in st.visited then DfsTScan(ET, adj[1..], st)
    else
      var st' := DfsT(ET, adj[0], st);
      DfsTScan(ET, adj[1..], st')
  }

  /** The loop `while self.stack` of `solve`: pops the finish stack from its
      top; a popped vertex not yet marked starts a new component. */
  function SecondPass(ET: Adjacency, stack: seq<int>, visited: set<int>, scc: seq<seq<int>>): (r: seq<seq<int>>)
    requires Wf(ET) && forall v | v in stack :: v in ET
    ensures |scc| <= |r| && r[..|scc|] == scc
    decreases |stack|
  {
    if stack == [] then scc
    else
      var v := stack[|stack| - 1];
      if v in visited then SecondPass(ET, stack[..|stack| - 1], visited, scc)
      else
        var c := DfsT(ET, v, Claim(visited, []));
        SecondPass(ET, stack[..|stack| - 1], c.visited, scc + [c.comp])
  }

  /** The first pass over all vertices from an empty state. */
  function FinishOrder(g: Graph): (r: Finish)
    requires Valid(g)
    ensures Stacked(g.E, r)
  {
    assert Wf(g.E);
    FirstPass(g.E, g.V, Finish({}, []))
  }

  /** The raw component list of `solve`. */
  function Components(g: Graph): seq<seq<int>>
    requires Valid(g)
  {
    var et := ReverseAll(g.V, g.E);
    ReverseAllShape(g.V, g.E);
    ValidKeys(g);
    SecondPass(et, FinishOrder(g).stack, {}, [])
  }

  /** `KorsajuSCC().solve(G)`. */
  function Kosaraju(g: Graph): Result<Scc>
    requires Valid(g)
  {
    NewScc(Components(g))
  }

  // ---------------------------------------------------------------------
  // Invariants

  /** `t` extends `s` by exactly the vertices marked in `vis'` but not in
      `vis`, each of them once. */
  ghost predicate Extends(s: seq<int>, t: seq<int>, vis: set<int>, vis': set<int>) {
    && Prefix(s, t) && NoDup(t[|s|..])
    && forall x :: x in t[|s|..] <==> x in vis' && x !in vis
  }

  lemma ExtendsTrans(s: seq<int>, t: seq<int>, u: seq<int>, a: set<int>, b: set<int>, c: set<int>)
    requires Extends(s, t, a, b) && Extends(t, u, b, c) && a <= b <= c
    ensures Extends(s, u, a, c)
  {
    PrefixTrans(s, t, u);
    var d1, d2 := t[|s|..], u[|t|..];
    assert u[|s|..] == d1 + d2 by {
      assert t == s + d1 && u == t + d2;
    }
    forall x | x in d1 ensures x !in d2 {
      assert x in b;
    }
    NoDupConcat(d1, d2);
  }

  /** Between steps of the first pass: the marked vertices are vertices of
      the graph, and the stack holds marked vertices, each once. */
  ghost predicate Inv1(E: Adjacency, st: Finish) {
    st.visited <= E.Keys && NoDup(st.stack) && forall x | x in st.stack :: x in st.visited
  }

  /** The search from `v` pushes exactly the vertices it marks, each once,
      `v` last; every successor of `v` was marked before the search, or is
      `v` itself, or was pushed before `v`: its own search had finished. */
  lemma DfsSpec(E: Adjacency, v: int, st: Finish)
    requires Wf(E) && v in E && v !in st.visited && Stacked(E, st) && Inv1(E, st)
    ensures var r := Dfs(E, v, st);
      && Inv1(E, r) && Extends(st.stack, r.stack, st.visited, r.visited)
      && r.stack[|r.stack| - 1] == v
      && forall a | a in E[v] :: a == v || a in st.visited || a in r.stack[|st.stack|..|r.stack| - 1]
    decreases E.Keys - st.visited, 0, 0
  {
    var st1 := st.(visited := st.visited + {v});
    assert E.Keys - st1.visited < E.Keys - st.visited by {
      assert v in E.Keys - st.visited;
    }
    var st2 := DfsScan(E, E[v], st1);
    DfsScanSpec(E, E[v], st1);
    var r := Dfs(E, v, st);
    assert r.stack == st2.stack + [v];
    var d := st2.stack[|st.stack|..];
    assert v !in d;
    assert r.stack[|st.stack|..] == d + [v];
    NoDupSnoc(d, v);
    NoDupSnoc(st2.stack, v);
    assert r.stack[|st.stack|..|r.stack| - 1] == d;
  }

  /** The loop over the successors pushes exactly the vertices it marks and
      marks every entry of `adj`. */
  lemma DfsScanSpec(E: Adjacency, adj: seq<int>, st: Finish)
    requires Wf(E) && (forall a | a in adj :: a in E) && Stacked(E, st) && Inv1(E, st)
    ensures var r := DfsScan(E, adj, st);
      && Inv1(E, r) && Extends(st.stack, r.stack, st.visited, r.visited)
      && forall a | a in adj :: a in r.visited
    decreases E.Keys - st.visited, |adj| + 1, 0
  {
    if adj == [] {
      assert st.stack[|st.stack|..] == [];
    } else if adj[0] in st.visited {
      DfsScanSpec(E, adj[1..], st);
    } else {
      var st' := Dfs(E, adj[0], st);
      DfsSpec(E, adj[0], st);
      DfsScanSpec(E, adj[1..], st');
      ExtendsTrans(st.stack, st'.stack, DfsScan(E, adj[1..], st').stack, st.visited, st'.visited, DfsScan(E, adj[1..], st').visited);
    }
  }

  /** Between the searches of the first pass, the stack holds exactly the
      marked vertices. */
  lemma {:induction false} FirstPassSpec(E: Adjacency, vs: seq<int>, st: Finish)
    requires Wf(E) && (forall v | v in vs :: v in E) && Stacked(E, st) && Inv1(E, st)
    requires forall x :: x in st.stack <==> x in st.visited
    ensures Inv1(E, FirstPass(E, vs, st))
    ensures forall x :: x in FirstPass(E, vs, st).stack <==> x in FirstPass(E, vs, st).visited
    decreases |vs|
  {
    if vs != [] {
      var st' := if vs[0] in st.visited then st else Dfs(E, vs[0], st);
      if vs[0] !in st.visited {
        DfsSpec(E, vs[0], st);
        assert st'.stack == st.stack + st'.stack[|st.stack|..];
      }
      FirstPassSpec(E, vs[1..], st');
    }
  }

  /** After the first pass the finish stack holds every vertex exactly once. */
  lemma FinishOrderPermutation(g: Graph)
    requires Valid(g)
    ensures NoDup(FinishOrder(g).stack) && multiset(FinishOrder(g).stack) == multiset(g.V)
  {
    assert Wf(g.E);
    ValidKeys(g);
    FirstPassSpec(g.E, g.V, Finish({}, []));
    var fin := FinishOrder(g);
    forall x
      ensures x in fin.stack <==> x in g.V
    {
    }
    NoDupSameMembers(fin.stack, g.V);
  }

  /** The search from `v` claims exactly the vertices it marks, each once,
      `v` first. */
  lemma DfsTSpec(ET: Adjacency, v: int, st: Claim)
    requires Wf(ET) && v in ET && v !in st.visited && st.visited <= ET.Keys
    ensures var r := DfsT(ET, v, st);
      && r.visited <= ET.Keys && Extends(st.comp, r.comp, st.visited, r.visited)
      && |r.comp| > |st.comp| && r.comp[|st.comp|] == v
    decreases ET.Keys - st.visited, 0, 0
  {
    var st1 := Claim(st.visited + {v}, st.comp + [v]);
    assert ET.Keys - st1.visited < ET.Keys - st.visited by {
      assert v in ET.Keys - st.visited;
    }
    assert st1.comp[|st.comp|..] == [v];
    DfsTScanSpec(ET, ET[v], st1);
    var r := DfsTScan(ET, ET[v], st1);
    ExtendsTrans(st.comp, st1.comp, r.comp, st.visited, st1.visited, r.visited);
    assert r.comp[|st.comp|] == r.comp[..|st1.comp|][|st.comp|];
  }

  /** The loop over the reversed successors claims exactly the vertices it marks. */
  lemma DfsTScanSpec(ET: Adjacency, adj: seq<int>, st: Claim)
    requires Wf(ET) && (forall a | a in adj :: a in ET) && st.visited <= ET.Keys
    ensures var r := DfsTScan(ET, adj, st);
      && r.visited <= ET.Keys && Extends(st.comp, r.comp, st.visited, r.visited)
    decreases ET.Keys - st.visited, |adj| + 1, 0
  {
    if adj == [] {
      assert st.comp[|st.comp|..] == [];
    } else if adj[0] in st.visited {
      DfsTScanSpec(ET, adj[1..], st);
    } else {
      var st' := DfsT(ET, adj[0], st);
      DfsTSpec(ET, adj[0], st);
      DfsTScanSpec(ET, adj[1..], st');
      ExtendsTrans(st.comp, st'.comp, DfsTScan(ET, adj[1..], st').comp, st.visited, st'.visited, DfsTScan(ET, adj[1..], st').visited);
    }
  }

  /** The second pass claims every vertex already marked or still on the
      stack into exactly one component, and every component is nonempty. */
  lemma {:induction false} SecondPassSpec(ET: Adjacency, stack: seq<int>, visited: set<int>, scc: seq<seq<int>>)
    requires Wf(ET) && (forall v | v in stack :: v in ET) && visited <= ET.Keys
    requires NoDup(Flatten(scc)) && (forall x :: x in Flatten(scc) <==> x in visited)
    requires forall i | 0 <= i < |scc| :: scc[i] != []
    ensures var r := SecondPass(ET, stack, visited, scc);
      && NoDup(Flatten(r))
      && (forall x | x in visited || x in stack :: x in Flatten(r))
      && (forall x | x in Flatten(r) :: x in ET)
      && forall i | 0 <= i < |r| :: r[i] != []
    decreases |stack|
  {
    if stack == [] {
      forall x | x in Flatten(scc) ensures x in ET {
      }
    } else {
      var v, rest := stack[|stack| - 1], stack[..|stack| - 1];
      assert stack == rest + [v];
      if v in visited {
        SecondPassSpec(ET, rest, visited, scc);
      } else {
        var c := DfsT(ET, v, Claim(visited, []));
        DfsTSpec(ET, v, Claim(visited, []));
        assert c.comp[0..] == c.comp;
        assert Flatten(scc + [c.comp]) == Flatten(scc) + c.comp by {
          FlattenAppend(scc, [c.comp]);
          assert Flatten([c.comp]) == c.comp;
        }
        forall x | x in Flatten(scc) ensures x !in c.comp {
          assert x in visited;
        }
        NoDupConcat(Flatten(scc), c.comp);
        SecondPassSpec(ET, rest, c.visited, scc + [c.comp]);
      }
    }
  }

  /** The raw component list of `solve` partitions the vertices into
      nonempty components. */
  lemma KosarajuPartition(g: Graph)
    requires Valid(g)
    ensures var scc := Components(g);
      && NoDup(Flatten(scc)) && multiset(Flatten(scc)) == multiset(g.V)
      && forall i | 0 <= i < |scc| :: scc[i] != []
  {
    var et := ReverseAll(g.V, g.E);
    ReverseAllShape(g.V, g.E);
    ValidKeys(g);
    FinishOrderPermutation(g);
    var fin := FinishOrder(g);
    SameMembers(fin.stack, g.V);
    SecondPassSpec(et, fin.stack, {}, []);
    var scc := Components(g);
    forall x
      ensures x in Flatten(scc) <==> x in g.V
    {
    }
    NoDupSameMembers(Flatten(scc), g.V);
  }

  /** `KorsajuSCC().solve(G)` succeeds, and the graph accepts the result
      through `setSCC`. */
  lemma KosarajuAttaches(g: Graph)
    requires Valid(g)
    ensures Kosaraju(g).Ok? && Kosaraju(g).value.V == g.V && SetScc(g, Kosaraju(g).value).Ok?
  {
    KosarajuPartition(g);
    IntLeTotal();
    SortPermutation(Flatten(Components(g)), g.V, IntLe);
    SortedIntsFixed(g.V);
  }
}
