/** Proof that the search of `TarjanBCC` keeps its invariant on simple
    graphs, with search roots that have no parent. */
module TarjanBccProofs {
  import opened Base
  import opened Partition
  import opened Graphs
  import opened TarjanBcc

  lemma UnvisitedStrict(E: Adjacency, st: State, st': State, v: int)
    requires Shrinks(st, st') && v in E && StatusOf(st, v) == Unknown && StatusOf(st', v) != Unknown
    ensures Unvisited(E, st') < Unvisited(E, st)
  {
    assert v in Unvisited(E, st) && v !in Unvisited(E, st');
  }

  // ---------------------------------------------------------------------
  // Invariants

  /** The fields of `Init`, stated of a state that is not a literal. */
  predicate Blank(st: State) {
    st.time == 0 && st.status == map[] && st.dfs == map[] && st.tree == map[] && st.stack == [] && st.closed == []
  }

  /** The state before the first search keeps the invariant, with nothing on the call path. */
  lemma InitInv(E: Adjacency, st: State)
    requires Blank(st)
    ensures Inv(E, st) && Idle(st)
  {
  }

  lemma KeptTrans(st: State, st': State, st'': State)
    requires Kept(st, st') && Kept(st', st'')
    ensures Kept(st, st'')
  {
  }

  lemma PushedPair(st: State, e: Edge)
    ensures Pushed(PushPair(st, e)) == Pushed(st) + multiset{e}
  {
  }

  /** No pair is on the stack twice. */
  lemma OnceStack(E: Adjacency, st: State)
    requires PairsOk(E, st.tree, st.dfs, Pushed(st))
    ensures NoDup(st.stack)
  {
    NoDupMultiset(st.stack);
    forall x | x in multiset(st.stack) ensures multiset(st.stack)[x] == 1 {
      var a, b := x.0, x.1;
      assert (a, b) in Pushed(st);
    }
  }

  /** Reaching more vertices and adding parents keeps what is known of the pairs. */
  lemma PairsExtend(E: Adjacency, tree: map<int, int>, dfs: map<int, int>, tree': map<int, int>, dfs': map<int, int>, P: multiset<Edge>)
    requires PairsOk(E, tree, dfs, P)
    requires forall x | x in dfs :: x in dfs' && dfs'[x] == dfs[x]
    requires forall x | x in tree :: x in tree' && tree'[x] == tree[x]
    ensures PairsOk(E, tree', dfs', P)
  {
    forall x, y | (x, y) in P
      ensures && P[(x, y)] == 1 && (y, x) !in P
              && x in E && y in E[x] && x in dfs' && y in dfs'
              && ((y in tree' && tree'[y] == x) || dfs'[y] < dfs'[x])
    {
      assert x in dfs && y in dfs;
    }
  }

  /** Pushing a new pair, neither it nor its reverse pushed before. */
  lemma PairsAdd(E: Adjacency, tree: map<int, int>, dfs: map<int, int>, P: multiset<Edge>, v: int, a: int)
    requires PairsOk(E, tree, dfs, P) && (v, a) !in P && (a, v) !in P && v != a
    requires v in E && a in E[v] && v in dfs && a in dfs
    requires (a in tree && tree[a] == v) || dfs[a] < dfs[v]
    ensures PairsOk(E, tree, dfs, P + multiset{(v, a)})
  {
    var P' := P + multiset{(v, a)};
    forall x, y | (x, y) in P'
      ensures && P'[(x, y)] == 1 && (y, x) !in P'
              && x in E && y in E[x] && x in dfs && y in dfs
              && ((y in tree && tree[y] == x) || dfs[y] < dfs[x])
    {
      if (x, y) != (v, a) {
        assert (x, y) in P;
      }
    }
  }

  lemma TreePushedGrows(tree: map<int, int>, P: multiset<Edge>, P': multiset<Edge>)
    requires TreePushed(tree, P) && P <= P'
    ensures TreePushed(tree, P')
  {
  }

  /** Finished vertices stay finished and pushed pairs stay pushed. */
  lemma CoveredGrows(E: Adjacency, status: map<int, Status>, status': map<int, Status>, P: multiset<Edge>, P': multiset<Edge>)
    requires Covered(E, status, P) && P <= P'
    requires forall x | x in status' && status'[x] == Known :: x in status && status[x] == Known
    ensures Covered(E, status', P')
  {
  }

  // The start of `__DFS(v)`

  /** What the start of a visit changes. */
  lemma StartShape(st: State, v: int, parent: Option<int>)
    requires StatusOf(st, v) == Unknown && v !in st.dfs && v !in st.tree
    ensures var st1 := Push(Link(st, v, parent), v);
      && Kept(st, st1) && st1.stack == Link(st, v, parent).stack && st1.closed == st.closed
      && DfsOf(st1, v) == st.time && StatusOf(st1, v) == Progress && st1.time == st.time + 1
      && (forall x :: StatusOf(st1, x) == Progress <==> StatusOf(st, x) == Progress || x == v)
      && (forall x :: StatusOf(st1, x) == Known <==> StatusOf(st, x) == Known)
      && Pushed(st1) == Pushed(st) + (if parent.Some? then multiset{(parent.value, v)} else multiset{})
  {
    var st1 := Push(Link(st, v, parent), v);
    if parent.Some? {
      PushedPair(st, (parent.value, v));
    }
    assert Pushed(st) <= Pushed(st1);
  }

  lemma StartIndexed(E: Adjacency, st: State, v: int, parent: Option<int>)
    requires Indexed(E, st) && v in E && StatusOf(st, v) == Unknown
    ensures Indexed(E, Push(Link(st, v, parent), v))
  {
  }

  lemma StartPairs(E: Adjacency, st: State, v: int, parent: Option<int>)
    requires Simple(E) && Indexed(E, st) && v in E && StatusOf(st, v) == Unknown
    requires PairsOk(E, st.tree, st.dfs, Pushed(st)) && TreePushed(st.tree, Pushed(st))
    requires parent.Some? ==> parent.value in st.dfs && parent.value in E && v in E[parent.value]
    ensures var st1 := Push(Link(st, v, parent), v);
      PairsOk(E, st1.tree, st1.dfs, Pushed(st1)) && TreePushed(st1.tree, Pushed(st1))
  {
    var st1 := Push(Link(st, v, parent), v);
    var P := Pushed(st);
    PairsExtend(E, st.tree, st.dfs, st1.tree, st1.dfs, P);
    if parent.Some? {
      var p := parent.value;
      PushedPair(st, (p, v));
      assert Pushed(st1) == P + multiset{(p, v)};
      assert v !in st.dfs;
      assert (p, v) !in P && (v, p) !in P;
      PairsAdd(E, st1.tree, st1.dfs, P, p, v);
      TreePushedLink(st.tree, P, v, p);
    } else {
      assert Pushed(st1) == P;
    }
  }

  lemma TreePushedLink(tree: map<int, int>, P: multiset<Edge>, v: int, p: int)
    requires TreePushed(tree, P)
    ensures TreePushed(tree[v := p], P + multiset{(p, v)})
  {
    var tree' := tree[v := p];
    forall y | y in tree' ensures (tree'[y], y) in P + multiset{(p, v)} {
      if y != v {
        assert (tree[y], y) in P;
      }
    }
  }

  /** The start of a visit: the link from the parent and the index of `v`. */
  lemma StartInv(E: Adjacency, st: State, v: int, parent: Option<int>)
    requires Simple(E) && Inv(E, st) && v in E && StatusOf(st, v) == Unknown
    requires parent.Some? ==> parent.value in st.dfs && parent.value in E && v in E[parent.value]
    ensures Inv(E, Push(Link(st, v, parent), v))
  {
    var st1 := Push(Link(st, v, parent), v);
    StartIndexed(E, st, v, parent);
    StartShape(st, v, parent);
    StartPairs(E, st, v, parent);
    CoveredGrows(E, st.status, st1.status, Pushed(st), Pushed(st1));
  }

  // The steps of the loop and the end of `__DFS(v)`

  /** A back edge to a vertex on the call path is pushed. */
  lemma BackEdgeInv(E: Adjacency, st: State, v: int, a: int)
    requires Inv(E, st) && v in E && a in E[v] && v != a
    requires v in st.dfs && a in st.dfs && st.dfs[a] < st.dfs[v]
    requires (v, a) !in Pushed(st) && (a, v) !in Pushed(st)
    ensures Inv(E, PushPair(st, (v, a)))
  {
    var e := (v, a);
    var P := Pushed(st);
    PushedPair(st, e);
    PairsAdd(E, st.tree, st.dfs, P, v, a);
    TreePushedGrows(st.tree, P, P + multiset{e});
    CoveredGrows(E, st.status, st.status, P, P + multiset{e});
  }

  /** Popping a component moves pairs from the stack to `closed`. */
  lemma ClosePushed(st: State, e: Edge, p: seq<Edge>, q: seq<Edge>)
    requires st.stack == p + [e] + q && e !in q
    ensures Close(st, e).stack == p && Repacked(st, Close(st, e))
  {
    PopUntilSplit(e, p, q);
    var popped := PopUntil(e, st.stack);
    FlattenAppend(st.closed, [popped.1]);
    assert Flatten([popped.1]) == popped.1 + Flatten([popped.1][1..]);
    assert multiset(p) + multiset(popped.1) == multiset(st.stack);
  }

  /** The end of `__DFS(v)`: `v` is finished once all its edges are pushed. */
  lemma FinishInv(E: Adjacency, st: State, v: int)
    requires Inv(E, st) && v in st.dfs && v in E
    requires forall b | b in E[v] :: (v, b) in Pushed(st) || (b, v) in Pushed(st)
    ensures Inv(E, st.(status := st.status[v := Known]))
  {
    var st' := st.(status := st.status[v := Known]);
    assert Pushed(st') == Pushed(st);
  }

  lemma SaturatedKept(E: Adjacency, st: State, st': State, f: int)
    requires Saturated(E, st, f) && Kept(st, st') && f <= st.time
    ensures Saturated(E, st', f)
  {
    forall b, y | b in st'.dfs && st'.dfs[b] < f && b in E && y in E[b] ensures y in st'.dfs && st'.dfs[y] < f {
      assert b in st.dfs;
    }
  }

  /** No edge leads from a vertex indexed at least `f` to one indexed below `f`. */
  lemma LowBound(E: Adjacency, st: State, f: int, v: int, a: int)
    requires Simple(E) && Saturated(E, st, f) && v in E && a in E[v]
    requires v in st.dfs && st.dfs[v] >= f && a in st.dfs
    ensures st.dfs[a] >= f
  {
  }

  /** Between searches every reached vertex is finished, so all its
      neighbours are reached. */
  lemma TopSaturated(E: Adjacency, st: State)
    requires Inv(E, st) && Idle(st)
    ensures Saturated(E, st, st.time)
  {
    forall b, y | b in st.dfs && st.dfs[b] < st.time && b in E && y in E[b] ensures y in st.dfs && st.dfs[y] < st.time {
      assert StatusOf(st, b) == Known;
      assert (b, y) in Pushed(st) || (y, b) in Pushed(st);
    }
  }

  // ---------------------------------------------------------------------
  // The search keeps the invariant (root parents looked up as `Optional`)

  lemma StepTrans(v: int, st: State, st': State, st'': State, f: int)
    requires v in st.dfs && Step(v, st, st', f) && Step(v, st', st'', f)
    ensures Step(v, st, st'', f)
  {
    KeptTrans(st, st', st'');
    PrefixTrans(st.stack, st'.stack, st''.stack);
    forall x, y | (x, y) in Pushed(st'') && (x, y) !in Pushed(st) ensures x !in st.dfs || x == v {
      if (x, y) !in Pushed(st') {
        assert x !in st'.dfs || x == v;
      }
    }
  }

  lemma ScanDoneStep(E: Adjacency, v: int, st: State, st': State, f: int, r: (int, State))
    requires v in st.dfs && Step(v, st, st', f) && ScanDone(E, v, st', f, r)
    ensures ScanDone(E, v, st, f, r)
  {
    StepTrans(v, st, st', r.1, f);
  }

  /** `__DFS(v)` on a simple graph keeps the invariant, pushes the edge from
      the parent, and leaves a search root's stack as it found it. */
  lemma VisitInv(E: Adjacency, v: int, parent: Option<int>, st: State, f: int)
    requires VisitReady(E, v, parent, st, f)
    ensures VisitDone(E, v, parent, st, f, Visit(E, v, parent, st, Optional))
    decreases Unvisited(E, st), 0, 0
  {
    var st1 := Push(Link(st, v, parent), v);
    VisitStart(E, v, parent, st, f);
    ScanInv(E, v, [], E[v], st.time, st1, f);
    VisitFinish(E, v, parent, st, f, Scan(E, v, E[v], st.time, st1, Optional));
  }

  lemma VisitStart(E: Adjacency, v: int, parent: Option<int>, st: State, f: int)
    requires VisitReady(E, v, parent, st, f)
    ensures var st1 := Push(Link(st, v, parent), v);
      ScanReady(E, v, [], E[v], st.time, st1, f) && Unvisited(E, st1) < Unvisited(E, st)
  {
    var st1 := Push(Link(st, v, parent), v);
    StartShape(st, v, parent);
    StartInv(E, st, v, parent);
    UnvisitedStrict(E, st, st1, v);
    SaturatedKept(E, st, st1, f);
    SplitStart(E[v]);
    assert v !in st.dfs;
  }

  lemma VisitFinish(E: Adjacency, v: int, parent: Option<int>, st: State, f: int, sc: (int, State))
    requires Indexed(E, st) && v in E && StatusOf(st, v) == Unknown
    requires ScanDone(E, v, Push(Link(st, v, parent), v), f, sc)
    ensures VisitDone(E, v, parent, st, f, (sc.0, sc.1.(status := sc.1.status[v := Known])))
  {
    var st1 := Push(Link(st, v, parent), v);
    StartShape(st, v, parent);
    FinishInv(E, sc.1, v);
    FinishKept(v, st, st1, sc.1);
    FinishPairs(v, parent, st, st1, sc.1, f);
    FinishStack(v, parent, st, st1, sc.1, f);
  }

  /** Ending the visit of `v` keeps what its start and its loop kept. */
  lemma FinishKept(v: int, st: State, st1: State, s: State)
    requires Kept(st, st1) && Kept(st1, s) && SameProgress(st1, s) && StatusOf(st, v) == Unknown
    requires forall x :: StatusOf(st1, x) == Progress <==> StatusOf(st, x) == Progress || x == v
    ensures var r := s.(status := s.status[v := Known]);
      Kept(st, r) && SameProgress(st, r) && StatusOf(r, v) == Known
  {
    KeptTrans(st, st1, s);
    var r := s.(status := s.status[v := Known]);
    assert Pushed(r) == Pushed(s);
  }

  /** The pairs pushed during the visit of `v`. */
  lemma FinishPairs(v: int, parent: Option<int>, st: State, st1: State, s: State, f: int)
    requires v !in st.dfs && Kept(st, st1) && Step(v, st1, s, f)
    requires Pushed(st1) == Pushed(st) + (if parent.Some? then multiset{(parent.value, v)} else multiset{})
    ensures var r := s.(status := s.status[v := Known]);
      && (forall x, y | (x, y) in Pushed(r) && (x, y) !in Pushed(st) :: x !in st.dfs || (parent.Some? && (x, y) == (parent.value, v)))
      && (parent.Some? ==> (parent.value, v) in Pushed(r))
  {
    var r := s.(status := s.status[v := Known]);
    assert Pushed(r) == Pushed(s);
    forall x, y | (x, y) in Pushed(r) && (x, y) !in Pushed(st)
      ensures x !in st.dfs || (parent.Some? && (x, y) == (parent.value, v))
    {
      if (x, y) !in Pushed(st1) {
        assert x !in st1.dfs || x == v;
      }
    }
  }

  /** The stack at the end of the visit of `v`. */
  lemma FinishStack(v: int, parent: Option<int>, st: State, st1: State, s: State, f: int)
    requires Step(v, st1, s, f) && st1.stack == Link(st, v, parent).stack && DfsOf(st1, v) == st.time
    requires forall x :: StatusOf(st1, x) == Progress <==> StatusOf(st, x) == Progress || x == v
    ensures var r := s.(status := s.status[v := Known]);
      && Prefix(Link(st, v, parent).stack, r.stack)
      && (parent.None? && Idle(st) && f == st.time ==> r.stack == st.stack)
  {
  }

  /** The loop `for adjV in E[v]` of `__DFS(v)`. */
  lemma ScanInv(E: Adjacency, v: int, pre: seq<int>, adj: seq<int>, low: int, st: State, f: int)
    requires ScanReady(E, v, pre, adj, low, st, f)
    ensures ScanDone(E, v, st, f, Scan(E, v, adj, low, st, Optional))
    decreases Unvisited(E, st), |adj| + 1, 2
  {
    if adj == [] {
      ScanEnd(E, v, pre, low, st, f);
    } else {
      var a := adj[0];
      if SkipsParent(st, v, a, Optional) {
        ScanSkip(E, v, pre, adj, low, st, f);
        ScanInv(E, v, pre + [a], adj[1..], low, st, f);
      } else if StatusOf(st, a) == Known {
        ScanKnown(E, v, pre, adj, low, st, f);
        ScanInv(E, v, pre + [a], adj[1..], Min(DfsOf(st, a), low), st, f);
      } else if StatusOf(st, a) == Progress {
        ScanBackEdge(E, v, pre, adj, low, st, f);
      } else {
        ScanTreeEdge(E, v, pre, adj, low, st, f);
      }
    }
  }

  lemma ScanEnd(E: Adjacency, v: int, pre: seq<int>, low: int, st: State, f: int)
    requires ScanReady(E, v, pre, [], low, st, f)
    ensures ScanDone(E, v, st, f, (low, st))
  {
    SplitEnd(E[v], pre);
  }

  /** The entry `tree[v]`: the edge from the parent, pushed already. */
  lemma ScanSkip(E: Adjacency, v: int, pre: seq<int>, adj: seq<int>, low: int, st: State, f: int)
    requires ScanReady(E, v, pre, adj, low, st, f) && adj != [] && SkipsParent(st, v, adj[0], Optional)
    ensures ScanReady(E, v, pre + [adj[0]], adj[1..], low, st, f)
  {
    SplitNext(E[v], pre, adj);
    assert (st.tree[v], v) in Pushed(st);
  }

  /** A finished entry: its edges are pushed already. */
  lemma ScanKnown(E: Adjacency, v: int, pre: seq<int>, adj: seq<int>, low: int, st: State, f: int)
    requires ScanReady(E, v, pre, adj, low, st, f) && adj != [] && StatusOf(st, adj[0]) == Known
    ensures ScanReady(E, v, pre + [adj[0]], adj[1..], Min(DfsOf(st, adj[0]), low), st, f)
  {
    var a := adj[0];
    SplitNext(E[v], pre, adj);
    assert a in E[v] && a in E && v in E[a];
    assert (a, v) in Pushed(st) || (v, a) in Pushed(st);
    LowBound(E, st, f, v, a);
  }

  /** An entry on the call path other than the parent: the pair is pushed. */
  lemma ScanBackEdge(E: Adjacency, v: int, pre: seq<int>, adj: seq<int>, low: int, st: State, f: int)
    requires ScanReady(E, v, pre, adj, low, st, f) && adj != []
    requires !SkipsParent(st, v, adj[0], Optional) && StatusOf(st, adj[0]) == Progress
    ensures ScanDone(E, v, st, f, Scan(E, v, adj, low, st, Optional))
    decreases Unvisited(E, st), |adj| + 1, 1
  {
    var a := adj[0];
    var st' := PushPair(st, (v, a));
    BackEdgeStep(E, v, pre, adj, low, st, f);
    PushStep(v, a, st);
    UnvisitedShrinks(E, st, st');
    ScanInv(E, v, pre + [a], adj[1..], Min(DfsOf(st, a), low), st', f);
    ScanDoneStep(E, v, st, st', f, Scan(E, v, adj[1..], Min(DfsOf(st, a), low), st', Optional));
  }

  lemma BackEdgeStep(E: Adjacency, v: int, pre: seq<int>, adj: seq<int>, low: int, st: State, f: int)
    requires ScanReady(E, v, pre, adj, low, st, f) && adj != []
    requires !SkipsParent(st, v, adj[0], Optional) && StatusOf(st, adj[0]) == Progress
    ensures ScanReady(E, v, pre + [adj[0]], adj[1..], Min(DfsOf(st, adj[0]), low), PushPair(st, (v, adj[0])), f)
  {
    var a := adj[0];
    var st' := PushPair(st, (v, a));
    SplitNext(E[v], pre, adj);
    assert a in E[v] && a != v;
    NoDupSplit(pre, adj);
    LowBound(E, st, f, v, a);
    BackEdgeInv(E, st, v, a);
    PushStep(v, a, st);
    FrameNext(E, v, pre, adj, low, st, f, st', Min(DfsOf(st, a), low));
  }

  /** Pushing a back edge `(v, a)` is a step of the loop of `__DFS(v)`. */
  lemma PushStep(v: int, a: int, st: State)
    requires v in st.dfs && StatusOf(st, a) == Progress && a != v
    ensures var st' := PushPair(st, (v, a));
      && Step(v, st, st', DfsOf(st, v)) && Shrinks(st, st') && Pushed(st') == Pushed(st) + multiset{(v, a)}
      && forall f :: Step(v, st, st', f)
  {
    PushedPair(st, (v, a));
  }

  /** The loop frame moves past the entry `a = adj[0]` of `E[v]` with a step
      whose only new pair from an old vertex is `(v, a)`, after which an
      edge between `v` and `a` is pushed. */
  lemma FrameNext(E: Adjacency, v: int, pre: seq<int>, adj: seq<int>, low: int, st: State, f: int, st': State, low': int)
    requires Frame(E, v, pre, adj, low, st, f) && adj != [] && Indexed(E, st)
    requires Kept(st, st') && SameProgress(st, st') && f <= low'
    requires forall x, y | (x, y) in Pushed(st') && (x, y) !in Pushed(st) :: x !in st.dfs || (x, y) == (v, adj[0])
    requires (v, adj[0]) in Pushed(st') || (adj[0], v) in Pushed(st')
    ensures Frame(E, v, pre + [adj[0]], adj[1..], low', st', f)
  {
    SplitNext(E[v], pre, adj);
    StepPath(E, v, st, st');
    StepPairs(v, pre, adj[0], st, st');
    SaturatedKept(E, st, st', f);
  }

  /** The call path after a step that keeps it. */
  lemma StepPath(E: Adjacency, v: int, st: State, st': State)
    requires Indexed(E, st) && Kept(st, st') && SameProgress(st, st') && StatusOf(st, v) == Progress
    requires forall x | StatusOf(st, x) == Progress && x != v :: DfsOf(st, x) < DfsOf(st, v)
    ensures v in st.dfs && StatusOf(st', v) == Progress
    ensures forall x | StatusOf(st', x) == Progress && x != v :: DfsOf(st', x) < DfsOf(st', v)
  {
  }

  /** The pairs from `v` after the entry `a` of `E[v]` has been handled by
      a step whose only new pair from an old vertex is `(v, a)`. */
  lemma StepPairs(v: int, pre: seq<int>, a: int, st: State, st': State)
    requires v in st.dfs && Pushed(st) <= Pushed(st')
    requires forall y | (v, y) in Pushed(st) :: y in pre
    requires forall b | b in pre :: (v, b) in Pushed(st) || (b, v) in Pushed(st)
    requires forall x, y | (x, y) in Pushed(st') && (x, y) !in Pushed(st) :: x !in st.dfs || (x, y) == (v, a)
    requires (v, a) in Pushed(st') || (a, v) in Pushed(st')
    ensures forall y | (v, y) in Pushed(st') :: y in pre + [a]
    ensures forall b | b in pre + [a] :: (v, b) in Pushed(st') || (b, v) in Pushed(st')
  {
    forall y | (v, y) in Pushed(st') ensures y in pre + [a] {
      if (v, y) in Pushed(st) {
        assert y in pre;
      }
    }
  }

  /** An entry not reached yet: the search goes down into it, and a
      component is popped when its low-link does not reach above `v`. */
  lemma ScanTreeEdge(E: Adjacency, v: int, pre: seq<int>, adj: seq<int>, low: int, st: State, f: int)
    requires ScanReady(E, v, pre, adj, low, st, f) && adj != []
    requires !SkipsParent(st, v, adj[0], Optional) && StatusOf(st, adj[0]) == Unknown
    ensures ScanDone(E, v, st, f, Scan(E, v, adj, low, st, Optional))
    decreases Unvisited(E, st), |adj| + 1, 0
  {
    var a := adj[0];
    TreeEdgeReady(E, v, pre, adj, low, st, f);
    VisitInv(E, a, Some(v), st, f);
    var c := Visit(E, a, Some(v), st, Optional);
    ScanTreeUnfold(E, v, adj, low, st);
    ScanAfterChild(E, v, pre, adj, low, st, f, c);
  }

  lemma ScanTreeUnfold(E: Adjacency, v: int, adj: seq<int>, low: int, st: State)
    requires Wf(E) && (forall a | a in adj :: a in E) && adj != []
    requires !SkipsParent(st, v, adj[0], Optional) && StatusOf(st, adj[0]) == Unknown
    ensures var c := Visit(E, adj[0], Some(v), st, Optional);
      Scan(E, v, adj, low, st, Optional) == Scan(E, v, adj[1..], Min(low, c.0), AfterChild(c.1, v, adj[0], c.0), Optional)
  {
  }

  /** The rest of the loop after the search into the child `adj[0]` returned `c`. */
  lemma ScanAfterChild(E: Adjacency, v: int, pre: seq<int>, adj: seq<int>, low: int, st: State, f: int, c: (int, State))
    requires ScanReady(E, v, pre, adj, low, st, f) && adj != [] && StatusOf(st, adj[0]) == Unknown
    requires VisitDone(E, adj[0], Some(v), st, f, c) && Shrinks(st, c.1)
    ensures var st' := AfterChild(c.1, v, adj[0], c.0);
      ScanDone(E, v, st, f, Scan(E, v, adj[1..], Min(low, c.0), st', Optional))
    decreases Unvisited(E, st), |adj|, 3
  {
    var a := adj[0];
    var st' := AfterChild(c.1, v, a, c.0);
    AfterChildStack(E, v, a, st, c);
    TreeEdgeNext(E, v, pre, adj, low, st, f, c, st');
    TreeEdgeStep(E, v, a, st, f, c, st');
    UnvisitedShrinks(E, st, st');
    ScanInv(E, v, pre + [a], adj[1..], Min(low, c.0), st', f);
    ScanDoneStep(E, v, st, st', f, Scan(E, v, adj[1..], Min(low, c.0), st', Optional));
  }

  lemma TreeEdgeReady(E: Adjacency, v: int, pre: seq<int>, adj: seq<int>, low: int, st: State, f: int)
    requires ScanReady(E, v, pre, adj, low, st, f) && adj != [] && StatusOf(st, adj[0]) == Unknown
    ensures VisitReady(E, adj[0], Some(v), st, f)
  {
    assert adj[0] in E[v];
  }

  /** Popping after the child `a` returned moves pairs from the stack to
      `closed` and changes nothing else; a component is popped down to the
      tree edge `(v, a)`, which leaves the stack as it was before the child. */
  lemma AfterChildStack(E: Adjacency, v: int, a: int, st: State, c: (int, State))
    requires PairsOk(E, c.1.tree, c.1.dfs, Pushed(c.1)) && Prefix(st.stack + [(v, a)], c.1.stack)
    ensures var st' := AfterChild(c.1, v, a, c.0);
      && Repacked(c.1, st') && Prefix(st.stack, st'.stack)
      && (c.0 >= DfsOf(c.1, v) ==> st'.stack == st.stack)
  {
    var e := (v, a);
    var q := c.1.stack[|st.stack| + 1..];
    assert c.1.stack == st.stack + [e] + q;
    if c.0 >= DfsOf(c.1, v) {
      assert AfterChild(c.1, v, a, c.0) == Close(c.1, e);
      OnceStack(E, c.1);
      NoDupSplit(st.stack + [e], q);
      ClosePushed(c.1, e, st.stack, q);
    } else {
      assert AfterChild(c.1, v, a, c.0) == c.1;
      PrefixTrans(st.stack, st.stack + [e], c.1.stack);
    }
  }

  /** A repacked state keeps the invariant. */
  lemma RepackInv(E: Adjacency, s: State, s': State)
    requires Inv(E, s) && Repacked(s, s')
    ensures Inv(E, s') && Kept(s, s')
  {
  }

  /** The loop state after the child `adj[0]` has been searched and the
      stack popped, giving `st'`. */
  lemma TreeEdgeNext(E: Adjacency, v: int, pre: seq<int>, adj: seq<int>, low: int, st: State, f: int, c: (int, State), st': State)
    requires ScanReady(E, v, pre, adj, low, st, f) && adj != [] && StatusOf(st, adj[0]) == Unknown
    requires VisitDone(E, adj[0], Some(v), st, f, c) && Repacked(c.1, st')
    ensures ScanReady(E, v, pre + [adj[0]], adj[1..], Min(low, c.0), st', f)
  {
    RepackInv(E, c.1, st');
    KeptTrans(st, c.1, st');
    FrameNext(E, v, pre, adj, low, st, f, st', Min(low, c.0));
  }

  /** Searching the child `a` of `v` and popping after it, giving `st'`, is
      a step of the loop of `__DFS(v)`. */
  lemma TreeEdgeStep(E: Adjacency, v: int, a: int, st: State, f: int, c: (int, State), st': State)
    requires VisitDone(E, a, Some(v), st, f, c) && Shrinks(st, c.1)
    requires v in st.dfs && StatusOf(st, v) == Progress
    requires Repacked(c.1, st') && Prefix(st.stack, st'.stack) && (c.0 >= DfsOf(c.1, v) ==> st'.stack == st.stack)
    ensures Step(v, st, st', f) && Shrinks(st, st')
  {
    assert Kept(c.1, st');
    KeptTrans(st, c.1, st');
  }

  /** The loop of `solve` keeps the invariant, with an empty stack and an
      empty call path between searches. */
  lemma {:induction false} SolveInv(E: Adjacency, vs: seq<int>, st: State)
    requires Simple(E) && (forall v | v in vs :: v in E)
    requires Inv(E, st) && st.stack == [] && Idle(st)
    ensures var r := SolveFrom(E, vs, st, Optional);
      Inv(E, r) && r.stack == [] && Idle(r)
    decreases |vs|
  {
    if vs != [] {
      if StatusOf(st, vs[0]) == Unknown {
        TopSaturated(E, st);
        VisitInv(E, vs[0], None, st, st.time);
      }
      var st' := if StatusOf(st, vs[0]) == Unknown then Visit(E, vs[0], None, st, Optional).1 else st;
      SolveInv(E, vs[1..], st');
    }
  }
}
