/** `TarjanSCC` (solver.py): Tarjan's single-pass strongly connected
    components. The object's mutable fields (`time`, `status`, `dfs`,
    `stack`, `scc`) are threaded through the recursion as a `State`;
    the `defaultdict` defaults are `StatusOf` and `DfsOf`. */
module TarjanScc {
  import opened Base
  import opened Sorting
  import opened Partition
  import opened Graphs

  datatype State = State(time: int, status: map<int, Status>, dfs: map<int, int>, stack: seq<int>, scc: seq<seq<int>>)

  /** The solver's state before the first search. */
  const Init := State(0, map[], map[], [], [])

  /** `status[x]` with the default `'unknown'`. */
  function StatusOf(st: State, x: int): Status {
    if x in st.status then st.status[x] else Unknown
  }

  /** `dfs[x]` with the default `-1`. */
  function DfsOf(st: State, x: int): int {
    if x in st.dfs then st.dfs[x] else -1
  }

  /** The vertices of the graph not reached yet: the termination measure. */
  ghost function Unvisited(E: Adjacency, st: State): set<int> {
    set x | x in E && StatusOf(st, x) == Unknown
  }

  /** No vertex goes back to `'unknown'`. */
  ghost predicate Shrinks(st: State, st': State) {
    forall x :: StatusOf(st', x) == Unknown ==> StatusOf(st, x) == Unknown
  }

  lemma ShrinksTrans(st: State, st': State, st'': State)
    requires Shrinks(st, st') && Shrinks(st', st'')
    ensures Shrinks(st, st'')
  {
  }

  lemma UnvisitedShrinks(E: Adjacency, st: State, st': State)
    requires Shrinks(st, st')
    ensures Unvisited(E, st') <= Unvisited(E, st)
  {
  }

  /** `status[popV] = 'known'` for every popped vertex. */
  function MarkKnown(status: map<int, Status>, xs: seq<int>): (r: map<int, Status>)
    ensures forall x | x in xs :: x in r && r[x] == Known
    ensures forall x | x !in xs :: (x in r <==> x in status) && (x in r ==> r[x] == status[x])
  {
    map x | x in status.Keys + (set y | y in xs) :: if x in xs then Known else status[x]
  }

  /** `__DFS(v)`: gives `v` the next discovery index, scans its successors,
      and emits a component when `v` is the root of one. Returns the
      low-link of `v` and the new state. */
  function Visit(E: Adjacency, v: int, st: State): (r: (int, State))
    requires Wf(E) && v in E && StatusOf(st, v) == Unknown
    ensures Shrinks(st, r.1) && StatusOf(r.1, v) != Unknown
    decreases Unvisited(E, st), 0
  {
    var st1 := Push(st, v);
    assert Unvisited(E, st1) < Unvisited(E, st) by {
      assert v in Unvisited(E, st) && v !in Unvisited(E, st1);
    }
    var (low, st2) := Scan(E, v, E[v], st.time, st1);
    ShrinksTrans(st, st1, st2);
    if low == DfsOf(st2, v) then
      var st3 := Emit(st2, v);
      ShrinksTrans(st, st2, st3);
      (low, st3)
    else
      (low, st2)
  }

  /** The start of `__DFS(v)`: `v` is in progress, gets the discovery index
      `time`, and goes on the stack. */
  function Push(st: State, v: int): (r: State)
    ensures Shrinks(st, r) && StatusOf(r, v) == Progress
  {
    st.(time := st.time + 1, status := st.status[v := Progress],
        dfs := st.dfs[v := st.time], stack := st.stack + [v])
  }

  /** The end of `__DFS(v)` when `low == dfs[v]`: the stack down to and
      including `v` becomes a new component, all of it `'known'`. */
  function Emit(st: State, v: int): (r: State)
    ensures Shrinks(st, r)
  {
    var popped := PopUntil(v, st.stack);
    var r := st.(stack := popped.0, status := MarkKnown(st.status, popped.1), scc := st.scc + [popped.1]);
    assert Shrinks(st, r) by {
      forall x ensures StatusOf(r, x) == Unknown ==> StatusOf(st, x) == Unknown {
      }
    }
    r
  }

  /** The loop `for adjV in E[v]` of `__DFS(v)`, from the entries `adj` on,
      with the low-link `low` found so far. */
  function Scan(E: Adjacency, v: int, adj: seq<int>, low: int, st: State): (r: (int, State))
    requires Wf(E) && forall a | a in adj :: a in E
    ensures Shrinks(st, r.1)
    decreases Unvisited(E, st), |adj| + 1
  {
    if adj == [] then (low, st)
    else
      var a := adj[0];
      match StatusOf(st, a)
      case Unknown =>
        var (l, st') := Visit(E, a, st);
        UnvisitedShrinks(E, st, st');
        Scan(E, v, adj[1..], Min(l, low), st')
      case Progress => Scan(E, v, adj[1..], Min(DfsOf(st, a), low), st)
      case Known => Scan(E, v, adj[1..], low, st)
  }

  /** The loop of `solve`: a search from every vertex of `vs` still unknown. */
  function SolveFrom(E: Adjacency, vs: seq<int>, st: State): (r: State)
    requires Wf(E) && forall v | v in vs :: v in E
    ensures Shrinks(st, r) && forall v | v in vs :: StatusOf(r, v) != Unknown
    decreases |vs|
  {
    if vs == [] then st
    else
      var st' := if StatusOf(st, vs[0]) == Unknown then Visit(E, vs[0], st).1 else st;
      SolveFrom(E, vs[1..], st')
  }

  /** `TarjanSCC().solve(G)`. */
  function Tarjan(g: Graph): Result<Scc>
    requires Valid(g)
  {
    assert Wf(g.E);
    NewScc(SolveFrom(g.E, g.V, Init).scc)
  }

  // ---------------------------------------------------------------------
  // Invariants

  /** The vertices reached so far: the emitted components, then the stack. */
  function Seen(st: State): seq<int> {
    Flatten(st.scc) + st.stack
  }

  /** The low-link floor of a search started in `st`: the discovery index
      of the bottom of the stack, or the next index when the stack is empty. */
  function Floor(st: State): int {
    if st.stack == [] then st.time else DfsOf(st, st.stack[0])
  }

  /** Discovery indices, once given, never change. */
  ghost predicate DfsKept(st: State, st': State) {
    forall x | x in st.dfs :: x in st'.dfs && st'.dfs[x] == st.dfs[x]
  }

  /** Every reached vertex is in exactly one place: one emitted component or the stack. */
  ghost predicate Placed(st: State) {
    && NoDup(Seen(st))
    && forall x :: StatusOf(st, x) != Unknown <==> x in Seen(st)
  }

  /** `'progress'` means "on the stack". */
  ghost predicate OnStack(st: State) {
    forall x :: StatusOf(st, x) == Progress <==> x in st.stack
  }

  /** The reached vertices are the graph's vertices with a discovery index, all below `time`. */
  ghost predicate Indexed(E: Adjacency, st: State) {
    && 0 <= st.time
    && (forall x :: x in st.dfs <==> StatusOf(st, x) != Unknown)
    && (forall x | x in st.dfs :: x in E && 0 <= st.dfs[x] < st.time)
  }

  /** Distinct vertices have distinct discovery indices. */
  ghost predicate Distinct(st: State) {
    forall x, y | x in st.dfs && y in st.dfs && x != y :: st.dfs[x] != st.dfs[y]
  }

  /** Discovery indices increase from the bottom of the stack to its top. */
  ghost predicate Ascending(st: State) {
    forall i, j | 0 <= i < j < |st.stack| :: DfsOf(st, st.stack[i]) < DfsOf(st, st.stack[j])
  }

  /** The invariant of the solver's state between steps. */
  ghost predicate Inv(E: Adjacency, st: State) {
    Placed(st) && OnStack(st) && Indexed(E, st) && Distinct(st) && Ascending(st)
  }

  lemma InitInv(E: Adjacency)
    ensures Inv(E, Init)
  {
  }

  lemma PushInv(E: Adjacency, st: State, v: int)
    requires Inv(E, st) && v in E && StatusOf(st, v) == Unknown
    ensures Inv(E, Push(st, v)) && DfsKept(st, Push(st, v))
    ensures Floor(Push(st, v)) == Floor(st) <= st.time
    ensures Push(st, v).stack == st.stack + [v] && DfsOf(Push(st, v), v) == st.time
  {
    var st1 := Push(st, v);
    PushPlaced(st, v);
    PushIndexed(E, st, v);
    PushAscending(E, st, v);
    if st.stack != [] {
      assert st.stack[0] in Seen(st);
    }
  }

  lemma PushPlaced(st: State, v: int)
    requires Placed(st) && StatusOf(st, v) == Unknown
    ensures Placed(Push(st, v))
  {
    var st1 := Push(st, v);
    assert Seen(st1) == Seen(st) + [v];
    NoDupSnoc(Seen(st), v);
  }

  lemma PushIndexed(E: Adjacency, st: State, v: int)
    requires Indexed(E, st) && Distinct(st) && v in E && StatusOf(st, v) == Unknown
    ensures Indexed(E, Push(st, v)) && Distinct(Push(st, v)) && DfsKept(st, Push(st, v))
  {
  }

  lemma PushAscending(E: Adjacency, st: State, v: int)
    requires Indexed(E, st) && Placed(st) && Ascending(st) && StatusOf(st, v) == Unknown
    ensures Ascending(Push(st, v))
  {
    var st1 := Push(st, v);
    forall i, j | 0 <= i < j < |st1.stack|
      ensures DfsOf(st1, st1.stack[i]) < DfsOf(st1, st1.stack[j])
    {
      assert st1.stack[i] in Seen(st);
      if j < |st.stack| {
        assert st1.stack[j] in Seen(st);
      }
    }
  }
  /** The component `Emit` pops is the part of the stack from `v` up. */
  lemma EmitShape(st: State, v: int, p: seq<int>)
    requires NoDup(st.stack) && Prefix(p + [v], st.stack)
    ensures Emit(st, v).stack == p
    ensures Emit(st, v).scc == st.scc + [PopUntil(v, st.stack).1]
    ensures Emit(st, v).status == MarkKnown(st.status, PopUntil(v, st.stack).1)
    ensures Emit(st, v).dfs == st.dfs && Emit(st, v).time == st.time
    ensures multiset(PopUntil(v, st.stack).1) == multiset(st.stack[|p|..])
    ensures forall x :: x in PopUntil(v, st.stack).1 <==> x in st.stack[|p|..]
  {
    var s := st.stack[|p|..];
    var q := s[1..];
    assert st.stack == p + s;
    assert s == [v] + q;
    assert v !in q by {
      NoDupSplit(p, s);
      NoDupSplit([v], q);
    }
    assert st.stack == p + [v] + q;
    PopUntilSplit(v, p, q);
    SameMembers(PopUntil(v, st.stack).1, s);
  }

  lemma EmitInv(E: Adjacency, st: State, v: int, p: seq<int>)
    requires Inv(E, st) && Prefix(p + [v], st.stack)
    ensures Inv(E, Emit(st, v)) && DfsKept(st, Emit(st, v))
    ensures Emit(st, v).stack == p && Emit(st, v).time == st.time
  {
    NoDupSplit(Flatten(st.scc), st.stack);
    EmitShape(st, v, p);
    EmitPlaced(st, v, p);
    EmitOnStack(st, v, p);
    EmitIndexed(E, st, v, p);
    EmitAscending(st, v, p);
  }

  lemma EmitIndexed(E: Adjacency, st: State, v: int, p: seq<int>)
    requires Indexed(E, st) && Distinct(st) && OnStack(st)
    requires NoDup(st.stack) && Prefix(p + [v], st.stack)
    ensures Indexed(E, Emit(st, v)) && Distinct(Emit(st, v))
  {
    EmitShape(st, v, p);
    var comp := PopUntil(v, st.stack).1;
    var st3 := Emit(st, v);
    assert st3.dfs == st.dfs;
    forall x
      ensures StatusOf(st3, x) != Unknown <==> StatusOf(st, x) != Unknown
    {
      if x in comp {
        assert x in st.stack;
      }
    }
  }

  lemma EmitAscending(st: State, v: int, p: seq<int>)
    requires Ascending(st) && NoDup(st.stack) && Prefix(p + [v], st.stack)
    ensures Ascending(Emit(st, v))
  {
    EmitShape(st, v, p);
    var st3 := Emit(st, v);
    forall i, j | 0 <= i < j < |p|
      ensures DfsOf(st3, p[i]) < DfsOf(st3, p[j])
    {
      assert p[i] == st.stack[i] && p[j] == st.stack[j];
    }
  }

  lemma EmitPlaced(st: State, v: int, p: seq<int>)
    requires Placed(st) && NoDup(st.stack) && Prefix(p + [v], st.stack)
    ensures Placed(Emit(st, v))
  {
    EmitShape(st, v, p);
    var comp := PopUntil(v, st.stack).1;
    var st3 := Emit(st, v);
    var f, s := Flatten(st.scc), st.stack[|p|..];
    assert Seen(st3) == f + comp + p by {
      FlattenAppend(st.scc, [comp]);
      assert Flatten([comp]) == comp;
    }
    assert Seen(st) == f + p + s by {
      assert st.stack == p + s;
    }
    assert multiset(Seen(st3)) == multiset(Seen(st)) by {
      calc {
        multiset(Seen(st3));
        multiset(f) + multiset(comp) + multiset(p);
        multiset(f) + multiset(p) + multiset(s);
        multiset(Seen(st));
      }
    }
    NoDupPermutation(Seen(st), Seen(st3));
    SameMembers(Seen(st), Seen(st3));
    forall x
      ensures StatusOf(st3, x) != Unknown <==> x in Seen(st3)
    {
      if x in comp {
        assert x in s;
        assert x in Seen(st);
      } else {
        assert StatusOf(st3, x) == StatusOf(st, x);
      }
    }
  }

  lemma EmitOnStack(st: State, v: int, p: seq<int>)
    requires OnStack(st) && NoDup(st.stack) && Prefix(p + [v], st.stack)
    ensures OnStack(Emit(st, v))
  {
    EmitShape(st, v, p);
    var comp := PopUntil(v, st.stack).1;
    var st3 := Emit(st, v);
    var s := st.stack[|p|..];
    assert st.stack == p + s;
    NoDupSplit(p, s);
    forall x
      ensures StatusOf(st3, x) == Progress <==> x in p
    {
      if x in comp {
        assert StatusOf(st3, x) == Known;
        assert x in s;
      } else {
        assert StatusOf(st3, x) == StatusOf(st, x);
        assert x !in s;
        assert x in st.stack <==> x in p || x in s;
      }
    }
  }

  lemma DfsKeptTrans(st: State, st': State, st'': State)
    requires DfsKept(st, st') && DfsKept(st', st'')
    ensures DfsKept(st, st'')
  {
  }

  /** A later state whose stack extends this one's has the same floor. */
  lemma FloorKept(E: Adjacency, st: State, st': State)
    requires Placed(st) && Indexed(E, st) && st.stack != []
    requires Prefix(st.stack, st'.stack) && DfsKept(st, st')
    ensures Floor(st') == Floor(st)
  {
    assert st'.stack[0] == st.stack[0];
    assert st.stack[0] in Seen(st);
  }

  /** A vertex on the stack has a discovery index at least the floor. */
  lemma AboveFloor(st: State, a: int)
    requires Ascending(st) && a in st.stack
    ensures DfsOf(st, a) >= Floor(st)
  {
    var k :| 0 <= k < |st.stack| && st.stack[k] == a;
    if k > 0 {
      assert DfsOf(st, st.stack[0]) < DfsOf(st, st.stack[k]);
    }
  }

  /** The search from `v`: the invariant is kept, the stack below `v` is
      untouched, and the low-link lies between the floor and `dfs[v]`; when
      it equals `dfs[v]` the whole component of `v` has been popped. */
  lemma VisitInv(E: Adjacency, v: int, st: State)
    requires Wf(E) && v in E && StatusOf(st, v) == Unknown && Inv(E, st)
    ensures var r := Visit(E, v, st);
      && Inv(E, r.1) && Prefix(st.stack, r.1.stack) && DfsKept(st, r.1) && r.1.time > st.time
      && Floor(st) <= r.0 <= st.time
      && (r.0 == st.time ==> r.1.stack == st.stack)
    decreases Unvisited(E, st), 0, 0
  {
    var st1 := Push(st, v);
    PushInv(E, st, v);
    assert Unvisited(E, st1) < Unvisited(E, st) by {
      assert v in Unvisited(E, st) && v !in Unvisited(E, st1);
    }
    var (low, st2) := Scan(E, v, E[v], st.time, st1);
    ScanInv(E, v, E[v], st.time, st1);
    PrefixTrans(st.stack, st1.stack, st2.stack);
    DfsKeptTrans(st, st1, st2);
    VisitEnd(E, v, st, low, st2);
  }

  /** The end of `__DFS(v)`, after the loop over the successors. */
  lemma VisitEnd(E: Adjacency, v: int, st: State, low: int, st2: State)
    requires Inv(E, st) && Inv(E, st2) && Prefix(st.stack + [v], st2.stack) && DfsKept(st, st2)
    requires DfsOf(st2, v) == st.time && st2.time > st.time && Min(st.time, Floor(st)) <= low <= st.time
    requires Floor(st) <= st.time
    ensures var r := if low == DfsOf(st2, v) then (low, Emit(st2, v)) else (low, st2);
      && Inv(E, r.1) && Prefix(st.stack, r.1.stack) && DfsKept(st, r.1) && r.1.time > st.time
      && Floor(st) <= r.0 <= st.time
      && (r.0 == st.time ==> r.1.stack == st.stack)
  {
    PrefixTrans(st.stack, st.stack + [v], st2.stack);
    if low == DfsOf(st2, v) {
      EmitInv(E, st2, v, st.stack);
      DfsKeptTrans(st, st2, Emit(st2, v));
    }
  }

  /** The loop over the successors: the invariant is kept, the stack only
      grows above its current contents, and the low-link only decreases,
      never below the floor. */
  lemma ScanInv(E: Adjacency, v: int, adj: seq<int>, low: int, st: State)
    requires Wf(E) && (forall a | a in adj :: a in E) && Inv(E, st) && st.stack != []
    ensures var r := Scan(E, v, adj, low, st);
      && Inv(E, r.1) && Prefix(st.stack, r.1.stack) && DfsKept(st, r.1) && r.1.time >= st.time
      && Min(low, Floor(st)) <= r.0 <= low
    decreases Unvisited(E, st), |adj| + 1, 1
  {
    if adj != [] {
      var a := adj[0];
      match StatusOf(st, a)
      case Unknown =>
        ScanTreeEdge(E, v, adj, low, st);
      case Progress =>
        AboveFloor(st, a);
        ScanInv(E, v, adj[1..], Min(DfsOf(st, a), low), st);
      case Known =>
        ScanInv(E, v, adj[1..], low, st);
    }
  }

  /** `ScanInv` for a tree edge: the search into the unknown successor `adj[0]`. */
  lemma ScanTreeEdge(E: Adjacency, v: int, adj: seq<int>, low: int, st: State)
    requires Wf(E) && (forall a | a in adj :: a in E) && Inv(E, st) && st.stack != []
    requires adj != [] && StatusOf(st, adj[0]) == Unknown
    ensures var r := Scan(E, v, adj, low, st);
      && Inv(E, r.1) && Prefix(st.stack, r.1.stack) && DfsKept(st, r.1) && r.1.time >= st.time
      && Min(low, Floor(st)) <= r.0 <= low
    decreases Unvisited(E, st), |adj| + 1, 0
  {
    var a := adj[0];
    var r1 := Visit(E, a, st);
    VisitInv(E, a, st);
    UnvisitedShrinks(E, st, r1.1);
    FloorKept(E, st, r1.1);
    var r := Scan(E, v, adj[1..], Min(r1.0, low), r1.1);
    ScanInv(E, v, adj[1..], Min(r1.0, low), r1.1);
    PrefixTrans(st.stack, r1.1.stack, r.1.stack);
    DfsKeptTrans(st, r1.1, r.1);
  }

  /** The loop of `solve` keeps the invariant and leaves the stack empty
      after every search: a search from an empty stack ends with the low-link
      of its root equal to the root's index, so the root empties the stack. */
  lemma {:induction false} SolveInv(E: Adjacency, vs: seq<int>, st: State)
    requires Wf(E) && (forall v | v in vs :: v in E) && Inv(E, st) && st.stack == []
    ensures Inv(E, SolveFrom(E, vs, st)) && SolveFrom(E, vs, st).stack == []
    decreases |vs|
  {
    if vs != [] {
      if StatusOf(st, vs[0]) == Unknown {
        VisitInv(E, vs[0], st);
      }
      var st' := if StatusOf(st, vs[0]) == Unknown then Visit(E, vs[0], st).1 else st;
      SolveInv(E, vs[1..], st');
    }
  }

  /** The raw component list of `solve` partitions the vertices: every vertex
      lies in exactly one component. */
  lemma TarjanPartition(g: Graph)
    requires Valid(g)
    ensures var scc := SolveFrom(g.E, g.V, Init).scc;
      NoDup(Flatten(scc)) && multiset(Flatten(scc)) == multiset(g.V)
  {
    assert Wf(g.E);
    InitInv(g.E);
    SolveInv(g.E, g.V, Init);
    var st := SolveFrom(g.E, g.V, Init);
    assert Seen(st) == Flatten(st.scc);
    forall x
      ensures x in Flatten(st.scc) <==> x in g.V
    {
      if x in Flatten(st.scc) {
        assert x in st.dfs;
      }
    }
    NoDupSameMembers(Flatten(st.scc), g.V);
  }

  /** `TarjanSCC().solve(G)` succeeds, and the graph accepts the result
      through `setSCC`. */
  lemma TarjanAttaches(g: Graph)
    requires Valid(g)
    ensures Tarjan(g).Ok? && Tarjan(g).value.V == g.V && SetScc(g, Tarjan(g).value).Ok?
  {
    var scc := SolveFrom(g.E, g.V, Init).scc;
    TarjanPartition(g);
    IntLeTotal();
    SortPermutation(Flatten(scc), g.V, IntLe);
    SortedIntsFixed(g.V);
  }
}
