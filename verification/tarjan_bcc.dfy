/** `TarjanBCC` (solver.py): biconnected components by Tarjan's edge-stack
    search. Every edge the search follows for the first time is pushed on an
    edge stack as a pair `(v, adjV)`; when a child's low-link does not reach
    above its parent `v`, the stack is popped down to the tree edge into the
    child, and the popped pairs, each with its reverse, form a component.
    `'progress'` means "on the call path": it is cleared when the visit ends.
    The object's fields are threaded through the recursion as a `State`. */
module TarjanBcc {
  import opened Base
  import opened Sorting
  import opened Partition
  import opened Graphs

  /** How the test `tree[v] == adjV` reads the parent of a search root, which has none. */
  datatype Lookup =
    | Sentinel   // `defaultdict(lambda: -1)`: a root's parent reads as the vertex -1
    | Optional   // a root has no parent, so none of its successors is skipped

  /** The solver's fields. `closed` lists, per component, the pairs popped for
      it in popping order; the component itself lists every popped pair
      followed by its reverse (`Both`). */
  datatype State = State(time: int, status: map<int, Status>, dfs: map<int, int>, tree: map<int, int>,
                         stack: seq<Edge>, closed: seq<seq<Edge>>)

  /** The solver's state before the first search. */
  const Init := State(0, map[], map[], map[], [], [])

  /** `status[x]` with the default `'unknown'`. */
  function StatusOf(st: State, x: int): Status {
    if x in st.status then st.status[x] else Unknown
  }

  /** `dfs[x]` with the default `-1`. */
  function DfsOf(st: State, x: int): int {
    if x in st.dfs then st.dfs[x] else -1
  }

  /** The search-tree parent of `x`, if it has one. */
  function ParentOf(st: State, x: int): Option<int> {
    if x in st.tree then Some(st.tree[x]) else None
  }

  /** `tree[v] == adjV`: the edge back to the parent is skipped. */
  predicate SkipsParent(st: State, v: int, a: int, mode: Lookup) {
    match mode
    case Sentinel => (if v in st.tree then st.tree[v] else -1) == a
    case Optional => ParentOf(st, v) == Some(a)
  }

  /** The vertices of the graph not reached yet: the termination measure. */
  ghost function Unvisited(E: Adjacency, st: State): set<int> {
    set x | x in E && StatusOf(st, x) == Unknown
  }

  /** No vertex goes back to `'unknown'`. */
  ghost predicate Shrinks(st: State, st': State) {
    forall x :: StatusOf(st', x) == Unknown ==> StatusOf(st, x) == Unknown
  }

  lemma UnvisitedShrinks(E: Adjacency, st: State, st': State)
    requires Shrinks(st, st')
    ensures Unvisited(E, st') < Unvisited(E, st) || Unvisited(E, st') == Unvisited(E, st)
  {
  }


  /** A pair reversed. */
  function Rev(e: Edge): Edge {
    (e.1, e.0)
  }

  /** `comp.append((x, y)); comp.append((y, x))` for every popped pair `(x, y)`. */
  function Both(ps: seq<Edge>): (r: seq<Edge>)
    ensures |r| == 2 * |ps|
  {
    if ps == [] then [] else [ps[0], Rev(ps[0])] + Both(ps[1..])
  }

  /** `stack.append(e)`. */
  function PushPair(st: State, e: Edge): State {
    st.(stack := st.stack + [e])
  }

  /** `stack.append((v, adjV)); tree[adjV] = v` before the search into a
      child `v` of `parent`; nothing for a search root. */
  function Link(st: State, v: int, parent: Option<int>): State {
    if parent.None? then st
    else PushPair(st, (parent.value, v)).(tree := st.tree[v := parent.value])
  }

  /** The start of `__DFS(v)`: `v` is in progress and gets the discovery index `time`. */
  function Push(st: State, v: int): State {
    st.(time := st.time + 1, status := st.status[v := Progress], dfs := st.dfs[v := st.time])
  }

  /** The popping loop after a child whose low-link is at least `dfs[v]`:
      the stack down to and including the tree edge `e` becomes a component. */
  function Close(st: State, e: Edge): State {
    var popped := PopUntil(e, st.stack);
    st.(stack := popped.0, closed := st.closed + [popped.1])
  }

  /** After the search into the child `a` of `v` returned the low-link
      `lowA`: when it does not reach above `v`, the component is popped. */
  function AfterChild(st: State, v: int, a: int, lowA: int): State {
    if lowA >= DfsOf(st, v) then Close(st, (v, a)) else st
  }

  /** `__DFS(v)`, entered from `parent` (`None` for a search root): returns the
      low-link of `v` and the new state, in which `v` is `'known'`. */
  function Visit(E: Adjacency, v: int, parent: Option<int>, st: State, mode: Lookup): (r: (int, State))
    requires Wf(E) && v in E && StatusOf(st, v) == Unknown
    ensures Shrinks(st, r.1) && StatusOf(r.1, v) == Known
    decreases Unvisited(E, st), 0
  {
    var st1 := Push(Link(st, v, parent), v);
    assert Unvisited(E, st1) < Unvisited(E, st) by {
      assert v in Unvisited(E, st) && v !in Unvisited(E, st1);
    }
    var sc := Scan(E, v, E[v], st.time, st1, mode);
    var r := (sc.0, sc.1.(status := sc.1.status[v := Known]));
    assert Shrinks(st, r.1) by {
      forall x | StatusOf(r.1, x) == Unknown ensures StatusOf(st, x) == Unknown {
        assert StatusOf(sc.1, x) == Unknown && StatusOf(st1, x) == Unknown;
      }
    }
    r
  }

  /** The loop `for adjV in E[v]` of `__DFS(v)`, from the entries `adj` on,
      with the low-link `low` found so far. */
  function Scan(E: Adjacency, v: int, adj: seq<int>, low: int, st: State, mode: Lookup): (r: (int, State))
    requires Wf(E) && forall a | a in adj :: a in E
    ensures Shrinks(st, r.1)
    decreases Unvisited(E, st), |adj| + 1
  {
    if adj == [] then (low, st)
    else
      var a := adj[0];
      if SkipsParent(st, v, a, mode) then Scan(E, v, adj[1..], low, st, mode)
      else
        match StatusOf(st, a)
        case Known => Scan(E, v, adj[1..], Min(DfsOf(st, a), low), st, mode)
        case Progress => Scan(E, v, adj[1..], Min(DfsOf(st, a), low), PushPair(st, (v, a)), mode)
        case Unknown =>
          var c := Visit(E, a, Some(v), st, mode);
          UnvisitedShrinks(E, st, c.1);
          var st' := AfterChild(c.1, v, a, c.0);
          assert Unvisited(E, st') == Unvisited(E, c.1);
          Scan(E, v, adj[1..], Min(low, c.0), st', mode)
  }

  /** The loop of `solve`: a search from every vertex of `vs` still unknown. */
  function SolveFrom(E: Adjacency, vs: seq<int>, st: State, mode: Lookup): (r: State)
    requires Wf(E) && forall v | v in vs :: v in E
    ensures Shrinks(st, r) && forall v | v in vs :: StatusOf(r, v) != Unknown
    decreases |vs|
  {
    if vs == [] then st
    else
      var st' := if StatusOf(st, vs[0]) == Unknown then Visit(E, vs[0], None, st, mode).1 else st;
      SolveFrom(E, vs[1..], st', mode)
  }

  /** The component list `solve` hands to `BCC`. */
  function Components(g: Graph, mode: Lookup): seq<seq<Edge>>
    requires Valid(g)
  {
    assert Wf(g.E);
    MapSeq(Both, SolveFrom(g.E, g.V, Init, mode).closed)
  }

  /** `TarjanBCC().solve(G)` as written, with the `-1` parent default. */
  function BiconnectedAsWritten(g: Graph): Result<Bcc>
    requires Valid(g)
  {
    NewBcc(Components(g, Sentinel))
  }

  /** `TarjanBCC().solve(G)` with search roots that have no parent. */
  function Biconnected(g: Graph): Result<Bcc>
    requires Valid(g)
  {
    NewBcc(Components(g, Optional))
  }

  // ---------------------------------------------------------------------
  // Invariants

  /** The graphs the solver is meant for: every edge comes with its reverse,
      there are no self-loops, and no adjacency list repeats a vertex. */
  predicate Simple(E: Adjacency) {
    forall v | v in E :: NoDup(E[v]) && forall a | a in E[v] :: a != v && a in E && v in E[a]
  }

  /** Every pair pushed so far: still on the stack, or popped into a component. */
  ghost function Pushed(st: State): multiset<Edge> {
    multiset(st.stack) + multiset(Flatten(st.closed))
  }

  /** Reached vertices are vertices of the graph with an index below `time`;
      only reached vertices have a parent. */
  ghost predicate Indexed(E: Adjacency, st: State) {
    && 0 <= st.time
    && forall x ::
         && (x in st.dfs <==> StatusOf(st, x) != Unknown)
         && (x in st.dfs ==> x in E && 0 <= st.dfs[x] < st.time)
         && (x in st.tree ==> x in st.dfs)
  }

  /** Every pair in `P` occurs once and without its reverse, is an edge
      between reached vertices, and leads from a parent to its child or back
      to a vertex reached earlier. */
  ghost predicate PairsOk(E: Adjacency, tree: map<int, int>, dfs: map<int, int>, P: multiset<Edge>) {
    forall x, y | (x, y) in P ::
      && P[(x, y)] == 1 && (y, x) !in P
      && x in E && y in E[x] && x in dfs && y in dfs
      && ((y in tree && tree[y] == x) || dfs[y] < dfs[x])
  }

  /** The edge from every parent to its child has been pushed. */
  ghost predicate TreePushed(tree: map<int, int>, P: multiset<Edge>) {
    forall y | y in tree :: (tree[y], y) in P
  }

  /** Every edge of a finished vertex has been pushed in one direction or the other. */
  ghost predicate Covered(E: Adjacency, status: map<int, Status>, P: multiset<Edge>) {
    forall x, a | x in E && x in status && status[x] == Known && a in E[x] :: (x, a) in P || (a, x) in P
  }

  /** The invariant of the solver's state between steps. */
  ghost predicate Inv(E: Adjacency, st: State) {
    && Indexed(E, st)
    && PairsOk(E, st.tree, st.dfs, Pushed(st))
    && TreePushed(st.tree, Pushed(st))
    && Covered(E, st.status, Pushed(st))
  }

  /** What a later state keeps of an earlier one: indices and parents are
      never changed, new indices are at least the old `time`, and no pushed
      pair is lost. */
  ghost predicate Kept(st: State, st': State) {
    && st.time <= st'.time
    && (forall x | x in st.dfs || x in st'.dfs ::
          && x in st'.dfs
          && (x in st.dfs ==> st'.dfs[x] == st.dfs[x])
          && (x !in st.dfs ==> st'.dfs[x] >= st.time))
    && (forall x | x in st.tree :: x in st'.tree && st'.tree[x] == st.tree[x])
    && Pushed(st) <= Pushed(st')
  }

  /** The vertices on the call path are the same. */
  ghost predicate SameProgress(st: State, st': State) {
    forall x :: StatusOf(st', x) == Progress <==> StatusOf(st, x) == Progress
  }

  /** The vertices reached before index `f` have all their neighbours reached
      before `f`: a search started at index `f` meets none of them. */
  ghost predicate Saturated(E: Adjacency, st: State, f: int) {
    forall b, y | b in st.dfs && st.dfs[b] < f && b in E && y in E[b] :: y in st.dfs && st.dfs[y] < f
  }

  /** No vertex is on the call path: the state between two searches. */
  ghost predicate Idle(st: State) {
    forall x :: StatusOf(st, x) != Progress
  }

  /** `v` is alone on the call path: it is a search root. */
  ghost predicate Solo(v: int, st: State) {
    forall x | StatusOf(st, x) == Progress :: x == v
  }

  /** What a step of the loop of `__DFS(v)` keeps: indices, parents and
      pushed pairs, the call path, the old stack at the bottom; new pairs
      start at `v` or at a vertex reached meanwhile; and when `v` is a search
      root (alone on the call path, with `f` its index) the stack is back
      where it was. */
  ghost predicate Step(v: int, st: State, st': State, f: int) {
    && Kept(st, st') && SameProgress(st, st') && Prefix(st.stack, st'.stack)
    && (forall x, y | (x, y) in Pushed(st') && (x, y) !in Pushed(st) :: x !in st.dfs || x == v)
    && (Solo(v, st) && f == DfsOf(st, v) ==> st'.stack == st.stack)
  }

  /** What holds before the loop of `__DFS(v)` resumes at `adj`, the entries
      `pre` of `E[v]` handled: `v` is the newest vertex on the call path, its
      pushed pairs lead into `pre` only, the edges to `pre` are pushed, and
      no vertex indexed at least `f` has a neighbour indexed below `f`. */
  ghost predicate ScanReady(E: Adjacency, v: int, pre: seq<int>, adj: seq<int>, low: int, st: State, f: int) {
    Simple(E) && Inv(E, st) && Frame(E, v, pre, adj, low, st, f)
  }

  /** The part of `ScanReady` about `v` and its loop. */
  ghost predicate Frame(E: Adjacency, v: int, pre: seq<int>, adj: seq<int>, low: int, st: State, f: int) {
    && v in E && E[v] == pre + adj && StatusOf(st, v) == Progress
    && (forall x | StatusOf(st, x) == Progress && x != v :: DfsOf(st, x) < DfsOf(st, v))
    && (forall y | (v, y) in Pushed(st) :: y in pre)
    && (forall b | b in pre :: (v, b) in Pushed(st) || (b, v) in Pushed(st))
    && Saturated(E, st, f) && f <= low && f <= DfsOf(st, v)
  }

  /** What the rest of the loop guarantees: the invariant, a `Step`, every
      edge of `v` pushed in one direction, and a low-link of at least `f`. */
  ghost predicate ScanDone(E: Adjacency, v: int, st: State, f: int, r: (int, State)) {
    && v in E && Inv(E, r.1) && Step(v, st, r.1, f)
    && (forall b | b in E[v] :: (v, b) in Pushed(r.1) || (b, v) in Pushed(r.1))
    && f <= r.0
  }

  /** What holds when `__DFS(v)` is called from `parent`. */
  ghost predicate VisitReady(E: Adjacency, v: int, parent: Option<int>, st: State, f: int) {
    && Simple(E) && Inv(E, st) && v in E && StatusOf(st, v) == Unknown
    && (parent.Some? ==> StatusOf(st, parent.value) == Progress && parent.value in E && v in E[parent.value])
    && Saturated(E, st, f) && f <= st.time
  }

  /** What `__DFS(v)` guarantees: the invariant, nothing lost, `v` finished
      and the call path as before; the only new pair not starting at a
      newly reached vertex is the edge from the parent, which is pushed; a
      low-link of at least `f`; the stack grows on top of the parent's edge;
      and a search root leaves the stack as it found it. */
  ghost predicate VisitDone(E: Adjacency, v: int, parent: Option<int>, st: State, f: int, r: (int, State)) {
    && Inv(E, r.1) && Kept(st, r.1) && SameProgress(st, r.1) && StatusOf(r.1, v) == Known
    && (forall x, y | (x, y) in Pushed(r.1) && (x, y) !in Pushed(st) :: x !in st.dfs || (parent.Some? && (x, y) == (parent.value, v)))
    && (parent.Some? ==> (parent.value, v) in Pushed(r.1))
    && f <= r.0
    && Prefix(Link(st, v, parent).stack, r.1.stack)
    && (parent.None? && Idle(st) && f == st.time ==> r.1.stack == st.stack)
  }

  /** `s'` differs from `s` at most in how the pushed pairs are split
      between the stack and `closed`. */
  ghost predicate Repacked(s: State, s': State) {
    && s'.time == s.time && s'.status == s.status && s'.dfs == s.dfs && s'.tree == s.tree
    && Pushed(s') == Pushed(s)
  }
}
