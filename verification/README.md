# GraphSearch in Dafny

A model of the graph-decomposition core of GraphSearch. It covers four parts:

- **The graph value.** `Graph` in basicComponent.py, with its constructor, structural equality, `copy`, `transpose`, `setSCC` and `setBCC`.
- **The two result types.** `SCC` is a validated vertex partition. `BCC` is a validated, direction-symmetric edge partition. Both are stored in canonical sorted form.
- **The three depth-first solvers of solver.py.**
  - `TarjanSCC`: Tarjan's single-pass low-link SCC.
  - `KorsajuSCC`: Kosaraju's finish-order / transpose SCC.
  - `TarjanBCC`: Tarjan's edge-stack biconnected components.
- **Label encoding.** `numToString` of utils.py, the bijective base-26 label encoder.

Python's mutable solver objects become pure functions that thread an explicit state record:

- `time`, `status`, `dfs`, the stack, and the list of emitted components.
- The `defaultdict` lookups become explicit defaults: `StatusOf`, `DfsOf` and `ParentOf`.
- The `assert`-based validation of the constructors becomes a `Result` carrying the kind of failure.
- Recursion terminates on (unreached vertices, remaining adjacency entries).

Vertices are integers. The string labels 'A' .. 'I' of the `checkSCC` fixture are numbered 0 .. 8, in the order `numToString` gives them.

Modules:

- `Base`: options, results, `NoDup`, `Flatten`, `PopUntil`.
- `Sorting`: insertion sort over a total order, lexicographic order, canonical partitions.
- `Partition`: `SCC` and `BCC`.
- `Graphs`: the graph value.
- `Labels`: `numToString`.
- The solvers:
  - `TarjanScc`;
  - `Kosaraju`;
  - `TarjanBcc`, with its invariant proofs in `TarjanBccProofs`, and the result lemmas in `TarjanBccResult`.
- `SentinelCase`: the parent-sentinel discrepancy.
- The fixtures:
  - the `checkSCC` graph, shared by both SCC solvers: `SccFixture`, `TarjanSccFixture`, `KosarajuFixture`, `SccCheck`;
  - the `checkBCC` graph: `BccFixture`.

## Model

| member | source | states |
|---|---|---|
| Labels.NumToString | utils.py:1-8 | for every `num >= 0` the label is non-empty, uses only 'A'..'Z', and reads back in bijective base 26 as `num + 1` |
| Labels.ValueInjective | utils.py:4-8 | two labels with the same bijective base-26 value are equal, so distinct numbers get distinct labels |
| Labels.FirstLabels | utils.py:4-7 | the label of value 1 is exactly "A", of 26 exactly "Z", of 27 exactly "AA" (numbers 0, 25, 26) |
| Sorting.SortPermutation | basicComponent.py:18-19 | sorting two lists with the same elements gives the same list |
| Sorting.SortSorted | basicComponent.py:90-92 | sorting a list that is already sorted leaves it unchanged |
| Sorting.CanonEqual | basicComponent.py:19 | two component lists have the same canonical form exactly when they group the same elements together |
| Partition.NewScc | basicComponent.py:12-19 | `SCC(comp)` is rejected exactly when a vertex occurs twice across the components; otherwise it holds the same vertices, the same groups, and one component per input component |
| Partition.NewSccCanonical | basicComponent.py:18-19 | an accepted `SCC` stores its vertices sorted and without repeats, and its components in canonical order |
| Partition.SccEqualIff | basicComponent.py:27-29 | two `SCC`s are equal exactly when their inputs group the vertices the same way, whatever the order of components and vertices |
| Partition.SccGetItem | basicComponent.py:34-35 | `scc[index]` exists exactly for Python's index range `-len .. len-1` and is a sorted copy of one input component |
| Partition.NewBcc | basicComponent.py:50-58 | `BCC(comp)` is rejected exactly when some component holds a pair without its reverse, or a pair occurs twice; otherwise it holds the same pairs and groups |
| Partition.NewBccCanonical | basicComponent.py:55-58 | an accepted `BCC` stores its pairs sorted and its components in canonical order |
| Partition.BccEqualIff | basicComponent.py:67-69 | two `BCC`s are equal exactly when their inputs group the pairs the same way |
| Partition.BccGetItem | basicComponent.py:74-75 | `bcc[index]` exists exactly for Python's index range `-len .. len-1` and is a copy of one input component, sorted by the pair order |
| Graphs.NewGraph | basicComponent.py:79-97 | construction succeeds exactly when there is no duplicate vertex, every key and entry is a vertex, and every vertex has a list. A duplicate is reported first, then an unknown vertex, then a vertex without a list (the `KeyError` of the sort). The vertex list and every adjacency list keep their contents, and the flag and attachments are kept |
| Graphs.NewGraphValid | basicComponent.py:90-92 | a constructed graph has sorted, repeat-free vertices and sorted adjacency lists over exactly its vertices |
| Graphs.NewGraphIdempotent | basicComponent.py:79-92 | constructing from a graph's own (already normalised) lists returns those lists unchanged |
| Graphs.Copy | basicComponent.py:109-111 | `copy` is a valid graph equal to the original under `__eq__`, with the same flag and no attachments |
| Graphs.ReverseAll | basicComponent.py:129-132 | the reversed lists have one key per vertex, and the list of `u` holds each predecessor `x` of `u` as often as `u` occurs in `E[x]` |
| Graphs.ReverseAllOrder | basicComponent.py:129-132 | the reversed list of `u` lists the predecessors of `u` in the order of `V`, each repeated as often as the edge occurs |
| Graphs.ReversedEntries | solver.py:61-64 | `x` is in `ET[u]` exactly when `u` is in `E[x]` |
| Graphs.Transpose | basicComponent.py:125-133 | `transpose` is a valid graph on the same vertices with the same flag; for an undirected graph it has the same lists as `G` (the copy); for a directed graph (and for an undirected one with symmetric lists) every edge count is reversed |
| Graphs.TransposeInvolution | basicComponent.py:195 | `G.transpose().transpose() == G` under `__eq__`, for every valid graph |
| Graphs.SetScc | basicComponent.py:113-117 | `setSCC` succeeds exactly when the SCC's vertex list equals the graph's, and then changes only the attached SCC |
| Graphs.SetBcc | basicComponent.py:119-123 | `setBCC` succeeds exactly when the BCC's pair count equals the total length of the adjacency lists, and then changes only the attached BCC |
| TarjanScc.PushInv | solver.py:27-31 | entering an unreached vertex gives it the next discovery index and puts it on the stack, keeping the solver invariant (every reached vertex on the stack or in exactly one component, `'progress'` exactly for stack vertices, distinct indices increasing up the stack) |
| TarjanScc.EmitShape | solver.py:40-47 | emitting at `v` pops the stack down to and including `v`, appends exactly the popped vertices as one component, and marks each of them `'known'` |
| TarjanScc.VisitInv | solver.py:26-48 | `__DFS(v)` keeps the invariant and the old stack below. Its low-link lies between the stack's bottom index and `v`'s own index. When the low-link equals `v`'s index, the stack is back where it was |
| TarjanScc.SolveInv | solver.py:21-23 | the loop of `solve` keeps the invariant and ends with an empty stack |
| TarjanScc.TarjanPartition | solver.py:9-24 | the components `solve` hands to `SCC` hold every vertex of the graph exactly once |
| TarjanScc.TarjanAttaches | solver.py:21-24 | `TarjanSCC().solve(G)` is accepted by `SCC`, has the graph's vertex list, and `G.setSCC` accepts it |
| Kosaraju.DfsSpec | solver.py:80-85 | `__DFS(v)` pushes `v` last, after every successor of `v` that was not yet visited |
| Kosaraju.FirstPassSpec | solver.py:66-69 | after the first loop the finish stack holds exactly the visited vertices |
| Kosaraju.FinishOrderPermutation | solver.py:66-69 | after the first pass the finish stack holds every vertex exactly once |
| Kosaraju.DfsTSpec | solver.py:87-92 | `__DFST(v)` appends `v` first and then only newly claimed vertices |
| Kosaraju.SecondPassSpec | solver.py:71-77 | the popping loop claims every stacked vertex into exactly one non-empty component |
| Kosaraju.KosarajuPartition | solver.py:55-78 | the components of `KorsajuSCC().solve(G)` are non-empty and hold every vertex exactly once |
| Kosaraju.KosarajuAttaches | solver.py:78 | `KorsajuSCC().solve(G)` is accepted by `SCC`, has the graph's vertex list, and `G.setSCC` accepts it |
| TarjanBccProofs.VisitInv | solver.py:116-146 | `__DFS(v)` keeps the invariant: each pair pushed once and never with its reverse, each tree edge pushed, each edge of a finished vertex pushed in some direction. It finishes `v`, pushes the edge from the parent, and leaves the stack as it found it when `v` is a search root |
| TarjanBccProofs.SolveInv | solver.py:111-113 | the loop of `solve` keeps the invariant and ends with an empty stack and no vertex in progress |
| TarjanBccResult.BothSymmetric | solver.py:139-141 | every component built from popped pairs holds the reverse of each of its pairs |
| TarjanBccResult.BiconnectedPartition | solver.py:99-146 | on a simple undirected graph the components hold every edge pair of the graph exactly once, each closed under reversal, so `BCC` accepts them |
| TarjanBccResult.BiconnectedAttaches | solver.py:114 | on a simple undirected graph `G.setBCC(TarjanBCC().solve(G))` succeeds |
| SentinelCase.SentinelLosesEdge | solver.py:109-124 | as written, the graph on -2 and -1 with their one edge gives a `BCC` without pairs, which `setBCC` rejects |
| SentinelCase.OptionalKeepsEdge | solver.py:123-124 | with roots that have no parent, the same graph gives its one edge as one component |
| SentinelCase.SentinelHarmless | solver.py:109 | on every graph without the vertex -1 the code as written returns what the corrected solver returns |
| SccFixture.Construct | solver.py:167-177 | `Graph(V, E, isDirected=True)` of `checkSCC` succeeds and sorts the lists of D and G |
| TarjanSccFixture.TarjanFixture | solver.py:180 | `TarjanSCC().solve(G)` on any valid graph with the vertices and sorted lists of `checkSCC` is the SCC {A, B, C}, {D, E}, {F}, {G, H}, {I} |
| KosarajuFixture.ReversedLists | solver.py:61-64 | on the `checkSCC` graph the reversed lists are exactly the predecessor lists in vertex order |
| KosarajuFixture.FirstPassAll | solver.py:66-69 | the first pass on the `checkSCC` graph finishes the vertices in the order I, G, H, C, F, E, D, B, A |
| KosarajuFixture.SecondPassAll | solver.py:71-77 | the second pass claims {A, B, C}, {D, E}, {F}, {H, G}, {I} in that order |
| KosarajuFixture.KosarajuResult | solver.py:181 | `KorsajuSCC().solve(G)` on the `checkSCC` graph is the same SCC as Tarjan's |
| SccCheck.CheckScc | solver.py:177-186 | in `checkSCC` both solvers return the same SCC, so the comparison reports agreement, and `G.setSCC` attaches it |
| BccFixture.CheckBcc | solver.py:206-211 | in `checkBCC` the graph is built, the code as written agrees with the corrected solver, `BCC` accepts the result and `G.setBCC` attaches it |
| BccFixture.Close4 | solver.py:136-144 | after the child 4 of 2 returns low-link 1, the stack is popped down to `(2, 4)`, giving the triangle {2, 4, 5} |
| BccFixture.FixtureComponents | solver.py:200-209 | `TarjanBCC().solve(G)` on the `checkBCC` graph gives the triangle {2, 4, 5}, the triangle {1, 2, 3} and the bridge {1, 6}, each pair with its reverse, in that order |
| BccFixture.FixtureAccepted | solver.py:207-211 | on the `checkBCC` graph the code as written returns what the corrected solver returns, and `BCC` accepts it |
| BccFixture.FixtureBcc | solver.py:207-211 | the resulting `BCC` has three components, grouped as above |

## Left out

- `Graph.show`, `randomGraph`, the `__main__` loops, `SCC.__iter__`/`__next__` and the `__str__` methods: these are rendering, randomness, console input and printing. The fixed fixtures inside `checkSCC` and `checkBCC` are modelled; their printing is not.
- In-place mutation: Python's constructor sorts the caller's `V` and `E` lists in place. The model returns a fresh graph instead, so this is not modelled.
- Python's recursion depth limit is not modelled.
- Vertex labels: the model uses integers only. The `checkSCC` labels 'A' .. 'I' become 0 .. 8. `numToString` is modelled on its own, and `ValueInjective` shows that its labels are distinct.
- `isDirected` is not checked against the lists, as in the source. The BCC lemmas assume a simple undirected graph: every edge has its reverse, there are no self-loops and no repeated entries. `TarjanBCC` is not specified on other inputs.
- TarjanScc.TarjanPartition: states that the result is a partition. Maximality (components equal to mutual reachability) is not proved.
- Kosaraju.KosarajuPartition: states that the result is a partition. Maximality is not proved either.
- SccCheck.CheckScc: states agreement of Tarjan and Kosaraju on the `checkSCC` graph only. Agreement on every directed graph would follow from maximality, which is not proved.
- TarjanBccResult.BiconnectedPartition: states that the result is an edge partition closed under reversal. It does not state that each component is a maximal biconnected block.
- The popping loop of `TarjanSCC` would raise `IndexError` on an empty stack (solver.py:43-44). `PopUntil` stops there instead, as the loop of `TarjanBCC` does (solver.py:138). The invariant keeps `v` on the stack, so the two never differ on the graphs modelled.
- The `isRoot` argument of `TarjanBCC.__DFS` is unused by the source and is left out.
- Python's `defaultdict` inserts the default on lookup. The model reads defaults without inserting them, and nothing observable depends on the insertion.

## Findings

| source | as written | input that shows it | evidently intended | confidence | as-written member | corrected member |
|---|---|---|---|---|---|---|
| solver.py:109-124 | the parent of a search root is read as the default `-1`, so a root skips its neighbour `-1` as if it were the edge to its parent | `Graph([-2, -1], {-2: [-1], -1: [-2]}, isDirected=False)`: the edge is never pushed, `solve` returns a `BCC` with no pair, and `setBCC` rejects it | a search root has no parent and skips nothing, so the one edge forms the one component | not executed | SentinelCase.SentinelLosesEdge | TarjanBccResult.BiconnectedAttaches |
