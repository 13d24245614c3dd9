/** The solver results of basicComponent.py: `SCC`, a partition of vertices
    into strongly connected components, and `BCC`, a partition of directed
    edge pairs into biconnected components. Both are kept in canonical
    form, so that two results compare equal exactly when they describe the
    same partition. */
module Partition {
  import opened Base
  import opened Sorting

  // ---------------------------------------------------------------------
  // SCC

  /** `V` is the sorted list of all vertices, `comp` the sorted list of the
      sorted components. */
  datatype Scc = Scc(V: seq<int>, comp: seq<seq<int>>)

  /** `SCC(comp)`: rejects a vertex that occurs twice across the components. */
  function NewScc(comp: seq<seq<int>>): (r: Result<Scc>)
    ensures r.Err? <==> !NoDup(Flatten(comp))
    ensures r.Err? ==> r.error == DuplicateVertex
    ensures r.Ok? ==> multiset(r.value.V) == multiset(Flatten(comp))
    ensures r.Ok? ==> Groups(r.value.comp) == Groups(comp) && SccLen(r.value) == |comp|
  {
    var v := Flatten(comp);
    if !NoDup(v) then Err(DuplicateVertex)
    else Ok(Scc(SortBy(v, IntLe), Canon(comp, IntLe)))
  }

  /** A constructed SCC is in canonical form and lists no vertex twice. */
  lemma NewSccCanonical(comp: seq<seq<int>>)
    requires NewScc(comp).Ok?
    ensures SortedBy(NewScc(comp).value.V, IntLe) && NoDup(NewScc(comp).value.V)
    ensures Canonical(NewScc(comp).value.comp, IntLe)
  {
    IntLeTotal();
    SortBySorted(Flatten(comp), IntLe);
    NoDupPermutation(Flatten(comp), NewScc(comp).value.V);
    CanonIsCanonical(comp, IntLe);
  }

  /** `SCC(comp)` is the canonical form of `comp`: the sorted vertices `V`
      and the canonical list `d` with the same groups. */
  lemma NewSccIs(comp: seq<seq<int>>, V: seq<int>, d: seq<seq<int>>)
    requires NoDup(Flatten(comp)) && SortedBy(V, IntLe) && multiset(Flatten(comp)) == multiset(V)
    requires Canonical(d, IntLe) && Groups(comp) == Groups(d)
    ensures NewScc(comp) == Ok(Scc(V, d))
  {
    IntLeTotal();
    SortBySorted(Flatten(comp), IntLe);
    SortedUnique(SortBy(Flatten(comp), IntLe), V, IntLe);
    CanonEqual(comp, d, IntLe);
    CanonIsCanonical(d, IntLe);
    CanonicalUnique(Canon(d, IntLe), d, IntLe);
  }

  /** `SCC.__eq__`: compares the component lists only. */
  predicate SccEqual(a: Scc, b: Scc) {
    a.comp == b.comp
  }

  /** Two SCCs built from component lists compare equal exactly when the
      lists describe the same partition, whatever the order of the
      components and of the vertices inside them. */
  lemma SccEqualIff(c: seq<seq<int>>, d: seq<seq<int>>)
    requires NewScc(c).Ok? && NewScc(d).Ok?
    ensures SccEqual(NewScc(c).value, NewScc(d).value) <==> Groups(c) == Groups(d)
  {
    IntLeTotal();
    CanonEqual(c, d, IntLe);
  }

  /** `SCC.__len__`: the number of components. */
  function SccLen(s: Scc): nat {
    |s.comp|
  }

  /** Python indexing `comp[index]`, negative indices counting from the
      end; an index out of range (Python's IndexError) gives `None`. */
  function Index<T>(s: seq<T>, index: int): (r: Option<T>)
    ensures r.Some? <==> -|s| <= index < |s|
    ensures r.Some? ==> r.value in s
    ensures r.Some? && index >= 0 ==> r.value == s[index]
    ensures r.Some? && index < 0 ==> r.value == s[|s| + index]
  {
    if 0 <= index < |s| then Some(s[index])
    else if -|s| <= index < 0 then Some(s[|s| + index])
    else None
  }

  /** `SCC.__getitem__`: every component it returns is one of the original
      components, sorted. */
  lemma SccGetItem(comp: seq<seq<int>>, index: int)
    requires NewScc(comp).Ok?
    ensures Index(NewScc(comp).value.comp, index).Some? <==> -|comp| <= index < |comp|
    ensures Index(NewScc(comp).value.comp, index).Some? ==>
      var x := Index(NewScc(comp).value.comp, index).value;
      SortedBy(x, IntLe) && exists i :: 0 <= i < |comp| && multiset(comp[i]) == multiset(x)
  {
    var r := NewScc(comp).value.comp;
    var o := Index(r, index);
    if o.Some? {
      NewSccCanonical(comp);
      var x := o.value;
      var k :| 0 <= k < |r| && r[k] == x;
      assert Content(x) in Groups(r);
      assert Content(x) in multiset(MapSeq(Content, comp));
      var i :| 0 <= i < |comp| && MapSeq(Content, comp)[i] == Content(x);
      assert multiset(comp[i]) == multiset(x);
    }
  }

  // ---------------------------------------------------------------------
  // BCC

  /** An edge pair `(i, j)`; an undirected edge appears as both `(i, j)` and `(j, i)`. */
  type Edge = (int, int)

  /** `E` is the sorted list of all edge pairs, `comp` the sorted list of the
      sorted components. */
  datatype Bcc = Bcc(E: seq<Edge>, comp: seq<seq<Edge>>)

  /** Every pair of the component comes with its reverse. */
  predicate Symmetric(x: seq<Edge>) {
    forall k | 0 <= k < |x| :: (x[k].1, x[k].0) in x
  }

  /** `BCC(comp)`: rejects a component holding a pair without its reverse,
      then a pair occurring twice across the components. */
  function NewBcc(comp: seq<seq<Edge>>): (r: Result<Bcc>)
    ensures r.Ok? <==> (forall i | 0 <= i < |comp| :: Symmetric(comp[i])) && NoDup(Flatten(comp))
    ensures r.Err? && r.error == MissingReverseEdge <==> exists i :: 0 <= i < |comp| && !Symmetric(comp[i])
    ensures r.Err? ==> r.error in {MissingReverseEdge, DuplicateEdge}
    ensures r.Ok? ==> multiset(r.value.E) == multiset(Flatten(comp))
    ensures r.Ok? ==> Groups(r.value.comp) == Groups(comp) && BccLen(r.value) == |comp|
  {
    if exists i :: 0 <= i < |comp| && !Symmetric(comp[i]) then Err(MissingReverseEdge)
    else
      var e := SortBy(Flatten(comp), PairLe);
      NoDupPermutationIff(Flatten(comp), e);
      if !NoDup(e) then Err(DuplicateEdge)
      else Ok(Bcc(e, Canon(comp, PairLe)))
  }

  lemma NoDupPermutationIff<T>(s: seq<T>, t: seq<T>)
    requires multiset(s) == multiset(t)
    ensures NoDup(s) <==> NoDup(t)
  {
    if NoDup(s) {
      NoDupPermutation(s, t);
    }
    if NoDup(t) {
      NoDupPermutation(t, s);
    }
  }

  /** A constructed BCC is in canonical form. */
  lemma NewBccCanonical(comp: seq<seq<Edge>>)
    requires NewBcc(comp).Ok?
    ensures SortedBy(NewBcc(comp).value.E, PairLe)
    ensures Canonical(NewBcc(comp).value.comp, PairLe)
  {
    PairLeTotal();
    SortBySorted(Flatten(comp), PairLe);
    CanonIsCanonical(comp, PairLe);
  }

  /** `BCC.__eq__`: compares the component lists only. */
  predicate BccEqual(a: Bcc, b: Bcc) {
    a.comp == b.comp
  }

  /** Two BCCs built from component lists compare equal exactly when the
      lists describe the same partition of edge pairs. */
  lemma BccEqualIff(c: seq<seq<Edge>>, d: seq<seq<Edge>>)
    requires NewBcc(c).Ok? && NewBcc(d).Ok?
    ensures BccEqual(NewBcc(c).value, NewBcc(d).value) <==> Groups(c) == Groups(d)
  {
    assert NewBcc(c).value.comp == Canon(c, PairLe);
    assert NewBcc(d).value.comp == Canon(d, PairLe);
    PairLeTotal();
    CanonEqual(c, d, PairLe);
  }

  /** `BCC.__len__`: the number of components. */
  function BccLen(b: Bcc): nat {
    |b.comp|
  }

  /** `BCC.__getitem__`: every component it returns is one of the original
      components, sorted by the pair order. */
  lemma BccGetItem(comp: seq<seq<Edge>>, index: int)
    requires NewBcc(comp).Ok?
    ensures Index(NewBcc(comp).value.comp, index).Some? <==> -|comp| <= index < |comp|
    ensures Index(NewBcc(comp).value.comp, index).Some? ==>
      var x := Index(NewBcc(comp).value.comp, index).value;
      SortedBy(x, PairLe) && exists i :: 0 <= i < |comp| && multiset(comp[i]) == multiset(x)
  {
    var r := NewBcc(comp).value.comp;
    var o := Index(r, index);
    if o.Some? {
      NewBccCanonical(comp);
      var x := o.value;
      var k :| 0 <= k < |r| && r[k] == x;
      assert Content(x) in Groups(r);
      assert Content(x) in multiset(MapSeq(Content, comp));
      var i :| 0 <= i < |comp| && MapSeq(Content, comp)[i] == Content(x);
      assert multiset(comp[i]) == multiset(x);
    }
  }
}
