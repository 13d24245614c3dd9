/** Sorting and canonical forms, as the source uses them: Python's `sorted`
    and `list.sort` on vertices, edge pairs, and lists of either, compared
    lexicographically. Everything is generic over a total order `le`; the
    concrete orders are `IntLe` (vertices) and `PairLe` (edge pairs). */
module Sorting {
  import opened Base

  ghost predicate TotalOrder<T(!new)>(le: (T, T) -> bool) {
    && (forall x :: le(x, x))
    && (forall x, y :: le(x, y) && le(y, x) ==> x == y)
    && (forall x, y, z :: le(x, y) && le(y, z) ==> le(x, z))
    && (forall x, y :: le(x, y) || le(y, x))
  }

  predicate SortedBy<T>(s: seq<T>, le: (T, T) -> bool) {
    forall i, j | 0 <= i < j < |s| :: le(s[i], s[j])
  }

  function IntLe(a: int, b: int): bool { a <= b }

  /** Python's tuple order on edge pairs. */
  function PairLe(a: (int, int), b: (int, int)): bool {
    a.0 < b.0 || (a.0 == b.0 && a.1 <= b.1)
  }

  lemma IntLeTotal()
    ensures TotalOrder(IntLe)
  {
  }

  lemma PairLeTotal()
    ensures TotalOrder(PairLe)
  {
  }

  // ---------------------------------------------------------------------
  // Insertion sort

  function Insert<T>(x: T, s: seq<T>, le: (T, T) -> bool): (r: seq<T>)
    ensures multiset(r) == multiset(s) + multiset{x}
    ensures |r| == |s| + 1
  {
    if s == [] then [x]
    else if le(x, s[0]) then [x] + s
    else
      assert s == [s[0]] + s[1..];
      [s[0]] + Insert(x, s[1..], le)
  }

  lemma InsertSorted<T(!new)>(x: T, s: seq<T>, le: (T, T) -> bool)
    requires TotalOrder(le) && SortedBy(s, le)
    ensures SortedBy(Insert(x, s, le), le)
  {
    if s != [] && !le(x, s[0]) {
      InsertSorted(x, s[1..], le);
      var r := Insert(x, s, le);
      var t := Insert(x, s[1..], le);
      assert r == [s[0]] + t;
      forall k | 0 <= k < |t|
        ensures le(s[0], t[k])
      {
        assert t[k] in multiset(t);
        if t[k] != x {
          assert t[k] in multiset(s[1..]);
          var m :| 0 <= m < |s[1..]| && s[1..][m] == t[k];
          assert s[1..][m] == s[m + 1];
        }
      }
    }
  }

  /** Python's `sorted(s)`: a permutation of `s` (sorted, by `SortBySorted`). */
  function SortBy<T>(s: seq<T>, le: (T, T) -> bool): (r: seq<T>)
    ensures multiset(r) == multiset(s)
    ensures |r| == |s|
  {
    if s == [] then []
    else
      assert multiset(s) == multiset(s[1..]) + multiset{s[0]} by {
        assert s == [s[0]] + s[1..];
      }
      Insert(s[0], SortBy(s[1..], le), le)
  }

  lemma {:induction false} SortBySorted<T(!new)>(s: seq<T>, le: (T, T) -> bool)
    requires TotalOrder(le)
    ensures SortedBy(SortBy(s, le), le)
    decreases |s|
  {
    if s != [] {
      SortBySorted(s[1..], le);
      InsertSorted(s[0], SortBy(s[1..], le), le);
    }
  }

  /** The least element of a sorted sequence is its first one. */
  lemma SortedFirstIsLeast<T(!new)>(s: seq<T>, le: (T, T) -> bool, x: T)
    requires TotalOrder(le) && SortedBy(s, le) && x in s
    ensures le(s[0], x)
  {
    var k :| 0 <= k < |s| && s[k] == x;
  }

  /** Two sorted permutations of one another are equal: a sorted sequence is
      determined by its multiset. */
  lemma {:induction false} SortedUnique<T(!new)>(a: seq<T>, b: seq<T>, le: (T, T) -> bool)
    requires TotalOrder(le) && SortedBy(a, le) && SortedBy(b, le)
    requires multiset(a) == multiset(b)
    ensures a == b
    decreases |a|
  {
    if a != [] {
      assert |b| == |a| by {
        assert |multiset(a)| == |a| && |multiset(b)| == |b|;
      }
      assert a[0] in multiset(b);
      assert b[0] in multiset(a);
      SortedFirstIsLeast(b, le, a[0]);
      SortedFirstIsLeast(a, le, b[0]);
      assert a[0] == b[0];
      assert a == [a[0]] + a[1..];
      assert b == [b[0]] + b[1..];
      assert multiset(a) == multiset{a[0]} + multiset(a[1..]);
      assert multiset(b) == multiset{b[0]} + multiset(b[1..]);
      assert multiset(a[1..]) == multiset(a) - multiset{a[0]};
      assert multiset(b[1..]) == multiset(b) - multiset{b[0]};
      SortedUnique(a[1..], b[1..], le);
    }
  }

  /** For a total order, neighbours in order make the whole sequence sorted. */
  lemma {:induction false} ChainSorted<T(!new)>(s: seq<T>, le: (T, T) -> bool)
    requires TotalOrder(le) && forall i | 0 <= i < |s| - 1 :: le(s[i], s[i + 1])
    ensures SortedBy(s, le)
    decreases |s|
  {
    if |s| > 1 {
      var t := s[1..];
      forall i | 0 <= i < |t| - 1 ensures le(t[i], t[i + 1]) {
        assert t[i] == s[i + 1] && t[i + 1] == s[i + 2];
      }
      ChainSorted(t, le);
      forall i, j | 0 <= i < j < |s| ensures le(s[i], s[j]) {
        if i > 0 {
          assert s[i] == t[i - 1] && s[j] == t[j - 1];
        } else if j > 1 {
          assert s[1] == t[0] && s[j] == t[j - 1];
        }
      }
    }
  }

  /** Sorting an already sorted sequence changes nothing. */
  lemma SortSorted<T(!new)>(s: seq<T>, le: (T, T) -> bool)
    requires TotalOrder(le) && SortedBy(s, le)
    ensures SortBy(s, le) == s
  {
    SortBySorted(s, le);
    SortedUnique(SortBy(s, le), s, le);
  }

  /** Sorting depends only on the multiset of the input. */
  lemma SortPermutation<T(!new)>(s: seq<T>, t: seq<T>, le: (T, T) -> bool)
    requires TotalOrder(le) && multiset(s) == multiset(t)
    ensures SortBy(s, le) == SortBy(t, le)
  {
    SortBySorted(s, le);
    SortBySorted(t, le);
    SortedUnique(SortBy(s, le), SortBy(t, le), le);
  }

  // ---------------------------------------------------------------------
  // Lexicographic order on lists (Python's comparison of lists)

  predicate LexLe<T(==)>(a: seq<T>, b: seq<T>, le: (T, T) -> bool)
    decreases |a|
  {
    if a == [] then true
    else if b == [] then false
    else if a[0] == b[0] then LexLe(a[1..], b[1..], le)
    else le(a[0], b[0])
  }

  function Lex<T(==)>(le: (T, T) -> bool): (seq<T>, seq<T>) -> bool {
    (a: seq<T>, b: seq<T>) => LexLe(a, b, le)
  }

  lemma {:induction false} LexReflexive<T(!new)>(a: seq<T>, le: (T, T) -> bool)
    ensures LexLe(a, a, le)
    decreases |a|
  {
    if a != [] {
      LexReflexive(a[1..], le);
    }
  }

  lemma {:induction false} LexAntisymmetric<T(!new)>(a: seq<T>, b: seq<T>, le: (T, T) -> bool)
    requires TotalOrder(le) && LexLe(a, b, le) && LexLe(b, a, le)
    ensures a == b
    decreases |a|
  {
    if a != [] && b != [] && a[0] == b[0] {
      LexAntisymmetric(a[1..], b[1..], le);
      assert a == [a[0]] + a[1..] && b == [b[0]] + b[1..];
    }
  }

  lemma {:induction false} LexTransitive<T(!new)>(a: seq<T>, b: seq<T>, c: seq<T>, le: (T, T) -> bool)
    requires TotalOrder(le) && LexLe(a, b, le) && LexLe(b, c, le)
    ensures LexLe(a, c, le)
    decreases |a|
  {
    if a != [] && b != [] && c != [] && a[0] == b[0] && b[0] == c[0] {
      LexTransitive(a[1..], b[1..], c[1..], le);
    }
  }

  lemma {:induction false} LexTotal<T(!new)>(a: seq<T>, b: seq<T>, le: (T, T) -> bool)
    requires TotalOrder(le)
    ensures LexLe(a, b, le) || LexLe(b, a, le)
    decreases |a|
  {
    if a != [] && b != [] && a[0] == b[0] {
      LexTotal(a[1..], b[1..], le);
    }
  }

  /** The lexicographic extension of a total order is a total order. */
  lemma LexTotalOrder<T(!new)>(le: (T, T) -> bool)
    requires TotalOrder(le)
    ensures TotalOrder(Lex(le))
  {
    var L := Lex(le);
    forall x ensures L(x, x) {
      LexReflexive(x, le);
    }
    forall x, y | L(x, y) && L(y, x) ensures x == y {
      LexAntisymmetric(x, y, le);
    }
    forall x, y, z | L(x, y) && L(y, z) ensures L(x, z) {
      LexTransitive(x, y, z, le);
    }
    forall x, y ensures L(x, y) || L(y, x) {
      LexTotal(x, y, le);
    }
  }

  // ---------------------------------------------------------------------
  // Canonical form of a partition: `sorted(sorted(x) for x in comp)`

  /** `f` applied to every element, in order. */
  function MapSeq<U, V>(f: U -> V, s: seq<U>): (r: seq<V>)
    ensures |r| == |s| && forall i | 0 <= i < |s| :: r[i] == f(s[i])
  {
    seq(|s|, i requires 0 <= i < |s| => f(s[i]))
  }

  lemma MultisetRemove<T>(b: seq<T>, j: nat)
    requires j < |b|
    ensures multiset(b) == multiset{b[j]} + multiset(b[..j] + b[j + 1..])
  {
    assert b == (b[..j] + [b[j]]) + b[j + 1..];
  }

  /** Removing matching elements from both sequences keeps equal multisets
      equal, and conversely. */
  lemma RemoveMatching<T>(a: seq<T>, b: seq<T>, j: nat)
    requires a != [] && j < |b| && a[0] == b[j]
    ensures multiset(a) == multiset(b) <==> multiset(a[1..]) == multiset(b[..j] + b[j + 1..])
  {
    var m := multiset{a[0]};
    assert a[..0] + a[1..] == a[1..];
    MultisetRemove(a, 0);
    MultisetRemove(b, j);
    if multiset(a) == multiset(b) {
      assert multiset(a[1..]) == multiset(a) - m;
    }
  }

  lemma MapRemove<U, V>(f: U -> V, b: seq<U>, j: nat)
    requires j < |b|
    ensures MapSeq(f, b[..j] + b[j + 1..]) == MapSeq(f, b)[..j] + MapSeq(f, b)[j + 1..]
    ensures MapSeq(f, b[1..]) == MapSeq(f, b)[1..]
  {
  }

  /** Mapping two permutations of one another gives permutations of one another. */
  lemma {:induction false} MapPermutation<U, V>(f: U -> V, a: seq<U>, b: seq<U>)
    requires multiset(a) == multiset(b)
    ensures multiset(MapSeq(f, a)) == multiset(MapSeq(f, b))
    decreases |a|
  {
    if a == [] {
      assert |b| == |multiset(b)| == 0;
    } else {
      assert a[0] in multiset(b);
      var j :| 0 <= j < |b| && b[j] == a[0];
      RemoveMatching(a, b, j);
      MapPermutation(f, a[1..], b[..j] + b[j + 1..]);
      MapRemove(f, a, 0);
      MapRemove(f, b, j);
      RemoveMatching(MapSeq(f, a), MapSeq(f, b), j);
    }
  }

  /** Conversely, when `f` tells the elements apart, permuted images come
      from permuted sequences. */
  lemma {:induction false} MapInjectivePermutation<U, V>(f: U -> V, a: seq<U>, b: seq<U>)
    requires forall x, y | x in a && y in b && f(x) == f(y) :: x == y
    requires multiset(MapSeq(f, a)) == multiset(MapSeq(f, b))
    ensures multiset(a) == multiset(b)
    decreases |a|
  {
    var fa, fb := MapSeq(f, a), MapSeq(f, b);
    if a == [] {
      assert |fb| == |multiset(fb)| == 0;
    } else {
      assert fa[0] in multiset(fb);
      var j :| 0 <= j < |fb| && fb[j] == fa[0];
      assert a[0] in a && b[j] in b;
      assert a[0] == b[j];
      var b' := b[..j] + b[j + 1..];
      MapRemove(f, a, 0);
      MapRemove(f, b, j);
      RemoveMatching(fa, fb, j);
      assert forall y | y in b' :: y in b by {
        forall y | y in b' ensures y in b {
          if y in b[..j] {
            assert y in b[..j];
          }
        }
      }
      assert forall x | x in a[1..] :: x in a;
      MapInjectivePermutation(f, a[1..], b');
      RemoveMatching(a, b, j);
    }
  }

  function Content<T>(x: seq<T>): multiset<T> {
    multiset(x)
  }

  /** The partition a list of components describes, independently of the
      order of the components and of the order inside each component. */
  function Groups<T>(c: seq<seq<T>>): multiset<multiset<T>> {
    multiset(MapSeq(Content, c))
  }

  /** Reordering inside each component leaves the groups unchanged. */
  lemma GroupsPointwise<T>(c: seq<seq<T>>, d: seq<seq<T>>)
    requires |c| == |d| && forall i | 0 <= i < |c| :: multiset(c[i]) == multiset(d[i])
    ensures Groups(c) == Groups(d)
  {
    assert MapSeq(Content, c) == MapSeq(Content, d);
  }

  /** Every component sorted, and the components in lexicographic order. */
  ghost predicate Canonical<T(!new)>(c: seq<seq<T>>, le: (T, T) -> bool) {
    && (forall i | 0 <= i < |c| :: SortedBy(c[i], le))
    && SortedBy(c, Lex(le))
  }

  /** `sorted(x)` for every component `x`. */
  function SortEach<T>(c: seq<seq<T>>, le: (T, T) -> bool): (r: seq<seq<T>>)
    ensures |r| == |c| && forall i | 0 <= i < |c| :: r[i] == SortBy(c[i], le)
  {
    MapSeq((x: seq<T>) => SortBy(x, le), c)
  }

  /** The canonical form `sorted(sorted(x) for x in c)`: it describes the same
      partition as `c`, with the same number of components. */
  function Canon<T(==)>(c: seq<seq<T>>, le: (T, T) -> bool): (r: seq<seq<T>>)
    ensures Groups(r) == Groups(c) && |r| == |c|
  {
    var m := SortEach(c, le);
    var r := SortBy(m, Lex(le));
    assert MapSeq(Content, m) == MapSeq(Content, c);
    MapPermutation(Content, m, r);
    r
  }

  lemma CanonIsCanonical<T(!new)>(c: seq<seq<T>>, le: (T, T) -> bool)
    requires TotalOrder(le)
    ensures Canonical(Canon(c, le), le)
  {
    var m := SortEach(c, le);
    var r := Canon(c, le);
    LexTotalOrder(le);
    SortBySorted(m, Lex(le));
    forall i | 0 <= i < |r| ensures SortedBy(r[i], le) {
      assert r[i] in multiset(m);
      var k :| 0 <= k < |m| && m[k] == r[i];
      SortBySorted(c[k], le);
    }
  }

  /** A canonical form is determined by the partition it describes. */
  lemma CanonicalUnique<T(!new)>(a: seq<seq<T>>, b: seq<seq<T>>, le: (T, T) -> bool)
    requires TotalOrder(le) && Canonical(a, le) && Canonical(b, le)
    requires Groups(a) == Groups(b)
    ensures a == b
  {
    forall x, y | x in a && y in b && Content(x) == Content(y)
      ensures x == y
    {
      SortedUnique(x, y, le);
    }
    MapInjectivePermutation(Content, a, b);
    LexTotalOrder(le);
    SortedUnique(a, b, Lex(le));
  }

  /** The canonical forms of two lists of components are equal exactly when
      the lists describe the same partition. */
  lemma CanonEqual<T(!new)>(a: seq<seq<T>>, b: seq<seq<T>>, le: (T, T) -> bool)
    requires TotalOrder(le)
    ensures Canon(a, le) == Canon(b, le) <==> Groups(a) == Groups(b)
  {
    if Groups(a) == Groups(b) {
      CanonIsCanonical(a, le);
      CanonIsCanonical(b, le);
      CanonicalUnique(Canon(a, le), Canon(b, le), le);
    }
  }
}
