/** Shared vocabulary of the model: optional values, results of the
    validating constructors, and a few facts about sequences. */
module Base {

  /** An optional value; replaces the `-1` sentinel and `None` defaults of the source. */
  datatype Option<T> = None | Some(value: T)

  /** The outcome of a validating constructor: the value, or the check that failed. */
  datatype Result<T> = Ok(value: T) | Err(error: Error)

  /** The validation failures of the graph, partition and attachment checks. */
  datatype Error =
    | DuplicateVertex      // a vertex listed twice (graph vertex list, or across SCC components)
    | UnknownVertex        // an adjacency entry that names a vertex outside the vertex list
    | MissingAdjacency     // a vertex without an adjacency entry
    | MissingReverseEdge   // a BCC component holding (i, j) but not (j, i)
    | DuplicateEdge        // an edge pair occurring twice across a BCC
    | AttachmentMismatch   // an SCC/BCC that does not fit the graph it is attached to

  /** The three values of a search's `status` dictionary: not reached yet,
      reached and not finished (what "finished" means is the solver's), finished. */
  datatype Status = Unknown | Progress | Known

  // A sequence split into the part handled and the part to come.

  lemma SplitStart<T>(s: seq<T>)
    ensures s == [] + s
  {
  }

  lemma SplitNext<T>(s: seq<T>, pre: seq<T>, rest: seq<T>)
    requires s == pre + rest && rest != []
    ensures s == (pre + [rest[0]]) + rest[1..]
  {
  }

  lemma SplitEnd<T>(s: seq<T>, pre: seq<T>)
    requires s == pre + []
    ensures s == pre
  {
  }

  /** Pops `stack` from its top down to and including the first `v`: the
      stack left over and the popped elements in popping order. An empty
      stack stops the popping. */
  function PopUntil<T(==)>(v: T, stack: seq<T>): (r: (seq<T>, seq<T>))
    decreases |stack|
  {
    if stack == [] then ([], [])
    else
      var x := stack[|stack| - 1];
      if x == v then (stack[..|stack| - 1], [x])
      else
        var r := PopUntil(v, stack[..|stack| - 1]);
        (r.0, [x] + r.1)
  }

  /** Popping down to `v`, which sits above the prefix `p` and occurs only once. */
  lemma {:induction false} PopUntilSplit<T>(v: T, p: seq<T>, q: seq<T>)
    requires v !in q
    ensures PopUntil(v, p + [v] + q).0 == p
    ensures multiset(PopUntil(v, p + [v] + q).1) == multiset([v] + q)
    decreases |q|
  {
    var s := p + [v] + q;
    if q == [] {
      assert s[..|s| - 1] == p;
    } else {
      var q' := q[..|q| - 1];
      assert s[..|s| - 1] == p + [v] + q';
      assert s[|s| - 1] == q[|q| - 1];
      PopUntilSplit(v, p, q');
      assert q == q' + [q[|q| - 1]];
    }
  }

  function Min(a: int, b: int): int {
    if a <= b then a else b
  }

  /** No element occurs twice. */
  predicate NoDup<T(==)>(s: seq<T>) {
    forall i, j | 0 <= i < j < |s| :: s[i] != s[j]
  }

  /** Concatenation of a sequence of sequences, in order. */
  function Flatten<T>(c: seq<seq<T>>): (r: seq<T>)
    ensures |c| == 0 ==> r == []
  {
    if c == [] then [] else c[0] + Flatten(c[1..])
  }

  lemma FlattenAppend<T>(c: seq<seq<T>>, d: seq<seq<T>>)
    ensures Flatten(c + d) == Flatten(c) + Flatten(d)
  {
    if c == [] {
      assert c + d == d;
    } else {
      assert (c + d)[1..] == c[1..] + d;
    }
  }

  /** A member of the flattened sequence lies in one of the parts, and conversely. */
  lemma FlattenMember<T>(c: seq<seq<T>>, x: T)
    ensures x in Flatten(c) <==> exists i :: 0 <= i < |c| && x in c[i]
  {
    if c != [] {
      FlattenMember(c[1..], x);
      if x in Flatten(c[1..]) {
        var i :| 0 <= i < |c[1..]| && x in c[1..][i];
        assert x in c[i + 1];
      }
      if exists i :: 0 <= i < |c| && x in c[i] {
        var i :| 0 <= i < |c| && x in c[i];
        if i > 0 {
          assert x in c[1..][i - 1];
        }
      }
    }
  }

  /** Without duplicates, a sequence has exactly as many elements as its set. */
  lemma NoDupCard<T>(s: seq<T>)
    requires NoDup(s)
    ensures |set x | x in s| == |s|
  {
    if s != [] {
      NoDupCard(s[1..]);
      assert (set x | x in s) == (set x | x in s[1..]) + {s[0]};
      assert s[0] !in s[1..];
    }
  }

  /** A duplicate-free sequence is exactly a sequence whose multiset counts every element at most once. */
  lemma NoDupMultiset<T>(s: seq<T>)
    ensures NoDup(s) <==> forall x | x in multiset(s) :: multiset(s)[x] == 1
  {
    if s != [] {
      NoDupMultiset(s[1..]);
      assert s == [s[0]] + s[1..];
      if NoDup(s) {
        assert s[0] !in s[1..];
      }
      if forall x | x in multiset(s) :: multiset(s)[x] == 1 {
        forall x | x in multiset(s[1..])
          ensures multiset(s[1..])[x] == 1
        {
          assert multiset(s)[x] == multiset(s[1..])[x] + (if x == s[0] then 1 else 0);
        }
        assert multiset(s)[s[0]] == multiset(s[1..])[s[0]] + 1;
        assert s[0] !in s[1..];
        forall i, j | 0 <= i < j < |s|
          ensures s[i] != s[j]
        {
          if i > 0 {
            assert s[i] == s[1..][i - 1] && s[j] == s[1..][j - 1];
          } else {
            assert s[j] in s[1..];
          }
        }
      }
    }
  }

  lemma NoDupSnoc<T>(s: seq<T>, x: T)
    requires NoDup(s) && x !in s
    ensures NoDup(s + [x])
  {
    var t := s + [x];
    forall i, j | 0 <= i < j < |t| ensures t[i] != t[j] {
      if j == |s| {
        assert t[i] == s[i];
      } else {
        assert t[i] == s[i] && t[j] == s[j];
      }
    }
  }

  /** The two parts of a duplicate-free concatenation are duplicate-free and disjoint. */
  lemma NoDupSplit<T>(s: seq<T>, t: seq<T>)
    requires NoDup(s + t)
    ensures NoDup(s) && NoDup(t)
    ensures forall x | x in s :: x !in t
  {
    var u := s + t;
    assert forall i | 0 <= i < |s| :: u[i] == s[i];
    assert forall j | 0 <= j < |t| :: u[|s| + j] == t[j];
  }

  /** Two duplicate-free, disjoint sequences concatenate to a duplicate-free one. */
  lemma NoDupConcat<T>(s: seq<T>, t: seq<T>)
    requires NoDup(s) && NoDup(t) && forall x | x in s :: x !in t
    ensures NoDup(s + t)
  {
    var u := s + t;
    forall i, j | 0 <= i < j < |u| ensures u[i] != u[j] {
      if j < |s| {
        assert u[i] == s[i] && u[j] == s[j];
      } else if i < |s| {
        assert u[i] == s[i] && u[j] == t[j - |s|];
        assert s[i] in s && t[j - |s|] in t;
      } else {
        assert u[i] == t[i - |s|] && u[j] == t[j - |s|];
      }
    }
  }

  /** `s` is an initial part of `t`. */
  predicate Prefix<T(==)>(s: seq<T>, t: seq<T>) {
    |s| <= |t| && t[..|s|] == s
  }

  lemma PrefixTrans<T>(s: seq<T>, t: seq<T>, u: seq<T>)
    requires Prefix(s, t) && Prefix(t, u)
    ensures Prefix(s, u)
  {
    assert u[..|s|] == u[..|t|][..|s|];
  }

  /** Two duplicate-free sequences with the same members are permutations of each other. */
  lemma NoDupSameMembers<T>(s: seq<T>, t: seq<T>)
    requires NoDup(s) && NoDup(t) && forall x :: x in s <==> x in t
    ensures multiset(s) == multiset(t)
  {
    NoDupMultiset(s);
    NoDupMultiset(t);
    forall x
      ensures multiset(s)[x] == multiset(t)[x]
    {
      if x in s {
        assert x in multiset(s) && x in multiset(t);
      } else {
        assert x !in multiset(s) && x !in multiset(t);
      }
    }
  }

  /** Equal multisets have the same members. */
  lemma SameMembers<T>(s: seq<T>, t: seq<T>)
    requires multiset(s) == multiset(t)
    ensures forall x :: x in s <==> x in t
  {
    forall x ensures x in s <==> x in t {
      assert x in s <==> x in multiset(s);
      assert x in t <==> x in multiset(t);
    }
  }

  /** Reordering keeps a sequence duplicate-free. */
  lemma NoDupPermutation<T>(s: seq<T>, t: seq<T>)
    requires NoDup(s) && multiset(s) == multiset(t)
    ensures NoDup(t)
  {
    NoDupMultiset(s);
    NoDupMultiset(t);
  }
}
