/** `numToString` (utils.py): bijective base-26 numbering of vertex labels,
    0 -> "A", 25 -> "Z", 26 -> "AA", 27 -> "AB", ... */
module Labels {

  /** Every character is an upper-case letter. */
  predicate IsLabel(s: string) {
    forall i | 0 <= i < |s| :: 'A' <= s[i] <= 'Z'
  }

  /** The value of a letter: 'A' is 1, ..., 'Z' is 26. */
  function Digit(c: char): int {
    c as int - 'A' as int + 1
  }

  function Pow26(k: nat): (r: nat)
    ensures r >= 1
  {
    if k == 0 then 1 else 26 * Pow26(k - 1)
  }

  /** The bijective base-26 value of a label, most significant letter first:
      "A" is 1, "Z" is 26, "AA" is 27. It is the inverse of `NumToString`
      (shifted by one). */
  function Value(s: string): int {
    if s == [] then 0 else 26 * Value(s[..|s| - 1]) + Digit(s[|s| - 1])
  }

  lemma {:induction false} ValuePrepend(c: char, s: string)
    ensures Value([c] + s) == Digit(c) * Pow26(|s|) + Value(s)
    decreases |s|
  {
    if s != [] {
      var t := [c] + s;
      assert t[..|t| - 1] == [c] + s[..|s| - 1];
      ValuePrepend(c, s[..|s| - 1]);
    }
  }

  /** utils.py `numToString`: repeatedly takes the last letter off `num + 1`. */
  method NumToString(num: int) returns (s: string)
    requires num >= 0
    ensures s != [] && IsLabel(s)
    ensures Value(s) == num + 1
  {
    s := "";
    var n := num + 1;
    while n > 0
      invariant n >= 0 && IsLabel(s)
      invariant n * Pow26(|s|) + Value(s) == num + 1
      invariant s == [] ==> n == num + 1
      decreases n
    {
      var q, r := (n - 1) / 26, (n - 1) % 26;
      var c := (65 + r) as char;
      PeelLetter(n, q, r, c, s);
      n, s := q, [c] + s;
    }
  }

  /** One step of `NumToString`: moving the letter `c` from `n` to the front of `s`
      keeps `n * 26^|s| + Value(s)` unchanged. */
  lemma PeelLetter(n: int, q: int, r: int, c: char, s: string)
    requires n > 0 && q == (n - 1) / 26 && r == (n - 1) % 26 && c == (65 + r) as char
    ensures 'A' <= c <= 'Z'
    ensures q * Pow26(|[c] + s|) + Value([c] + s) == n * Pow26(|s|) + Value(s)
  {
    ValuePrepend(c, s);
    var p := Pow26(|s|);
    assert Digit(c) == r + 1;
    assert Pow26(|[c] + s|) == 26 * p;
    calc {
      q * (26 * p) + (r + 1) * p;
      (26 * q + r + 1) * p;
      n * p;
    }
  }

  /** A nonempty label has a positive value, so every nonempty label is
      the label of the number `Value(s) - 1`. */
  lemma {:induction false} ValuePositive(s: string)
    requires IsLabel(s)
    ensures s == [] <==> Value(s) == 0
    ensures Value(s) >= 0
    decreases |s|
  {
    if s != [] {
      ValuePositive(s[..|s| - 1]);
    }
  }

  /** Distinct labels have distinct values: together with `NumToString`'s
      contract, distinct numbers get distinct labels. */
  lemma {:induction false} ValueInjective(s: string, t: string)
    requires IsLabel(s) && IsLabel(t) && Value(s) == Value(t)
    ensures s == t
    decreases |s|
  {
    ValuePositive(s);
    ValuePositive(t);
    if s != [] && t != [] {
      var s', t' := s[..|s| - 1], t[..|t| - 1];
      var a, b := Digit(s[|s| - 1]) - 1, Digit(t[|t| - 1]) - 1;
      assert Value(s) - 1 == 26 * Value(s') + a && 0 <= a < 26;
      assert Value(t) - 1 == 26 * Value(t') + b && 0 <= b < 26;
      assert a == b && Value(s') == Value(t') by {
        DivMod26(Value(s) - 1, Value(s'), a);
        DivMod26(Value(t) - 1, Value(t'), b);
      }
      ValueInjective(s', t');
      assert s == s' + [s[|s| - 1]] && t == t' + [t[|t| - 1]];
    }
  }

  lemma DivMod26(x: int, q: int, r: int)
    requires x == 26 * q + r && 0 <= r < 26
    ensures q == x / 26 && r == x % 26
  {
  }

  /** The labels of 0, 25 and 26 are "A", "Z" and "AA". */
  lemma FirstLabels(s: string)
    requires IsLabel(s)
    ensures Value(s) == 0 + 1 <==> s == "A"
    ensures Value(s) == 25 + 1 <==> s == "Z"
    ensures Value(s) == 26 + 1 <==> s == "AA"
  {
    assert Value("A") == 1 by {
      assert "A"[..0] == [];
    }
    assert Value("Z") == 26 by {
      assert "Z"[..0] == [];
    }
    assert Value("AA") == 27 by {
      assert "AA"[..1] == "A" && "A"[..0] == [];
    }
    if Value(s) == 1 {
      ValueInjective(s, "A");
    }
    if Value(s) == 26 {
      ValueInjective(s, "Z");
    }
    if Value(s) == 27 {
      ValueInjective(s, "AA");
    }
  }
}
