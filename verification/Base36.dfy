/** Message identifiers: positions in the index written in base 36. */
module Base36 {
  // The lists of members kept with a conversation are sorted as strings, so the
  // order of identifiers is the lexicographic order of their digits.

  /** Digits, most significant first; zero is the single digit 0. */
  function Digits(n: nat): (ds: seq<nat>)
    ensures ds != []
    ensures forall i :: 0 <= i < |ds| ==> ds[i] < 36
  {
    if n < 36 then [n] else Digits(n / 36) + [n % 36]
  }

  /** What `int(text, 36)` computes. */
  function Value(ds: seq<nat>): nat {
    if ds == [] then 0 else Value(ds[..|ds| - 1]) * 36 + ds[|ds| - 1]
  }

  lemma {:induction false} ValueOfDigits(n: nat)
    ensures Value(Digits(n)) == n
  {
    if n < 36 {
      assert Value([n]) == Value([]) * 36 + n;
    } else {
      ValueOfDigits(n / 36);
      var ds := Digits(n);
      assert ds[..|ds| - 1] == Digits(n / 36);
    }
  }

  /** The canonical writing: no other text without leading zeros denotes n. */
  lemma {:induction false} DigitsOfValue(ds: seq<nat>)
    requires ds != [] && (forall i :: 0 <= i < |ds| ==> ds[i] < 36) && (ds[0] != 0 || |ds| == 1)
    ensures Digits(Value(ds)) == ds
    ensures |ds| > 1 ==> Value(ds) >= 36
  {
    var front, last := ds[..|ds| - 1], ds[|ds| - 1];
    assert front + [last] == ds;
    if |ds| == 1 {
      assert Value(front) == 0;
    } else {
      DigitsOfValue(front);
      assert Value(front) > 0 by {
        if |front| == 1 { assert Value(front[..0]) == 0; }
      }
    }
  }

  /** The conversion loop: least significant digits first, then reversed. */
  method Encode(number: int) returns (ds: seq<nat>)
    ensures ds == Digits(if number < 0 then 0 else number)
  {
    if number <= 0 {
      return [0];
    }
    var n: nat := number;
    ds := [];
    while n > 0
      invariant n > 0 ==> Digits(number) == Digits(n) + ds
      invariant n == 0 ==> ds == Digits(number)
    {
      if n >= 36 {
        assert Digits(n) == Digits(n / 36) + [n % 36];
        assert Digits(n) + ds == Digits(n / 36) + ([n % 36] + ds);
      }
      n, ds := n / 36, [n % 36] + ds;
    }
  }

  /** String comparison of two identifiers. */
  predicate LexLess(a: seq<nat>, b: seq<nat>) {
    b != [] && (a == [] || a[0] < b[0] || (a[0] == b[0] && LexLess(a[1..], b[1..])))
  }

  lemma LexTotal(a: seq<nat>, b: seq<nat>)
    ensures LexLess(a, b) || LexLess(b, a) || a == b
    ensures !(LexLess(a, b) && LexLess(b, a))
  {
    if a != [] && b != [] && a[0] == b[0] {
      LexTotal(a[1..], b[1..]);
      assert a == [a[0]] + a[1..] && b == [b[0]] + b[1..];
    }
  }

  lemma LexTransitive(a: seq<nat>, b: seq<nat>, c: seq<nat>)
    requires LexLess(a, b) && LexLess(b, c)
    ensures LexLess(a, c)
  {
    if a != [] && a[0] == b[0] && b[0] == c[0] {
      LexTransitive(a[1..], b[1..], c[1..]);
    }
  }

  predicate MidBefore(a: nat, b: nat) {
    LexLess(Digits(a), Digits(b))
  }

  lemma MidTotal(a: nat, b: nat)
    ensures MidBefore(a, b) || MidBefore(b, a) || a == b
    ensures !(MidBefore(a, b) && MidBefore(b, a))
  {
    LexTotal(Digits(a), Digits(b));
    ValueOfDigits(a);
    ValueOfDigits(b);
  }

  /** x is the least identifier of s. */
  predicate IsFirst(s: set<nat>, x: nat) {
    x in s && forall y <- s :: y == x || MidBefore(x, y)
  }

  lemma {:induction false} FirstExists(s: set<nat>)
    requires s != {}
    ensures exists x :: IsFirst(s, x)
  {
    var z :| z in s;
    var rest := s - {z};
    if rest == {} {
      assert forall y <- s :: y == z || y in rest;
      assert IsFirst(s, z);
    } else {
      FirstExists(rest);
      var x :| IsFirst(rest, x);
      MidTotal(x, z);
      if MidBefore(x, z) {
        assert IsFirst(s, x);
      } else {
        forall y | y in s ensures y == z || MidBefore(z, y) {
          if y != z && y != x {
            assert y in rest;
            LexTransitive(Digits(z), Digits(x), Digits(y));
          }
        }
        assert IsFirst(s, z);
      }
    }
  }

  lemma FirstUnique(s: set<nat>)
    ensures forall x, y :: IsFirst(s, x) && IsFirst(s, y) ==> x == y
  {
    forall x, y | IsFirst(s, x) && IsFirst(s, y) ensures x == y {
      MidTotal(x, y);
    }
  }

  /** `sorted(set)` on identifiers. */
  function SortMids(s: set<nat>): (r: seq<nat>)
    ensures forall x :: x in r <==> x in s
    ensures forall i, j :: 0 <= i < j < |r| ==> MidBefore(r[i], r[j]) && r[i] != r[j]
  {
    if s == {} then [] else
      FirstExists(s);
      FirstUnique(s);
      var x :| IsFirst(s, x);
      var rest := SortMids(s - {x});
      assert forall j :: 0 <= j < |rest| ==> rest[j] in s - {x};
      [x] + rest
  }
}
