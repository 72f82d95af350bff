/**
 * The JavaScript built-ins the overlay code leans on, restated on Dafny values:
 * `indexOf` on arrays and strings, and the decimal formatting of a
 * non-negative integer inside a template string.
 */
module Builtins {

  /** `indexOf` for one element: a position of `x` in `s`, or -1. */
  function IndexOf<T(==)>(s: seq<T>, x: T): (i: int)
    ensures -1 <= i < |s|
    ensures 0 <= i ==> s[i] == x
    decreases |s|
  {
    if |s| == 0 then -1
    else if s[0] == x then 0
    else
      var k := IndexOf(s[1..], x);
      if k < 0 then -1 else k + 1
  }

  /** `indexOf` answers -1 exactly for a missing element, and otherwise its first position. */
  lemma {:induction false} IndexOfSpec<T>(s: seq<T>, x: T)
    ensures IndexOf(s, x) == -1 <==> x !in s
    ensures 0 <= IndexOf(s, x) ==> x !in s[..IndexOf(s, x)]
    decreases |s|
  {
    if |s| > 0 && s[0] != x {
      IndexOfSpec(s[1..], x);
      var k := IndexOf(s[1..], x);
      assert s == [s[0]] + s[1..];
      if k >= 0 {
        assert s[..k + 1] == [s[0]] + s[1..][..k];
      }
    }
  }

  /** The decimal digit character for `d`. */
  function Digit(d: nat): (c: char)
    requires d < 10
    ensures '0' <= c <= '9'
  {
    (48 + d) as char
  }

  predicate IsDigit(c: char) {
    '0' <= c <= '9'
  }

  /** `${n}` for a non-negative integer: its decimal digits, most significant first. */
  function NumberToString(n: nat): (s: string)
    ensures 1 <= |s|
    ensures |s| == 1 <==> n < 10
    ensures s[|s| - 1] == Digit(n % 10)
    decreases n
  {
    if n < 10 then [Digit(n)] else NumberToString(n / 10) + [Digit(n % 10)]
  }

  /** `${n}` is made of decimal digits only. */
  lemma {:induction false} NumberToStringDigits(n: nat)
    ensures forall i :: 0 <= i < |NumberToString(n)| ==> IsDigit(NumberToString(n)[i])
    decreases n
  {
    if n >= 10 {
      NumberToStringDigits(n / 10);
    }
  }

  /** Distinct numbers print differently. */
  lemma {:induction false} NumberToStringInjective(a: nat, b: nat)
    requires NumberToString(a) == NumberToString(b)
    ensures a == b
    decreases a
  {
    var s := NumberToString(a);
    if a >= 10 && b >= 10 {
      assert a % 10 == b % 10 by {
        assert Digit(a % 10) == Digit(b % 10);
      }
      assert NumberToString(a / 10) == s[..|s| - 1] == NumberToString(b / 10);
      NumberToStringInjective(a / 10, b / 10);
    }
  }
}
