/** The C# integer operations the core relies on, stated over mathematical integers, and a sequence predicate shared by the lists of the core. */
module Numerics {

  /** `int.MaxValue` of C#. */
  const IntMaxValue: int := 0x7FFF_FFFF

  /** No element occurs twice. */
  predicate NoDuplicates<T(==)>(s: seq<T>)
  {
    forall i, j :: 0 <= i < j < |s| ==> s[i] != s[j]
  }

  /** `Math.Min` and `Math.Max`. */
  function Min(a: int, b: int): int { if a <= b then a else b }
  function Max(a: int, b: int): int { if a <= b then b else a }

  /** `Math.Abs`. */
  function Abs(a: int): (r: int)
    ensures r >= 0 && (r == a || r == -a)
  {
    if a < 0 then -a else a
  }

  /** C# `n / 2`, which truncates toward zero (Dafny's `/` is Euclidean). */
  function Half(n: int): (r: int)
    ensures n >= 0 ==> 0 <= r && r + r <= n < r + r + 2
    ensures n < 0 ==> r <= 0 && r + r >= n > r + r - 2
  {
    if n >= 0 then n / 2 else -((-n) / 2)
  }

  /** The decimal digits of a natural number, as C# string interpolation prints them. */
  function NatToString(n: nat): (s: string)
    ensures |s| >= 1
    ensures forall i :: 0 <= i < |s| ==> '0' <= s[i] <= '9'
    decreases n
  {
    var d := [(('0' as int) + n % 10) as char];
    if n < 10 then d else NatToString(n / 10) + d
  }

  /** The number a decimal string denotes; the inverse of NatToString. */
  function DigitsValue(s: string): int
  {
    if s == [] then 0 else DigitsValue(s[..|s| - 1]) * 10 + (s[|s| - 1] as int - '0' as int)
  }

  /** Printing a number in decimal loses nothing: the digits denote the number again. */
  lemma {:induction false} NatToStringRoundTrip(n: nat)
    ensures DigitsValue(NatToString(n)) == n
    decreases n
  {
    var s := NatToString(n);
    if n >= 10 {
      NatToStringRoundTrip(n / 10);
      assert s[..|s| - 1] == NatToString(n / 10);
    } else {
      assert s[..|s| - 1] == [];
    }
  }

  /** Different numbers print differently, so generated region names are distinct. */
  lemma NatToStringInjective(m: nat, n: nat)
    requires NatToString(m) == NatToString(n)
    ensures m == n
  {
    NatToStringRoundTrip(m);
    NatToStringRoundTrip(n);
  }
}
