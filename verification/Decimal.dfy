/** Canonical decimal text, as the sources print and re-read identifiers and milliseconds. */
module Decimal {
  import opened Prelude

  predicate Digit(c: char) {
    '0' <= c <= '9'
  }

  predicate Digits(s: string) {
    forall i :: 0 <= i < |s| ==> Digit(s[i])
  }

  /** `to_string` of an unsigned integer. */
  function Print(n: nat): (s: string)
    ensures s != [] && Digits(s)
  {
    var last := [('0' as int + n % 10) as char];
    if n < 10 then last else Print(n / 10) + last
  }

  /** The number a run of digits spells. */
  function Value(s: string): nat
    requires Digits(s)
  {
    if s == [] then 0 else 10 * Value(s[..|s| - 1]) + (s[|s| - 1] as int - '0' as int)
  }

  /** The number whose canonical text this is, if it fits a signed 64-bit column. */
  function Read(s: string): (r: Option<nat>)
    ensures r.Some? ==> r.value <= I64_MAX && s == Print(r.value)
  {
    if s != [] && Digits(s) && Value(s) <= I64_MAX && Print(Value(s)) == s then Some(Value(s)) else None
  }

  lemma {:induction false} ValueOfPrint(n: nat)
    ensures Value(Print(n)) == n
  {
    var s := Print(n);
    if n >= 10 {
      ValueOfPrint(n / 10);
      assert s[..|s| - 1] == Print(n / 10);
    }
  }

  /** Printing and reading are inverse on the whole range. */
  lemma ReadPrint(n: nat)
    requires n <= I64_MAX
    ensures Read(Print(n)) == Some(n)
  {
    ValueOfPrint(n);
  }
}
