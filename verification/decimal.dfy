/** Decimal text of a number, most significant digit first, as
    `format!("{}")` writes it and `str::parse` reads it (days 3 and 4). */
module Decimal {

  /** The decimal digits of `n`, most significant first. */
  function Digits(n: nat): (d: seq<int>)
    ensures |d| >= 1
    ensures forall i :: 0 <= i < |d| ==> 0 <= d[i] <= 9
    ensures n >= 10 ==> d[0] != 0
    ensures n >= 100 ==> |d| >= 3
  {
    if n < 10 then [n] else Digits(n / 10) + [n % 10]
  }

  /** The number a digit sequence spells; digits 0 to 9 spell a natural
      number. */
  function Value(d: seq<int>): (v: int)
    ensures (forall i :: 0 <= i < |d| ==> 0 <= d[i] <= 9) ==> v >= 0
  {
    if d == [] then 0 else 10 * Value(d[..|d| - 1]) + d[|d| - 1]
  }

  /** Reading the digits back gives the number. */
  lemma {:induction false} DigitsValue(n: nat)
    ensures Value(Digits(n)) == n
  {
    if n >= 10 {
      var d := Digits(n);
      assert d[..|d| - 1] == Digits(n / 10);
      DigitsValue(n / 10);
    }
  }
}
