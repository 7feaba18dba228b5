/** Day 1: the fuel a module of a given mass needs, and the fuel that fuel
    needs in turn. Masses are `isize` in the source; here they are
    unbounded integers. */
module Day1 {

  /** Integer division rounding toward zero, as Rust's `/` on `isize`. */
  function TruncDiv3(a: int): (q: int)
    ensures a >= 0 ==> 3 * q <= a < 3 * q + 3
    ensures a < 0 ==> 3 * q - 3 < a <= 3 * q
  {
    if a >= 0 then a / 3 else -((-a) / 3)
  }

  /** `get_fuel`: a third of the mass, rounded toward zero, less two. */
  function GetFuel(mass: int): int
  {
    TruncDiv3(mass) - 2
  }

  /** The rounding is toward zero, not downward: Dafny's own `/` would give
      -5 for a mass of -7, the source gives -4. */
  lemma GetFuelRoundsTowardZero()
    ensures GetFuel(-7) == -4 && GetFuel(7) == 0
  {
  }

  /** A positive fuel amount needs strictly less fuel than itself: this is
      why the loop of `get_recursive_fuel` ends. */
  lemma FuelShrinks(f: int)
    requires f > 0
    ensures GetFuel(f) < f
    ensures 3 * GetFuel(f) <= f - 6
  {
  }

  /** The fuel amounts `f`, `get_fuel(f)`, `get_fuel(get_fuel(f))`, …
      added up while they are positive. */
  function FuelChain(f: int): (r: int)
    ensures r >= 0
    ensures r == 0 <==> f <= 0
    decreases if f > 0 then f else 0
  {
    if f <= 0 then 0
    else
      FuelShrinks(f);
      f + FuelChain(GetFuel(f))
  }

  /** `get_recursive_fuel`: the fuel for the mass, the fuel for that fuel,
      and so on while the amounts are positive. The total is never
      negative, and it is zero exactly when the mass itself needs no fuel
      (so for every mass from 0 to 8). */
  function RecursiveFuel(mass: int): (r: int)
    ensures r >= 0
    ensures r == 0 <==> GetFuel(mass) <= 0
    ensures 0 <= mass <= 8 ==> r == 0
  {
    FuelChain(GetFuel(mass))
  }

  /** `get_recursive_fuel` as the source computes it: a running total that
      starts at the mass, with the mass taken off at the end. */
  method GetRecursiveFuel(mass: int) returns (r: int)
    ensures r == RecursiveFuel(mass)
  {
    var total := mass;
    var nextFuel := GetFuel(total);
    while nextFuel > 0
      invariant total - mass + FuelChain(nextFuel) == RecursiveFuel(mass)
      decreases if nextFuel > 0 then nextFuel else 0
    {
      FuelShrinks(nextFuel);
      total := total + nextFuel;
      nextFuel := GetFuel(nextFuel);
    }
    r := total - mass;
  }

  /** Each amount is at most a third of the one before, so the whole chain
      is at most one and a half times its first term. */
  lemma {:induction false} FuelChainBound(f: int)
    ensures 2 * FuelChain(f) <= 3 * (if f > 0 then f else 0)
    decreases if f > 0 then f else 0
  {
    if f > 0 {
      FuelShrinks(f);
      FuelChainBound(GetFuel(f));
    }
  }

  /** The asserted example: a mass of 1969 needs 966 in all
      (654 + 216 + 70 + 21 + 5). */
  lemma Example1969()
    ensures RecursiveFuel(1969) == 966
  {
    assert GetFuel(1969) == 654;
    assert GetFuel(654) == 216;
    assert GetFuel(216) == 70;
    assert GetFuel(70) == 21;
    assert GetFuel(21) == 5;
    assert GetFuel(5) == -1;
    assert FuelChain(5) == 5;
    assert FuelChain(21) == 26;
    assert FuelChain(70) == 96;
    assert FuelChain(216) == 312;
  }
}
