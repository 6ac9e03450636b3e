/** Amounts: requests carry unbounded decimals, the tables store NUMERIC(18,4).
    A stored amount is an integer number of units of 10^-4. */
module Money {
  import opened Common

  const UNITS_PER_ONE := 10000.0

  /** NUMERIC(18,4) holds 18 digits, so fewer than this many units. */
  const UNIT_LIMIT := 1_000_000_000_000_000_000

  function ToDecimal(units: int): real {
    units as real / UNITS_PER_ONE
  }

  /** The store rounds a decimal to four places, halves away from zero. */
  function RoundToUnits(amount: real): int {
    if amount >= 0.0
    then (amount * UNITS_PER_ONE + 0.5).Floor
    else -((-amount * UNITS_PER_ONE + 0.5).Floor)
  }

  /** What a NUMERIC(18,4) CHECK (amount > 0) column does with an incoming decimal. */
  function StoreAmount(amount: real): Result<int, Error> {
    var units := RoundToUnits(amount);
    if !(-UNIT_LIMIT < units < UNIT_LIMIT) then Failure(AmountRejected)
    else if units <= 0 then Failure(AmountRejected)
    else Success(units)
  }

  lemma RoundingIsMonotone(x: real, y: real)
    requires x <= y
    ensures RoundToUnits(x) <= RoundToUnits(y)
  {
  }

  /** A multiple of 10^-4 is stored as it is. */
  lemma RoundingFixesStoredAmounts(units: int)
    ensures RoundToUnits(ToDecimal(units)) == units
  {
    if units >= 0 {
      assert ToDecimal(units) * UNITS_PER_ONE + 0.5 == units as real + 0.5;
    } else {
      assert -ToDecimal(units) * UNITS_PER_ONE + 0.5 == (-units) as real + 0.5;
    }
  }

  /** A request accepted against a balance never stores more than that balance. */
  lemma RoundingStaysWithinBalance(amount: real, balance: int)
    requires amount <= ToDecimal(balance)
    ensures RoundToUnits(amount) <= balance
  {
    RoundingIsMonotone(amount, ToDecimal(balance));
    RoundingFixesStoredAmounts(balance);
  }

  /** Rounding is to the nearest unit, and a half is rounded away from zero. */
  lemma RoundsHalfAwayFromZero(amount: real, units: int)
    ensures RoundToUnits(amount) == units <==>
            if amount >= 0.0 then -0.00005 < ToDecimal(units) - amount <= 0.00005
            else -0.00005 <= ToDecimal(units) - amount < 0.00005
  {
    var shifted := (if amount >= 0.0 then amount else -amount) * UNITS_PER_ONE + 0.5;
    assert shifted - 1.0 < shifted.Floor as real <= shifted;
  }

  /** Exactly which decimals a money column takes: at least half a unit, and
      rounding to at most eighteen digits. */
  lemma StorableExactly(amount: real)
    ensures StoreAmount(amount).Success? <==>
            0.00005 <= amount < 99999999999999.99995
    ensures StoreAmount(amount).Success? ==>
              && amount - 0.00005 < ToDecimal(StoreAmount(amount).value) <= amount + 0.00005
  {
    if amount >= 0.0 {
      var shifted := amount * UNITS_PER_ONE + 0.5;
      assert shifted - 1.0 < shifted.Floor as real <= shifted;
    }
  }
}
