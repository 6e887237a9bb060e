/** The strike window around the spot price: a band of 2 * StrikeSpread,
    its bounds rounded down to a multiple of StrikeStep, holding exactly the
    multiples of StrikeStep from the lower bound to the upper bound inclusive. */
module Strikes {
  const StrikeSpread: int := 15000
  const StrikeStep: int := 100

  /** The lower bound: spot - StrikeSpread rounded down to a multiple of StrikeStep. */
  function Lower(spot: real): (lo: int)
    ensures lo % StrikeStep == 0
    ensures lo as real <= spot - StrikeSpread as real < (lo + StrikeStep) as real
  {
    ((spot - StrikeSpread as real) / StrikeStep as real).Floor * StrikeStep
  }

  /** The upper bound: spot + StrikeSpread rounded down to a multiple of StrikeStep. */
  function Upper(spot: real): (hi: int)
    ensures hi % StrikeStep == 0
    ensures hi as real <= spot + StrikeSpread as real < (hi + StrikeStep) as real
  {
    ((spot + StrikeSpread as real) / StrikeStep as real).Floor * StrikeStep
  }

  /** Since StrikeSpread is a multiple of StrikeStep, the window is exactly
      2 * StrikeSpread wide whatever the spot price. */
  lemma WindowWidth(spot: real)
    ensures Lower(spot) <= Upper(spot)
    ensures Upper(spot) - Lower(spot) == 2 * StrikeSpread
  {
    var x := (spot - StrikeSpread as real) / StrikeStep as real;
    assert (spot + StrikeSpread as real) / StrikeStep as real == x + 300 as real;
    assert (x + 300 as real).Floor == x.Floor + 300;
  }

  /** The numbers from start up to but excluding stop, in steps of StrikeStep. */
  function StepRange(start: int, stop: int): seq<int>
    decreases stop - start
  {
    if start >= stop then [] else [start] + StepRange(start + StrikeStep, stop)
  }

  /** The members of StepRange(start, stop): from start, below stop,
      in steps of StrikeStep. */
  lemma {:induction false} StepRangeMembers(start: int, stop: int, x: int)
    ensures x in StepRange(start, stop) <==> start <= x < stop && (x - start) % StrikeStep == 0
    decreases stop - start
  {
    if start < stop {
      StepRangeMembers(start + StrikeStep, stop, x);
      assert (x - start) % StrikeStep == (x - (start + StrikeStep)) % StrikeStep;
    }
  }

  /** The window as a set: every step from the lower bound to the upper bound inclusive. */
  function StrikeRange(spot: real): set<int> {
    var r := StepRange(Lower(spot), Upper(spot) + 1);
    set k | 0 <= k < |r| :: r[k]
  }

  /** A strike is in the window iff it is a multiple of StrikeStep between the
      bounds inclusive: membership, not a continuous range check. */
  lemma InStrikeRange(spot: real, strike: int)
    ensures strike in StrikeRange(spot) <==>
              Lower(spot) <= strike <= Upper(spot) && strike % StrikeStep == 0
  {
    var lo, hi := Lower(spot), Upper(spot);
    var r := StepRange(lo, hi + 1);
    StepRangeMembers(lo, hi + 1, strike);
    assert (strike - lo) % StrikeStep == strike % StrikeStep by {
      assert lo == lo / StrikeStep * StrikeStep;
    }
    if strike in r {
      var j :| 0 <= j < |r| && r[j] == strike;
    }
  }

  /** Every member of the window is a multiple of the step. */
  lemma StrikeRangeStepped(spot: real)
    ensures forall k :: k in StrikeRange(spot) ==> k % StrikeStep == 0
  {
    forall k | k in StrikeRange(spot) ensures k % StrikeStep == 0 {
      InStrikeRange(spot, k);
    }
  }

  /** Spot 70000: the window is 55000..85000, so 85000 qualifies, 85050 and 85100 do not. */
  lemma Spot70000Window()
    ensures Lower(70000.0) == 55000 && Upper(70000.0) == 85000
    ensures 55000 in StrikeRange(70000.0) && 85000 in StrikeRange(70000.0)
    ensures 54900 !in StrikeRange(70000.0)
    ensures 85050 !in StrikeRange(70000.0) && 85100 !in StrikeRange(70000.0)
  {
    assert (70000.0 - 15000.0) / 100.0 == 550.0;
    assert (70000.0 + 15000.0) / 100.0 == 850.0;
    InStrikeRange(70000.0, 55000);
    InStrikeRange(70000.0, 85000);
    InStrikeRange(70000.0, 54900);
    InStrikeRange(70000.0, 85050);
    InStrikeRange(70000.0, 85100);
  }
}
