/** `Number(value.toFixed(4))` on exact reals: the nearest multiple of 1/10000,
    halves away from zero (section 21.1.3.3 of ECMA-262). */
module Rounding {
  const SCALE: real := 10000.0

  function NearestTick(x: real): int
    requires x >= 0.0
  {
    (x * SCALE + 0.5).Floor
  }

  function Rounded(x: real): real {
    if x >= 0.0 then GridPoint(NearestTick(x)) else -GridPoint(NearestTick(-x))
  }

  function GridPoint(k: int): real {
    k as real / SCALE
  }

  ghost predicate OnGrid(x: real) {
    exists k: int :: x == GridPoint(k)
  }

  lemma FloorMonotone(x: real, y: real)
    requires x <= y
    ensures x.Floor <= y.Floor
  {
  }

  lemma GridMonotone(a: int, b: int)
    requires a <= b
    ensures GridPoint(a) <= GridPoint(b)
  {
  }

  lemma RoundedIsMonotone(x: real, y: real)
    requires x <= y
    ensures Rounded(x) <= Rounded(y)
  {
    if x >= 0.0 {
      FloorMonotone(x * SCALE + 0.5, y * SCALE + 0.5);
      GridMonotone(NearestTick(x), NearestTick(y));
    } else if y >= 0.0 {
      GridMonotone(0, NearestTick(y));
      GridMonotone(0, NearestTick(-x));
    } else {
      FloorMonotone(-y * SCALE + 0.5, -x * SCALE + 0.5);
      GridMonotone(NearestTick(-y), NearestTick(-x));
    }
  }

  /** Rounding is the nearest grid value: on the grid, at most half a step away. */
  lemma RoundedIsNearest(x: real)
    ensures OnGrid(Rounded(x))
    ensures -0.00005 <= Rounded(x) - x <= 0.00005
  {
    if x >= 0.0 {
      assert Rounded(x) == GridPoint(NearestTick(x));
    } else {
      assert Rounded(x) == GridPoint(-NearestTick(-x));
    }
  }

  /** A value half a step from two grid points goes to the one farther from zero. */
  lemma TiesGoAwayFromZero(k: nat)
    ensures Rounded((k as real + 0.5) / SCALE) == GridPoint(k + 1)
    ensures Rounded(-((k as real + 0.5) / SCALE)) == GridPoint(-(k + 1))
  {
    var x := (k as real + 0.5) / SCALE;
    assert x * SCALE + 0.5 == (k + 1) as real;
    assert NearestTick(x) == k + 1;
    assert -GridPoint(k + 1) == GridPoint(-(k + 1));
  }

  lemma ScaledGridPoint(k: int)
    ensures GridPoint(k) * SCALE == k as real
    ensures (k as real + 0.5).Floor == k
  {
  }

  lemma RoundedFixesGrid(x: real)
    requires OnGrid(x)
    ensures Rounded(x) == x
  {
    var k: int :| x == GridPoint(k);
    ScaledGridPoint(k);
    ScaledGridPoint(-k);
    assert GridPoint(-k) == -GridPoint(k);
    if x >= 0.0 {
      assert NearestTick(x) == k;
    } else {
      assert NearestTick(-x) == -k;
    }
  }

  lemma RoundedKeepsUnitInterval(x: real)
    requires 0.0 <= x <= 1.0
    ensures 0.0 <= Rounded(x) <= 1.0
  {
    RoundedIsMonotone(0.0, x);
    RoundedIsMonotone(x, 1.0);
    assert 0.0 == GridPoint(0) && 1.0 == GridPoint(10000);
    RoundedFixesGrid(0.0);
    RoundedFixesGrid(1.0);
  }
}
