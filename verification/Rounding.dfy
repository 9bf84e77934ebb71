/** Two-decimal rounding of day balances: Math.round(n * 100) / 100 over exact reals. */
module Rounding {

  function Round(n: real): real {
    (n * 100.0 + 0.5).Floor as real / 100.0
  }

  /** The nearest hundredth, the upper one of two equally near. */
  lemma RoundIsNearest(x: real)
    ensures Round(x) - 0.005 <= x < Round(x) + 0.005
    ensures (Round(x) * 100.0).Floor as real == Round(x) * 100.0
  {
    var f := (x * 100.0 + 0.5).Floor;
    assert Round(x) * 100.0 == f as real;
  }

  lemma FloorShift(x: real, k: int)
    ensures (x + k as real).Floor == x.Floor + k
  {
    var f := x.Floor;
    assert f as real <= x < (f + 1) as real;
    assert (f + k) as real <= x + k as real < (f + k + 1) as real;
  }

  lemma RoundShift(x: real, d: int)
    ensures Round(x - d as real) == Round(x) - d as real
  {
    FloorShift(x * 100.0 + 0.5, -100 * d);
    assert (x - d as real) * 100.0 + 0.5 == x * 100.0 + 0.5 + (-100 * d) as real;
  }

  /** A whole number of days fits a rounded balance exactly when it overdraws the balance by at most 0.005. */
  lemma RoundAtLeast(x: real, d: int)
    ensures Round(x) >= d as real <==> x - d as real >= -0.005
  {
    var f := (x * 100.0 + 0.5).Floor;
    if Round(x) >= d as real {
      assert f >= 100 * d;
    }
    if x - d as real >= -0.005 {
      assert x * 100.0 + 0.5 >= (100 * d) as real;
      assert f >= 100 * d;
    }
  }

  /** Rounding a rounded value again changes nothing. */
  lemma RoundTwice(x: real, d: int)
    ensures Round(Round(x) - d as real) == Round(x - d as real)
  {
    var f := (x * 100.0 + 0.5).Floor;
    FloorShift(0.5, f);
    assert Round(x) * 100.0 + 0.5 == 0.5 + f as real;
    assert Round(Round(x)) == Round(x);
    RoundShift(Round(x), d);
    RoundShift(x, d);
  }

  lemma RoundMonotone(x: real, y: real)
    requires x <= y
    ensures Round(x) <= Round(y)
  {
    var f, g := (x * 100.0 + 0.5).Floor, (y * 100.0 + 0.5).Floor;
    assert f as real <= x * 100.0 + 0.5 <= y * 100.0 + 0.5 < (g + 1) as real;
    assert f <= g;
  }
}
