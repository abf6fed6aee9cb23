/** Integer stand-ins for the few real-valued expressions of the program:
    `Math.round` of a ratio and `Math.min`. */
module Numbers {

  /** `Math.round(a / b)` for `a >= 0`, `b > 0`: the integer nearest to
      `a / b`, a half rounded up. */
  function RoundDiv(a: nat, b: nat): (r: nat)
    requires b > 0
    ensures 2 * b * r <= 2 * a + b < 2 * b * (r + 1)
  {
    var q := (2 * a + b) / (2 * b);
    assert 2 * a + b == 2 * b * q + (2 * a + b) % (2 * b);
    q
  }

  /** `Math.round(100 * part / whole)`. */
  function Percent(part: nat, whole: nat): (r: nat)
    requires whole > 0
    ensures part <= whole ==> r <= 100
  {
    var r := RoundDiv(100 * part, whole);
    assert part <= whole ==> r <= 100 by {
      if part <= whole && r > 100 {
        assert 2 * whole * r >= 2 * whole * 101 by {
          MulMono(2 * whole, 101, r);
        }
        assert false;
      }
    }
    r
  }

  lemma MulMono(c: nat, x: nat, y: nat)
    requires x <= y
    ensures c * x <= c * y
  {
  }

  /** A rounded percentage reaches `p` exactly when the ratio reaches
      `p - 1/2` percent: `200 * part + whole >= 2 * p * whole`. */
  lemma PercentAtLeast(part: nat, whole: nat, p: nat)
    requires whole > 0
    ensures Percent(part, whole) >= p <==> 200 * part + whole >= 2 * p * whole
  {
    var r := Percent(part, whole);
    if r >= p {
      MulMono(2 * whole, p, r);
    } else {
      MulMono(2 * whole, r + 1, p);
    }
  }

  /** A larger part never has a smaller rounded percentage. */
  lemma PercentMono(a: nat, b: nat, whole: nat)
    requires whole > 0 && a <= b
    ensures Percent(a, whole) <= Percent(b, whole)
  {
    var ra, rb := Percent(a, whole), Percent(b, whole);
    if ra > rb {
      MulMono(2 * whole, rb + 1, ra);
      assert false;
    }
  }

  function Min(a: int, b: int): (m: int)
    ensures m <= a && m <= b && (m == a || m == b)
  {
    if a < b then a else b
  }
}
