/** The link cost between two consecutive suppliers: planar Euclidean
    distance in degrees, times 100, truncated to an integer. With exact real
    arithmetic that is the largest n with n*n <= 10000 * (dLat^2 + dLon^2). */
module Distance {

  /** n*n as a real. */
  function Square(n: nat): real {
    (n * n) as real
  }

  /** Counts up from `n` to the floor of the square root of `x`. */
  function FloorSqrtFrom(x: real, n: nat): (r: nat)
    requires Square(n) <= x
    ensures n <= r
    ensures Square(r) <= x < Square(r + 1)
    decreases x.Floor - n
  {
    assert n <= n * n;
    if Square(n + 1) <= x then FloorSqrtFrom(x, n + 1) else n
  }

  /** The floor of the square root of a non-negative real. */
  function FloorSqrt(x: real): (r: nat)
    requires 0.0 <= x
    ensures Square(r) <= x < Square(r + 1)
  {
    FloorSqrtFrom(x, 0)
  }

  /** Squared planar distance, in hundredths of a degree. */
  function ScaledSquaredDistance(lat1: real, lon1: real, lat2: real, lon2: real): (d: real)
    ensures 0.0 <= d
  {
    var dLat := lat2 - lat1;
    var dLon := lon2 - lon1;
    10000.0 * (dLat * dLat + dLon * dLon)
  }

  /** The truncated distance, times 100, between (lat1, lon1) and (lat2, lon2). */
  function LinkDistance(lat1: real, lon1: real, lat2: real, lon2: real): (d: nat)
    ensures Square(d) <= ScaledSquaredDistance(lat1, lon1, lat2, lon2) < Square(d + 1)
  {
    FloorSqrt(ScaledSquaredDistance(lat1, lon1, lat2, lon2))
  }

  /** Only one value satisfies the floor-of-square-root bracket. */
  lemma {:induction false} FloorSqrtUnique(x: real, a: nat, b: nat)
    requires Square(a) <= x < Square(a + 1)
    requires Square(b) <= x < Square(b + 1)
    ensures a == b
  {
    if a < b {
      assert (a + 1) * (a + 1) <= b * b by {
        MonotoneSquare(a + 1, b);
      }
    } else if b < a {
      assert (b + 1) * (b + 1) <= a * a by {
        MonotoneSquare(b + 1, a);
      }
    }
  }

  lemma MonotoneSquare(a: nat, b: nat)
    requires a <= b
    ensures a * a <= b * b
  {
  }

  /** The link cost does not depend on the direction of travel. */
  lemma LinkDistanceSymmetric(lat1: real, lon1: real, lat2: real, lon2: real)
    ensures LinkDistance(lat1, lon1, lat2, lon2) == LinkDistance(lat2, lon2, lat1, lon1)
  {
    var x := ScaledSquaredDistance(lat1, lon1, lat2, lon2);
    assert x == ScaledSquaredDistance(lat2, lon2, lat1, lon1);
  }

  /** A link costs nothing exactly when its endpoints lie less than a hundredth
      of a degree apart; in particular identical coordinates cost 0. */
  lemma LinkDistanceZeroIffClose(lat1: real, lon1: real, lat2: real, lon2: real)
    ensures LinkDistance(lat1, lon1, lat2, lon2) == 0 <==> ScaledSquaredDistance(lat1, lon1, lat2, lon2) < 1.0
    ensures LinkDistance(lat1, lon1, lat1, lon1) == 0
  {
    var d := LinkDistance(lat1, lon1, lat2, lon2);
    if d != 0 {
      assert 1 <= d * d by {
        MonotoneSquare(1, d);
      }
    }
  }
}
