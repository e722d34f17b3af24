/** commutative_map and centered_commutative_map of colorgrade_core.py: the
    one-parameter families of maps on [vmin, vmax] that the adjustment
    effects apply to a channel. Each is a per-value function (the
    specification) and a method that performs the source's masked
    assignment on a copy of the input. */
module Remap {
  import opened Host
  import opened Masks
  import opened RealArith

  /** The exponent `exp(-a / 10)` both maps raise the scaled value to. */
  function Exponent(host: Host, a: real): real {
    host.exp(-a / 10.0)
  }

  predicate InRange(x: real, vmin: real, vmax: real) {
    vmin <= x && x <= vmax
  }

  /** commutative_map on one value: x is rescaled from [vmin, vmax] to
      [0,1], raised to exp(−a/10) and scaled back; values outside the
      range, and every value when vmin = vmax, are returned as they are. */
  function MapValue(host: Host, a: real, vmin: real, vmax: real, x: real): real {
    if vmin != vmax && InRange(x, vmin, vmax) then
      host.pow((x - vmin) / (vmax - vmin), Exponent(host, a)) * (vmax - vmin) + vmin
    else x
  }

  /** commutative_map on a whole channel. */
  method CommutativeMap(host: Host, vals: seq<real>, a: real, vmin: real, vmax: real) returns (result: seq<real>)
    ensures |result| == |vals|
    ensures forall n :: 0 <= n < |vals| ==> result[n] == MapValue(host, a, vmin, vmax, vals[n])
  {
    if vmin == vmax {
      return vals;
    }
    var out := new real[|vals|](n requires 0 <= n < |vals| => vals[n]);
    MaskedUpdate(out, vals, (v: real, y: real) => InRange(v, vmin, vmax),
      (v: real, y: real) => host.pow((v - vmin) / (vmax - vmin), Exponent(host, a)) * (vmax - vmin) + vmin);
    result := out[..];
  }

  /** The value (v − vmin)/(vmax − vmin) of a point of the range lies in
      [0,1]. */
  lemma ScaledInUnit(x: real, vmin: real, vmax: real)
    requires vmin < vmax && InRange(x, vmin, vmax)
    ensures 0.0 <= (x - vmin) / (vmax - vmin) <= 1.0
  {
    QuotientBounds(x - vmin, vmax - vmin, 0.0, 1.0);
  }

  /** Scaling a unit value to the range and back gives it again. */
  lemma RescaleBack(q: real, vmin: real, vmax: real)
    requires vmin < vmax
    ensures ((q * (vmax - vmin) + vmin) - vmin) / (vmax - vmin) == q
  {
    var w := vmax - vmin;
    assert (q * w + vmin) - vmin == q * w;
    assert (q * w) / w == q;
  }

  /** Scaling a point of the range to [0,1] and back gives it again. */
  lemma ScaleBack(x: real, vmin: real, vmax: real)
    requires vmin < vmax
    ensures (x - vmin) / (vmax - vmin) * (vmax - vmin) + vmin == x
  {
    var w := vmax - vmin;
    MulQuotient(x - vmin, w);
    assert (x - vmin) / w * w == w * ((x - vmin) / w);
  }

  /** The map keeps every point of the range inside the range. */
  lemma MapStaysInRange(host: Host, a: real, vmin: real, vmax: real, x: real)
    requires PowLaws(host) && ExpLaws(host)
    requires InRange(x, vmin, vmax)
    ensures InRange(MapValue(host, a, vmin, vmax, x), vmin, vmax)
  {
    if vmin != vmax {
      var w := vmax - vmin;
      var e := Exponent(host, a);
      assert w > 0.0 && e > 0.0;
      ScaledInUnit(x, vmin, vmax);
      var p := host.pow((x - vmin) / w, e);
      assert 0.0 <= p <= 1.0;
      UnitTimes(p, w);
      assert MapValue(host, a, vmin, vmax, x) == p * w + vmin;
    }
  }

  /** vmin and vmax are fixed points of every map of the family. */
  lemma MapEndpoints(host: Host, a: real, vmin: real, vmax: real)
    requires PowLaws(host) && ExpLaws(host)
    requires vmin <= vmax
    ensures MapValue(host, a, vmin, vmax, vmin) == vmin
    ensures MapValue(host, a, vmin, vmax, vmax) == vmax
  {
    if vmin != vmax {
      var w := vmax - vmin;
      assert (vmin - vmin) / w == 0.0;
      SelfQuotient(w);
      assert host.pow(1.0, Exponent(host, a)) == 1.0;
    }
  }

  /** a = 0 leaves every value unchanged. */
  lemma MapZero(host: Host, vmin: real, vmax: real, x: real)
    requires PowLaws(host) && ExpLaws(host)
    ensures MapValue(host, 0.0, vmin, vmax, x) == x
  {
    if vmin != vmax && InRange(x, vmin, vmax) {
      assert Exponent(host, 0.0) == 1.0;
      ScaleBack(x, vmin, vmax);
    }
  }

  /** Values outside [vmin, vmax] are kept as they are, and with vmin = vmax
      every value is. */
  lemma MapOutside(host: Host, a: real, vmin: real, vmax: real, x: real)
    ensures !InRange(x, vmin, vmax) ==> MapValue(host, a, vmin, vmax, x) == x
    ensures vmin == vmax ==> MapValue(host, a, vmin, vmax, x) == x
  {
  }

  /** (s ** exp(−a1/10)) ** exp(−a2/10) = s ** exp(−(a1 + a2)/10). */
  lemma PowCompose(host: Host, s: real, a1: real, a2: real)
    requires GroupLaws(host) && 0.0 <= s <= 1.0
    ensures host.pow(host.pow(s, Exponent(host, a1)), Exponent(host, a2)) == host.pow(s, Exponent(host, a1 + a2))
  {
    assert -a1 / 10.0 + -a2 / 10.0 == -(a1 + a2) / 10.0;
  }

  /** The map on the point that sits at fraction p of the range. */
  lemma MapAtFraction(host: Host, a: real, vmin: real, vmax: real, p: real)
    requires vmin < vmax && InRange(p * (vmax - vmin) + vmin, vmin, vmax)
    ensures MapValue(host, a, vmin, vmax, p * (vmax - vmin) + vmin)
         == host.pow(p, Exponent(host, a)) * (vmax - vmin) + vmin
  {
    RescaleBack(p, vmin, vmax);
  }

  /** Applying the map for a1 and then the map for a2 is the map for
      a1 + a2: the family is a group under composition, isomorphic to the
      reals under addition. */
  lemma MapCompose(host: Host, a1: real, a2: real, vmin: real, vmax: real, x: real)
    requires GroupLaws(host)
    ensures MapValue(host, a2, vmin, vmax, MapValue(host, a1, vmin, vmax, x))
         == MapValue(host, a1 + a2, vmin, vmax, x)
  {
    if vmin < vmax && InRange(x, vmin, vmax) {
      var s := (x - vmin) / (vmax - vmin);
      ScaledInUnit(x, vmin, vmax);
      var p := host.pow(s, Exponent(host, a1));
      MapStaysInRange(host, a1, vmin, vmax, x);
      var y := MapValue(host, a1, vmin, vmax, x);
      assert y == p * (vmax - vmin) + vmin;
      assert InRange(p * (vmax - vmin) + vmin, vmin, vmax);
      MapAtFraction(host, a2, vmin, vmax, p);
      PowCompose(host, s, a1, a2);
    }
  }

  /** The map for −a undoes the map for a. */
  lemma MapInverse(host: Host, a: real, vmin: real, vmax: real, x: real)
    requires GroupLaws(host)
    ensures MapValue(host, -a, vmin, vmax, MapValue(host, a, vmin, vmax, x)) == x
  {
    MapCompose(host, a, -a, vmin, vmax, x);
    assert a + -a == 0.0;
    MapZero(host, vmin, vmax, x);
  }

  /** Positive a moves values of the range up towards vmax, negative a
      down towards vmin. */
  lemma MapDirection(host: Host, a: real, vmin: real, vmax: real, x: real)
    requires PowLaws(host) && ExpLaws(host) && OrderLaws(host)
    requires InRange(x, vmin, vmax)
    ensures a >= 0.0 ==> x <= MapValue(host, a, vmin, vmax, x) <= vmax
    ensures a <= 0.0 ==> vmin <= MapValue(host, a, vmin, vmax, x) <= x
  {
    MapStaysInRange(host, a, vmin, vmax, x);
    if vmin != vmax {
      var w := vmax - vmin;
      var s := (x - vmin) / w;
      ScaledInUnit(x, vmin, vmax);
      var p := host.pow(s, Exponent(host, a));
      ScaleBack(x, vmin, vmax);
      if a >= 0.0 {
        assert p >= s;
        MulMono(s, p, w);
      }
      if a <= 0.0 {
        assert p <= s;
        MulMono(p, s, w);
      }
    }
  }

  // ---------------------------------------------------------------------
  // centered_commutative_map

  /** A point of the range moved to [−1,1]: `2 * (x - vmin) / (vmax - vmin) - 1`. */
  function Centered(x: real, vmin: real, vmax: real): real
    requires vmin != vmax
  {
    2.0 * (x - vmin) / (vmax - vmin) - 1.0
  }

  /** A value of [−1,1] moved back to the range: `(u + 1) * (vmax - vmin) / 2 + vmin`. */
  function Uncentered(u: real, vmin: real, vmax: real): real {
    (u + 1.0) * (vmax - vmin) / 2.0 + vmin
  }

  /** `abs(u) ** exp(-a / 10) * sign(u)`: the magnitude is bent, the sign
      kept. The product with the sign is written out by cases, so that the
      proofs need no multiplication; BendIsSignedPower shows it is the same
      value. */
  function Bend(host: Host, a: real, u: real): real {
    if u > 0.0 then host.pow(u, Exponent(host, a))
    else if u < 0.0 then -host.pow(-u, Exponent(host, a))
    else 0.0
  }

  lemma BendIsSignedPower(host: Host, a: real, u: real)
    ensures Bend(host, a, u) == host.pow(Abs(u), Exponent(host, a)) * Sign(u)
  {
    if u > 0.0 {
      assert Sign(u) == 1.0 && Abs(u) == u;
    } else if u < 0.0 {
      assert Sign(u) == -1.0 && Abs(u) == -u;
    } else {
      assert Sign(u) == 0.0;
    }
  }

  /** centered_commutative_map on one value: outside the range, and
      everywhere when vmin = vmax, the value is returned as it is. */
  function CenteredValue(host: Host, a: real, vmin: real, vmax: real, x: real): real {
    if vmin != vmax && InRange(x, vmin, vmax) then
      Uncentered(Bend(host, a, Centered(x, vmin, vmax)), vmin, vmax)
    else x
  }

  /** centered_commutative_map on a whole channel. */
  method CenteredCommutativeMap(host: Host, vals: seq<real>, a: real, vmin: real, vmax: real) returns (result: seq<real>)
    ensures |result| == |vals|
    ensures forall n :: 0 <= n < |vals| ==> result[n] == CenteredValue(host, a, vmin, vmax, vals[n])
  {
    if vmin == vmax {
      return vals;
    }
    var out := new real[|vals|](n requires 0 <= n < |vals| => vals[n]);
    MaskedUpdate(out, vals, (v: real, y: real) => InRange(v, vmin, vmax),
      (v: real, y: real) => Uncentered(Bend(host, a, Centered(v, vmin, vmax)), vmin, vmax));
    result := out[..];
  }

  lemma CenteredBounds(x: real, vmin: real, vmax: real)
    requires vmin < vmax && InRange(x, vmin, vmax)
    ensures -1.0 <= Centered(x, vmin, vmax) <= 1.0
  {
    QuotientBounds(2.0 * (x - vmin), vmax - vmin, 0.0, 2.0);
  }

  lemma UncenteredInRange(u: real, vmin: real, vmax: real)
    requires vmin < vmax && -1.0 <= u <= 1.0
    ensures InRange(Uncentered(u, vmin, vmax), vmin, vmax)
  {
    MulMono(0.0, u + 1.0, vmax - vmin);
    MulMono(u + 1.0, 2.0, vmax - vmin);
  }

  /** Uncentered is monotone. */
  lemma UncenteredMono(u1: real, u2: real, vmin: real, vmax: real)
    requires vmin < vmax && u1 <= u2
    ensures Uncentered(u1, vmin, vmax) <= Uncentered(u2, vmin, vmax)
  {
    MulMono(u1 + 1.0, u2 + 1.0, vmax - vmin);
  }

  lemma CenterUncenter(u: real, vmin: real, vmax: real)
    requires vmin < vmax
    ensures Centered(Uncentered(u, vmin, vmax), vmin, vmax) == u
  {
    var w := vmax - vmin;
    assert 2.0 * (Uncentered(u, vmin, vmax) - vmin) == (u + 1.0) * w;
    ProductQuotient(u + 1.0, w);
  }

  lemma UncenterCenter(x: real, vmin: real, vmax: real)
    requires vmin < vmax
    ensures Uncentered(Centered(x, vmin, vmax), vmin, vmax) == x
  {
    var w := vmax - vmin;
    var q := 2.0 * (x - vmin) / w;
    MulQuotient(2.0 * (x - vmin), w);
    assert q * w == w * q;
    assert (Centered(x, vmin, vmax) + 1.0) == q;
  }

  /** The bend keeps the sign and bends the magnitude. */
  lemma BendParts(host: Host, a: real, u: real)
    requires GroupLaws(host) && -1.0 <= u <= 1.0
    ensures Abs(Bend(host, a, u)) == host.pow(Abs(u), Exponent(host, a))
    ensures Sign(Bend(host, a, u)) == Sign(u)
    ensures -1.0 <= Bend(host, a, u) <= 1.0
  {
    var e := Exponent(host, a);
    assert e > 0.0;
    if u > 0.0 {
      assert 0.0 < host.pow(u, e) <= 1.0;
    } else if u < 0.0 {
      assert 0.0 < host.pow(-u, e) <= 1.0;
    } else {
      assert host.pow(0.0, e) == 0.0;
    }
  }

  /** A value with the given sign and magnitude. */
  lemma SignMagnitude(u: real, v: real)
    requires Sign(u) == Sign(v) && Abs(u) == Abs(v)
    ensures u == v
  {}

  lemma BendCompose(host: Host, a1: real, a2: real, u: real)
    requires GroupLaws(host) && -1.0 <= u <= 1.0
    ensures Bend(host, a2, Bend(host, a1, u)) == Bend(host, a1 + a2, u)
  {
    var b := Bend(host, a1, u);
    BendParts(host, a1, u);
    if u > 0.0 {
      PowCompose(host, u, a1, a2);
    } else if u < 0.0 {
      PowCompose(host, -u, a1, a2);
    }
  }

  lemma BendZero(host: Host, u: real)
    requires PowLaws(host) && ExpLaws(host)
    ensures Bend(host, 0.0, u) == u
  {
    assert Exponent(host, 0.0) == 1.0;
  }

  /** The centred map keeps every point of the range inside the range. */
  lemma CenteredStaysInRange(host: Host, a: real, vmin: real, vmax: real, x: real)
    requires GroupLaws(host) && InRange(x, vmin, vmax)
    ensures InRange(CenteredValue(host, a, vmin, vmax, x), vmin, vmax)
  {
    if vmin != vmax {
      CenteredBounds(x, vmin, vmax);
      BendParts(host, a, Centered(x, vmin, vmax));
      UncenteredInRange(Bend(host, a, Centered(x, vmin, vmax)), vmin, vmax);
    }
  }

  /** vmin, vmax and the midpoint of the range are fixed points. */
  lemma CenteredFixedPoints(host: Host, a: real, vmin: real, vmax: real)
    requires PowLaws(host) && ExpLaws(host) && vmin <= vmax
    ensures CenteredValue(host, a, vmin, vmax, vmin) == vmin
    ensures CenteredValue(host, a, vmin, vmax, vmax) == vmax
    ensures CenteredValue(host, a, vmin, vmax, (vmin + vmax) / 2.0) == (vmin + vmax) / 2.0
  {
    if vmin != vmax {
      var w := vmax - vmin;
      var e := Exponent(host, a);
      assert e > 0.0;
      assert Centered(vmin, vmin, vmax) == -1.0;
      assert host.pow(1.0, e) == 1.0;
      SelfQuotient(w);
      assert 2.0 * (vmax - vmin) / w == 2.0 * (w / w);
      assert Centered(vmax, vmin, vmax) == 1.0;
      assert 2.0 * ((vmin + vmax) / 2.0 - vmin) == w;
      assert Centered((vmin + vmax) / 2.0, vmin, vmax) == 0.0;
    }
  }

  /** a = 0 leaves every value unchanged. */
  lemma CenteredZero(host: Host, vmin: real, vmax: real, x: real)
    requires PowLaws(host) && ExpLaws(host)
    ensures CenteredValue(host, 0.0, vmin, vmax, x) == x
  {
    if vmin < vmax && InRange(x, vmin, vmax) {
      BendZero(host, Centered(x, vmin, vmax));
      UncenterCenter(x, vmin, vmax);
    }
  }

  /** Values outside [vmin, vmax] are kept as they are, and with vmin = vmax
      every value is. */
  lemma CenteredOutside(host: Host, a: real, vmin: real, vmax: real, x: real)
    ensures !InRange(x, vmin, vmax) ==> CenteredValue(host, a, vmin, vmax, x) == x
    ensures vmin == vmax ==> CenteredValue(host, a, vmin, vmax, x) == x
  {
  }

  /** The centred maps form a group under composition as well: the map for
      a1 followed by the map for a2 is the map for a1 + a2. */
  lemma CenteredCompose(host: Host, a1: real, a2: real, vmin: real, vmax: real, x: real)
    requires GroupLaws(host)
    ensures CenteredValue(host, a2, vmin, vmax, CenteredValue(host, a1, vmin, vmax, x))
         == CenteredValue(host, a1 + a2, vmin, vmax, x)
  {
    if vmin < vmax && InRange(x, vmin, vmax) {
      var u := Centered(x, vmin, vmax);
      CenteredBounds(x, vmin, vmax);
      var b := Bend(host, a1, u);
      BendParts(host, a1, u);
      var y := Uncentered(b, vmin, vmax);
      assert y == CenteredValue(host, a1, vmin, vmax, x);
      UncenteredInRange(b, vmin, vmax);
      CenterUncenter(b, vmin, vmax);
      assert CenteredValue(host, a2, vmin, vmax, y) == Uncentered(Bend(host, a2, b), vmin, vmax);
      BendCompose(host, a1, a2, u);
    }
  }

  /** The centred map for −a undoes the centred map for a. */
  lemma CenteredInverse(host: Host, a: real, vmin: real, vmax: real, x: real)
    requires GroupLaws(host)
    ensures CenteredValue(host, -a, vmin, vmax, CenteredValue(host, a, vmin, vmax, x)) == x
  {
    CenteredCompose(host, a, -a, vmin, vmax, x);
    assert a + -a == 0.0;
    CenteredZero(host, vmin, vmax, x);
  }

  /** Positive a moves a point of [−1,1] away from 0, negative a towards 0. */
  lemma BendDirection(host: Host, a: real, u: real)
    requires GroupLaws(host) && OrderLaws(host) && -1.0 <= u <= 1.0
    ensures a >= 0.0 && u >= 0.0 ==> u <= Bend(host, a, u)
    ensures a >= 0.0 && u <= 0.0 ==> Bend(host, a, u) <= u
    ensures a <= 0.0 && u >= 0.0 ==> 0.0 <= Bend(host, a, u) <= u
    ensures a <= 0.0 && u <= 0.0 ==> u <= Bend(host, a, u) <= 0.0
  {
    var e := Exponent(host, a);
    ExponentSide(host, a);
    if u > 0.0 {
      UnitPowerSide(host, u, e);
    } else if u < 0.0 {
      UnitPowerSide(host, -u, e);
    }
  }

  /** exp(−a/10) is at most 1 for a ≥ 0 and at least 1 for a ≤ 0. */
  lemma ExponentSide(host: Host, a: real)
    requires GroupLaws(host) && OrderLaws(host)
    ensures Exponent(host, a) > 0.0
    ensures a >= 0.0 ==> Exponent(host, a) <= 1.0
    ensures a <= 0.0 ==> Exponent(host, a) >= 1.0
  {
    var y := -a / 10.0;
    assert a >= 0.0 ==> y <= 0.0;
    assert a <= 0.0 ==> y >= 0.0;
    assert host.exp(y) > 0.0;
  }

  /** A power of a unit value lies between 0 and 1 and on the side of the
      value that the exponent's side of 1 says. */
  lemma UnitPowerSide(host: Host, x: real, e: real)
    requires GroupLaws(host) && OrderLaws(host) && 0.0 <= x <= 1.0 && e > 0.0
    ensures 0.0 <= host.pow(x, e) <= 1.0
    ensures e <= 1.0 ==> host.pow(x, e) >= x
    ensures e >= 1.0 ==> host.pow(x, e) <= x
  {
    assert PowLaws(host);
  }

  /** Points above the midpoint centre to [0,1], points below to [−1,0]. */
  lemma CenteredSide(x: real, vmin: real, vmax: real)
    requires vmin < vmax && InRange(x, vmin, vmax)
    ensures x >= (vmin + vmax) / 2.0 ==> Centered(x, vmin, vmax) >= 0.0
    ensures x <= (vmin + vmax) / 2.0 ==> Centered(x, vmin, vmax) <= 0.0
  {
    if x >= (vmin + vmax) / 2.0 {
      QuotientBounds(2.0 * (x - vmin), vmax - vmin, 1.0, 2.0);
    }
    if x <= (vmin + vmax) / 2.0 {
      QuotientBounds(2.0 * (x - vmin), vmax - vmin, 0.0, 1.0);
    }
  }

  /** Positive a pushes values away from the midpoint towards vmin and
      vmax; negative a pulls them towards the midpoint. */
  lemma CenteredDirection(host: Host, a: real, vmin: real, vmax: real, x: real)
    requires GroupLaws(host) && OrderLaws(host)
    requires vmin < vmax && InRange(x, vmin, vmax)
    ensures var y, mid := CenteredValue(host, a, vmin, vmax, x), (vmin + vmax) / 2.0;
      && (a >= 0.0 && x >= mid ==> x <= y)
      && (a >= 0.0 && x <= mid ==> y <= x)
      && (a <= 0.0 && x >= mid ==> mid <= y <= x)
      && (a <= 0.0 && x <= mid ==> x <= y <= mid)
  {
    var u := Centered(x, vmin, vmax);
    CenteredBounds(x, vmin, vmax);
    CenteredSide(x, vmin, vmax);
    var b := Bend(host, a, u);
    BendDirection(host, a, u);
    UncenterCenter(x, vmin, vmax);
    assert Uncentered(0.0, vmin, vmax) == (vmin + vmax) / 2.0;
    assert CenteredValue(host, a, vmin, vmax, x) == Uncentered(b, vmin, vmax);
    if u <= b { UncenteredMono(u, b, vmin, vmax); }
    if b <= u { UncenteredMono(b, u, vmin, vmax); }
    if 0.0 <= b { UncenteredMono(0.0, b, vmin, vmax); }
    if b <= 0.0 { UncenteredMono(b, 0.0, vmin, vmax); }
  }
}
