/** The adjustment effects of colorgrade_core.py: adjust_rgb, adjust_hsv,
    brightness_contrast and custom_rgb_adjust. The first three run the
    commutative maps over channels (and the colour-space conversions
    around them); each is a method that calls those methods in the
    source's order, proved equal cell by cell to a function of one cell,
    and the lemmas give that function its meaning: shifts of zero change
    nothing, shifts compose and invert, and the unit cube is kept. */
module Adjustments {
  import opened Outcomes
  import opened Host
  import opened Colorgrade
  import opened ColorSpace
  import opened Remap
  import opened Expressions
  import opened Effects
  import opened RealArith

  // ---------------------------------------------------------------------
  // adjust_rgb

  /** One cell of adjust_rgb: each channel through commutative_map on [0,1]
      with its own shift. */
  function AdjustRgbCell(host: Host, c: Rgb, rs: real, gs: real, bs: real): Rgb {
    Rgb(MapValue(host, rs, 0.0, 1.0, c.r), MapValue(host, gs, 0.0, 1.0, c.g), MapValue(host, bs, 0.0, 1.0, c.b))
  }

  /** adjust_rgb: split the channels, map each, stack them again. */
  method AdjustRgb(host: Host, t: Table, rs: real, gs: real, bs: real) returns (u: Table)
    ensures |u| == |t|
    ensures forall n :: 0 <= n < |t| ==> u[n] == AdjustRgbCell(host, t[n], rs, gs, bs)
  {
    var red := CommutativeMap(host, Reds(t), rs, 0.0, 1.0);
    var green := CommutativeMap(host, Greens(t), gs, 0.0, 1.0);
    var blue := CommutativeMap(host, Blues(t), bs, 0.0, 1.0);
    u := seq(|t|, n requires 0 <= n < |t| => Rgb(red[n], green[n], blue[n]));
  }

  /** Zero shifts leave every cell as it is. */
  lemma AdjustRgbZero(host: Host, c: Rgb)
    requires PowLaws(host) && ExpLaws(host)
    ensures AdjustRgbCell(host, c, 0.0, 0.0, 0.0) == c
  {
    MapZero(host, 0.0, 1.0, c.r);
    MapZero(host, 0.0, 1.0, c.g);
    MapZero(host, 0.0, 1.0, c.b);
  }

  /** Two RGB adjustments in a row are one whose shifts are the sums. */
  lemma AdjustRgbCompose(host: Host, c: Rgb, rs1: real, gs1: real, bs1: real, rs2: real, gs2: real, bs2: real)
    requires GroupLaws(host)
    ensures AdjustRgbCell(host, AdjustRgbCell(host, c, rs1, gs1, bs1), rs2, gs2, bs2)
         == AdjustRgbCell(host, c, rs1 + rs2, gs1 + gs2, bs1 + bs2)
  {
    MapCompose(host, rs1, rs2, 0.0, 1.0, c.r);
    MapCompose(host, gs1, gs2, 0.0, 1.0, c.g);
    MapCompose(host, bs1, bs2, 0.0, 1.0, c.b);
  }

  /** Negated shifts undo an RGB adjustment. */
  lemma AdjustRgbInverse(host: Host, c: Rgb, rs: real, gs: real, bs: real)
    requires GroupLaws(host)
    ensures AdjustRgbCell(host, AdjustRgbCell(host, c, rs, gs, bs), -rs, -gs, -bs) == c
  {
    MapInverse(host, rs, 0.0, 1.0, c.r);
    MapInverse(host, gs, 0.0, 1.0, c.g);
    MapInverse(host, bs, 0.0, 1.0, c.b);
  }

  /** A cell of the unit cube stays in the unit cube. */
  lemma AdjustRgbInUnitCube(host: Host, c: Rgb, rs: real, gs: real, bs: real)
    requires PowLaws(host) && ExpLaws(host) && InUnitCube(c)
    ensures InUnitCube(AdjustRgbCell(host, c, rs, gs, bs))
  {
    MapStaysInRange(host, rs, 0.0, 1.0, c.r);
    MapStaysInRange(host, gs, 0.0, 1.0, c.g);
    MapStaysInRange(host, bs, 0.0, 1.0, c.b);
  }

  // ---------------------------------------------------------------------
  // adjust_hsv

  /** `sep_rgb` on an HSV table. */
  function Hues(p: seq<Hsv>): (xs: seq<real>)
    ensures |xs| == |p| && forall n :: 0 <= n < |p| ==> xs[n] == p[n].h
  {
    seq(|p|, n requires 0 <= n < |p| => p[n].h)
  }

  function Saturations(p: seq<Hsv>): (xs: seq<real>)
    ensures |xs| == |p| && forall n :: 0 <= n < |p| ==> xs[n] == p[n].s
  {
    seq(|p|, n requires 0 <= n < |p| => p[n].s)
  }

  function Values(p: seq<Hsv>): (xs: seq<real>)
    ensures |xs| == |p| && forall n :: 0 <= n < |p| ==> xs[n] == p[n].v
  {
    seq(|p|, n requires 0 <= n < |p| => p[n].v)
  }

  /** One cell of adjust_hsv: the hue turned by the shift modulo 360,
      saturation and value through commutative_map, and back to RGB. */
  function AdjustHsvCell(host: Host, c: Rgb, hs: real, ss: real, vs: real): Rgb {
    var p := HsvOf(c);
    RgbOf(Hsv(FloorMod(p.h + hs, 360.0), MapValue(host, ss, 0.0, 1.0, p.s), MapValue(host, vs, 0.0, 1.0, p.v)))
  }

  /** adjust_hsv: to HSV, turn the hue, map saturation and value, back to
      RGB. */
  method AdjustHsv(host: Host, t: Table, hs: real, ss: real, vs: real) returns (u: Table)
    ensures |u| == |t|
    ensures forall n :: 0 <= n < |t| ==> u[n] == AdjustHsvCell(host, t[n], hs, ss, vs)
  {
    var hsv := RgbToHsv(t);
    var hue := seq(|t|, n requires 0 <= n < |t| => FloorMod(hsv[n].h + hs, 360.0));
    var sat := CommutativeMap(host, Saturations(hsv), ss, 0.0, 1.0);
    var val := CommutativeMap(host, Values(hsv), vs, 0.0, 1.0);
    u := HsvToRgb(seq(|t|, n requires 0 <= n < |t| => Hsv(hue[n], sat[n], val[n])));
  }

  /** The HSV form of a unit-cube cell: hue in [0,360), saturation and
      value in [0,1]. */
  lemma HsvOfInRange(c: Rgb)
    requires InUnitCube(c)
    ensures 0.0 <= HsvOf(c).h < 360.0
    ensures InRange(HsvOf(c).s, 0.0, 1.0) && InRange(HsvOf(c).v, 0.0, 1.0)
  {
    SaturationInUnitCube(c);
  }

  /** Zero shifts leave every cell of the unit cube as it is: the
      conversions round-trip and the maps are the identity. */
  lemma AdjustHsvZero(host: Host, c: Rgb)
    requires PowLaws(host) && ExpLaws(host) && InUnitCube(c)
    ensures AdjustHsvCell(host, c, 0.0, 0.0, 0.0) == c
  {
    var p := HsvOf(c);
    ReducedHueOfHue(p.h);
    assert p.h + 0.0 == p.h;
    MapZero(host, 0.0, 1.0, p.s);
    MapZero(host, 0.0, 1.0, p.v);
    assert Hsv(FloorMod(p.h + 0.0, 360.0), MapValue(host, 0.0, 0.0, 1.0, p.s), MapValue(host, 0.0, 0.0, 1.0, p.v)) == p;
    RoundTrip(c);
  }

  /** adjust_hsv keeps every cell of the unit cube inside it. */
  lemma AdjustHsvInUnitCube(host: Host, c: Rgb, hs: real, ss: real, vs: real)
    requires PowLaws(host) && ExpLaws(host) && InUnitCube(c)
    ensures InUnitCube(AdjustHsvCell(host, c, hs, ss, vs))
  {
    var p := HsvOf(c);
    HsvOfInRange(c);
    MapStaysInRange(host, ss, 0.0, 1.0, p.s);
    MapStaysInRange(host, vs, 0.0, 1.0, p.v);
    RgbOfBounds(Hsv(FloorMod(p.h + hs, 360.0), MapValue(host, ss, 0.0, 1.0, p.s), MapValue(host, vs, 0.0, 1.0, p.v)));
  }

  /** Python's `%` is periodic: adding the modulus changes nothing. */
  lemma FloorModPeriodic(x: real, m: real)
    requires m > 0.0
    ensures FloorMod(x + m, m) == FloorMod(x, m)
  {
    var k := (x / m).Floor;
    FloorBounds(x, m);
    MulDistrib(k as real, m);
    assert (k + 1) as real == k as real + 1.0;
    FloorModOn(x + m, m, k + 1);
  }

  /** A hue shift of a full turn more is the same adjustment. */
  lemma AdjustHsvHuePeriodic(host: Host, c: Rgb, hs: real, ss: real, vs: real)
    ensures AdjustHsvCell(host, c, hs + 360.0, ss, vs) == AdjustHsvCell(host, c, hs, ss, vs)
  {
    var p := HsvOf(c);
    assert p.h + (hs + 360.0) == (p.h + hs) + 360.0;
    FloorModPeriodic(p.h + hs, 360.0);
  }

  // ---------------------------------------------------------------------
  // brightness_contrast

  /** One cell of brightness_contrast: the hue kept, the saturation mapped
      by the contrast, the value mapped by the brightness and then pushed
      from or toward the middle by the contrast. */
  function BrightnessContrastCell(host: Host, c: Rgb, bright: real, con: real): Rgb {
    var p := HsvOf(c);
    RgbOf(Hsv(p.h, MapValue(host, con, 0.0, 1.0, p.s),
              CenteredValue(host, con, 0.0, 1.0, MapValue(host, bright, 0.0, 1.0, p.v))))
  }

  /** brightness_contrast: to HSV, map saturation and value, back to RGB. */
  method BrightnessContrast(host: Host, t: Table, bright: real, con: real) returns (u: Table)
    ensures |u| == |t|
    ensures forall n :: 0 <= n < |t| ==> u[n] == BrightnessContrastCell(host, t[n], bright, con)
  {
    var hsv := RgbToHsv(t);
    var sat := CommutativeMap(host, Saturations(hsv), con, 0.0, 1.0);
    var brightened := CommutativeMap(host, Values(hsv), bright, 0.0, 1.0);
    var val := CenteredCommutativeMap(host, brightened, con, 0.0, 1.0);
    var hue := Hues(hsv);
    u := HsvToRgb(seq(|t|, n requires 0 <= n < |t| => Hsv(hue[n], sat[n], val[n])));
  }

  /** No brightness and no contrast change leave every cell of the unit
      cube as it is. */
  lemma BrightnessContrastZero(host: Host, c: Rgb)
    requires PowLaws(host) && ExpLaws(host) && InUnitCube(c)
    ensures BrightnessContrastCell(host, c, 0.0, 0.0) == c
  {
    var p := HsvOf(c);
    MapZero(host, 0.0, 1.0, p.s);
    MapZero(host, 0.0, 1.0, p.v);
    CenteredZero(host, 0.0, 1.0, p.v);
    assert Hsv(p.h, MapValue(host, 0.0, 0.0, 1.0, p.s),
               CenteredValue(host, 0.0, 0.0, 1.0, MapValue(host, 0.0, 0.0, 1.0, p.v))) == p;
    RoundTrip(c);
  }

  /** brightness_contrast keeps every cell of the unit cube inside it. */
  lemma BrightnessContrastInUnitCube(host: Host, c: Rgb, bright: real, con: real)
    requires GroupLaws(host) && InUnitCube(c)
    ensures InUnitCube(BrightnessContrastCell(host, c, bright, con))
  {
    var p := HsvOf(c);
    HsvOfInRange(c);
    MapStaysInRange(host, con, 0.0, 1.0, p.s);
    MapStaysInRange(host, bright, 0.0, 1.0, p.v);
    CenteredStaysInRange(host, con, 0.0, 1.0, MapValue(host, bright, 0.0, 1.0, p.v));
    RgbOfBounds(Hsv(p.h, MapValue(host, con, 0.0, 1.0, p.s),
                    CenteredValue(host, con, 0.0, 1.0, MapValue(host, bright, 0.0, 1.0, p.v))));
  }

  /** With no contrast change, brightness is the value shift of adjust_hsv. */
  lemma BrightnessIsValueShift(host: Host, c: Rgb, bright: real)
    requires PowLaws(host) && ExpLaws(host) && InUnitCube(c)
    ensures BrightnessContrastCell(host, c, bright, 0.0) == AdjustHsvCell(host, c, 0.0, 0.0, bright)
  {
    var p := HsvOf(c);
    ReducedHueOfHue(p.h);
    assert p.h + 0.0 == p.h;
    MapZero(host, 0.0, 1.0, p.s);
    CenteredZero(host, 0.0, 1.0, MapValue(host, bright, 0.0, 1.0, p.v));
  }

  // ---------------------------------------------------------------------
  // custom_rgb_adjust

  /** The names a custom expression sees: the table's channels, and the
      grid shape bound under the plain name `shape`. */
  function CustomBindings(t: Table): (env: Env)
    ensures env.Keys == {"r", "g", "b", "shape"}
    ensures env["shape"] == Dims([Side as int, Side as int, Side as int])
  {
    map["r" := Numbers(Reds(t)), "g" := Numbers(Greens(t)), "b" := Numbers(Blues(t)),
        "shape" := Dims([Side as int, Side as int, Side as int])]
  }

  /** One evaluated expression as a channel for `np.stack`: a float grid of
      the table's size as it is, a boolean grid as 1.0/0.0, and anything
      else (a scalar, a grid of another size, a tuple) a shape mismatch. */
  function AsChannel(v: Value, len: nat): (r: Result<seq<real>>)
    ensures r.Ok? <==> (v.Numbers? && |v.xs| == len) || (v.Flags? && |v.bs| == len)
    ensures r.Ok? ==> |r.value| == len
    ensures r.Ok? && v.Numbers? ==> r.value == v.xs
    ensures r.Err? ==> r.error == ValueError
  {
    match v
    case Numbers(xs) => if |xs| == len then Ok(xs) else Err(ValueError)
    case Flags(bs) => if |bs| == len then Ok(seq(len, n requires 0 <= n < len => if bs[n] then 1.0 else 0.0)) else Err(ValueError)
    case _ => Err(ValueError)
  }

  /** What one expression contributes as a channel, errors included. */
  function Channel(host: Host, expression: string, t: Table): (r: Result<seq<real>>)
    ensures r.Ok? ==> |r.value| == |t|
  {
    var v :- host.eval(expression, CustomBindings(t));
    AsChannel(v, |t|)
  }

  /** custom_rgb_adjust: evaluate the three expressions in order (without a
      result shape) and stack the results as the new channels. */
  function CustomRgbAdjust(host: Host, t: Table, rExpr: string, gExpr: string, bExpr: string): (r: Result<Table>)
    ensures host.eval(rExpr, CustomBindings(t)).Err? ==> r == host.eval(rExpr, CustomBindings(t)).PropagateFailure()
    ensures r.Ok? <==> Channel(host, rExpr, t).Ok? && Channel(host, gExpr, t).Ok? && Channel(host, bExpr, t).Ok?
    ensures r.Ok? ==> |r.value| == |t| && forall n :: 0 <= n < |t| ==>
      r.value[n] == Rgb(Channel(host, rExpr, t).value[n], Channel(host, gExpr, t).value[n], Channel(host, bExpr, t).value[n])
  {
    var env := CustomBindings(t);
    var rv :- EvalWith(host, rExpr, None, env);
    var gv :- EvalWith(host, gExpr, None, env);
    var bv :- EvalWith(host, bExpr, None, env);
    var red :- AsChannel(rv, |t|);
    var green :- AsChannel(gv, |t|);
    var blue :- AsChannel(bv, |t|);
    Ok(seq(|t|, n requires 0 <= n < |t| => Rgb(red[n], green[n], blue[n])))
  }

  /** The default expressions `r`, `g`, `b` return the table unchanged when
      the interpreter evaluates a bound name to its binding. */
  lemma CustomIdentity(host: Host, t: Table)
    requires forall name :: name in CustomBindings(t) ==> host.eval(name, CustomBindings(t)) == Ok(CustomBindings(t)[name])
    ensures CustomRgbAdjust(host, t, "r", "g", "b") == Ok(t)
  {
    var env := CustomBindings(t);
    assert host.eval("r", env) == Ok(Numbers(Reds(t)));
    assert host.eval("g", env) == Ok(Numbers(Greens(t)));
    assert host.eval("b", env) == Ok(Numbers(Blues(t)));
    var u := CustomRgbAdjust(host, t, "r", "g", "b").value;
    assert u == t;
  }

  predicate IsScalar(host: Host, expression: string, env: Env) {
    host.eval(expression, env).Ok? && host.eval(expression, env).value.Scalar?
  }

  /** An expression that evaluates to a scalar fails the stacking: the grid
      shape is bound as the name `shape`, not passed as the result shape,
      so eval_with never broadcasts it. */
  lemma CustomScalarFails(host: Host, t: Table, rExpr: string, gExpr: string, bExpr: string)
    requires IsScalar(host, rExpr, CustomBindings(t)) || IsScalar(host, gExpr, CustomBindings(t))
          || IsScalar(host, bExpr, CustomBindings(t))
    ensures CustomRgbAdjust(host, t, rExpr, gExpr, bExpr).Err?
  {
  }
}
