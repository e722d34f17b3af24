/** The recolouring and combining effects of colorgrade_core.py:
    simple_recolor, rescale_to_fill_range, linear_recolor,
    get_filled_colorgrade, if_else and palletize. Each works on whole
    tables; the per-cell arithmetic is a function of one cell, and the
    lemmas state what the effect promises about whole tables. */
module Effects {
  import opened Outcomes
  import opened Host
  import opened Colorgrade
  import opened Masks
  import opened Expressions
  import opened RealArith

  /** `sep_rgb`: the three channels of a table. */
  function Reds(t: Table): (xs: seq<real>)
    ensures |xs| == |t| && forall n :: 0 <= n < |t| ==> xs[n] == t[n].r
  {
    seq(|t|, n requires 0 <= n < |t| => t[n].r)
  }

  function Greens(t: Table): (xs: seq<real>)
    ensures |xs| == |t| && forall n :: 0 <= n < |t| ==> xs[n] == t[n].g
  {
    seq(|t|, n requires 0 <= n < |t| => t[n].g)
  }

  function Blues(t: Table): (xs: seq<real>)
    ensures |xs| == |t| && forall n :: 0 <= n < |t| ==> xs[n] == t[n].b
  {
    seq(|t|, n requires 0 <= n < |t| => t[n].b)
  }

  // ---------------------------------------------------------------------
  // simple_recolor

  /** One channel carried from [0,1] onto [lo, hi]: `x * (hi - lo) + lo`. */
  function Lerp(x: real, lo: real, hi: real): (y: real)
    ensures x == 0.0 ==> y == lo
    ensures x == 1.0 ==> y == hi
  {
    x * (hi - lo) + lo
  }

  /** A channel of [0,1] lands between the two end colours' channels. */
  lemma LerpBetween(x: real, lo: real, hi: real)
    requires InUnit(x)
    ensures lo <= hi ==> lo <= Lerp(x, lo, hi) <= hi
    ensures hi <= lo ==> hi <= Lerp(x, lo, hi) <= lo
  {
    assert Lerp(x, lo, hi) == x * (hi - lo) + lo;
    if lo <= hi {
      UnitTimes(x, hi - lo);
    } else {
      UnitTimes(x, lo - hi);
      MulNeg(x, lo - hi);
      assert x * (hi - lo) == -(x * (lo - hi));
    }
  }

  /** Recolouring twice is one recolouring whose end colours are the first
      pair recoloured by the second. */
  lemma LerpCompose(x: real, lo1: real, hi1: real, lo2: real, hi2: real)
    ensures Lerp(Lerp(x, lo1, hi1), lo2, hi2) == Lerp(x, Lerp(lo1, lo2, hi2), Lerp(hi1, lo2, hi2))
  {
    var d := hi2 - lo2;
    assert Lerp(hi1, lo2, hi2) - Lerp(lo1, lo2, hi2) == (hi1 - lo1) * d;
    assert (x * (hi1 - lo1)) * d == x * ((hi1 - lo1) * d);
  }

  function RecolorCell(c: Rgb, black: Rgb, white: Rgb): (d: Rgb)
    ensures c == Rgb(0.0, 0.0, 0.0) ==> d == black
    ensures c == Rgb(1.0, 1.0, 1.0) ==> d == white
  {
    Rgb(Lerp(c.r, black.r, white.r), Lerp(c.g, black.g, white.g), Lerp(c.b, black.b, white.b))
  }

  /** simple_recolor: black goes to c_black, white to c_white, and every
      cell to the same affine blend of the two. */
  function SimpleRecolor(t: Table, black: Rgb, white: Rgb): (u: Table)
    ensures |u| == |t|
    ensures forall n :: 0 <= n < |t| && t[n] == Rgb(0.0, 0.0, 0.0) ==> u[n] == black
    ensures forall n :: 0 <= n < |t| && t[n] == Rgb(1.0, 1.0, 1.0) ==> u[n] == white
  {
    seq(|t|, n requires 0 <= n < |t| => RecolorCell(t[n], black, white))
  }

  /** Black onto black and white onto white leaves every table unchanged. */
  lemma SimpleRecolorIdentity(t: Table)
    ensures SimpleRecolor(t, Rgb(0.0, 0.0, 0.0), Rgb(1.0, 1.0, 1.0)) == t
  {
    var u := SimpleRecolor(t, Rgb(0.0, 0.0, 0.0), Rgb(1.0, 1.0, 1.0));
    forall n | 0 <= n < |t|
      ensures u[n] == t[n]
    {
      assert Lerp(t[n].r, 0.0, 1.0) == t[n].r;
      assert Lerp(t[n].g, 0.0, 1.0) == t[n].g;
      assert Lerp(t[n].b, 0.0, 1.0) == t[n].b;
    }
  }

  /** A cell of the unit cube is recoloured, channel by channel, to a value
      between the two end colours. */
  lemma SimpleRecolorBetween(t: Table, black: Rgb, white: Rgb, n: nat)
    requires n < |t| && InUnitCube(t[n])
    ensures var d := SimpleRecolor(t, black, white)[n];
      && (black.r <= white.r ==> black.r <= d.r <= white.r) && (white.r <= black.r ==> white.r <= d.r <= black.r)
      && (black.g <= white.g ==> black.g <= d.g <= white.g) && (white.g <= black.g ==> white.g <= d.g <= black.g)
      && (black.b <= white.b ==> black.b <= d.b <= white.b) && (white.b <= black.b ==> white.b <= d.b <= black.b)
  {
    LerpBetween(t[n].r, black.r, white.r);
    LerpBetween(t[n].g, black.g, white.g);
    LerpBetween(t[n].b, black.b, white.b);
  }

  /** Two simple recolours in a row are one simple recolour. */
  lemma SimpleRecolorCompose(t: Table, black1: Rgb, white1: Rgb, black2: Rgb, white2: Rgb)
    ensures SimpleRecolor(SimpleRecolor(t, black1, white1), black2, white2)
         == SimpleRecolor(t, RecolorCell(black1, black2, white2), RecolorCell(white1, black2, white2))
  {
    var u := SimpleRecolor(SimpleRecolor(t, black1, white1), black2, white2);
    var w := SimpleRecolor(t, RecolorCell(black1, black2, white2), RecolorCell(white1, black2, white2));
    forall n | 0 <= n < |t|
      ensures u[n] == w[n]
    {
      LerpCompose(t[n].r, black1.r, white1.r, black2.r, white2.r);
      LerpCompose(t[n].g, black1.g, white1.g, black2.g, white2.g);
      LerpCompose(t[n].b, black1.b, white1.b, black2.b, white2.b);
    }
  }

  // ---------------------------------------------------------------------
  // rescale_to_fill_range

  /** `max_c - min_c` of one channel, with a zero spread replaced by 1. */
  function Spread(xs: seq<real>): (d: real)
    requires |xs| > 0
    ensures d > 0.0
  {
    var delta := Reduce(Greatest, xs) - Reduce(Least, xs);
    if delta == 0.0 then 1.0 else delta
  }

  /** `(x - lo) / d`. */
  function Scale(x: real, lo: real, d: real): real
    requires d != 0.0
  {
    (x - lo) / d
  }

  /** One value of a channel after rescaling: `(x - min_c) / delta`. */
  function Stretch(xs: seq<real>, x: real): real
    requires |xs| > 0
  {
    Scale(x, Reduce(Least, xs), Spread(xs))
  }

  /** A whole channel after rescaling. */
  function Stretched(xs: seq<real>): (ys: seq<real>)
    requires |xs| > 0
    ensures |ys| == |xs| && forall i :: 0 <= i < |xs| ==> ys[i] == Stretch(xs, xs[i])
  {
    seq(|xs|, i requires 0 <= i < |xs| => Stretch(xs, xs[i]))
  }

  /** One cell of a table after rescaling its channels. */
  function RescaleCell(t: Table, c: Rgb): Rgb
    requires |t| > 0
  {
    Rgb(Stretch(Reds(t), c.r), Stretch(Greens(t), c.g), Stretch(Blues(t), c.b))
  }

  /** The table rescale_to_fill_range returns. */
  function Rescaled(t: Table): (u: Table)
    requires |t| > 0
    ensures |u| == |t|
  {
    seq(|t|, n requires 0 <= n < |t| => RescaleCell(t, t[n]))
  }

  /** The channels of the rescaled table are the rescaled channels. */
  lemma RescaledChannels(t: Table)
    requires |t| > 0
    ensures Reds(Rescaled(t)) == Stretched(Reds(t))
    ensures Greens(Rescaled(t)) == Stretched(Greens(t))
    ensures Blues(Rescaled(t)) == Stretched(Blues(t))
  {
  }

  /** `max_c - min_c` for each channel, then `delta[delta == 0] = 1`. */
  method Spreads(channels: seq<seq<real>>, minC: seq<real>) returns (spread: seq<real>)
    requires |channels| == |minC| && forall i :: 0 <= i < |channels| ==> |channels[i]| > 0
    requires forall i :: 0 <= i < |channels| ==> minC[i] == Reduce(Least, channels[i])
    ensures |spread| == |channels|
    ensures forall i :: 0 <= i < |channels| ==> spread[i] == Spread(channels[i])
  {
    var delta := new real[|channels|](i requires 0 <= i < |channels| => Reduce(Greatest, channels[i]) - minC[i]);
    MaskedUpdate(delta, minC, (lo: real, d: real) => d == 0.0, (lo: real, d: real) => 1.0);
    spread := delta[..];
  }

  /** rescale_to_fill_range: the per-channel extremes, their differences,
      the masked replacement of zero differences by 1, and the division. */
  method RescaleToFillRange(t: Table) returns (u: Table)
    requires |t| > 0
    ensures u == Rescaled(t)
  {
    var channels := [Reds(t), Greens(t), Blues(t)];
    var minC := seq(3, i requires 0 <= i < 3 => Reduce(Least, channels[i]));
    var spread := Spreads(channels, minC);
    var lr, lg, lb := minC[0], minC[1], minC[2];
    var dr, dg, db := spread[0], spread[1], spread[2];
    assert lr == Reduce(Least, Reds(t)) && lg == Reduce(Least, Greens(t)) && lb == Reduce(Least, Blues(t));
    assert dr == Spread(Reds(t)) && dg == Spread(Greens(t)) && db == Spread(Blues(t));
    u := seq(|t|, n requires 0 <= n < |t| => Rgb(Scale(t[n].r, lr, dr), Scale(t[n].g, lg, dg), Scale(t[n].b, lb, db)));
    forall n | 0 <= n < |t|
      ensures u[n] == Rescaled(t)[n]
    {
    }
  }

  /** A value of [lo, hi] rescaled by (x − lo)/(hi − lo) lies in [0,1]. */
  lemma StretchInUnit(x: real, lo: real, hi: real)
    requires lo <= x <= hi && lo < hi
    ensures InUnit((x - lo) / (hi - lo))
  {
    QuotientBounds(x - lo, hi - lo, 0.0, 1.0);
  }

  /** A channel with a spread is carried onto [0,1]: its minimum becomes 0,
      its maximum 1, and every value lands in between. */
  lemma StretchFills(xs: seq<real>)
    requires |xs| > 0 && Reduce(Greatest, xs) != Reduce(Least, xs)
    ensures Stretch(xs, Reduce(Least, xs)) == 0.0
    ensures Stretch(xs, Reduce(Greatest, xs)) == 1.0
    ensures forall i :: 0 <= i < |xs| ==> InUnit(Stretch(xs, xs[i]))
  {
    StretchEnds(xs);
    forall i | 0 <= i < |xs|
      ensures InUnit(Stretch(xs, xs[i]))
    {
      StretchBetween(xs, i);
    }
  }

  lemma StretchEnds(xs: seq<real>)
    requires |xs| > 0 && Reduce(Greatest, xs) != Reduce(Least, xs)
    ensures Stretch(xs, Reduce(Least, xs)) == 0.0
    ensures Stretch(xs, Reduce(Greatest, xs)) == 1.0
  {
    var lo, hi := Reduce(Least, xs), Reduce(Greatest, xs);
    assert Spread(xs) == hi - lo;
    StretchAt(xs, lo, lo, hi);
    StretchAt(xs, hi, lo, hi);
    SelfQuotient(hi - lo);
  }

  lemma StretchBetween(xs: seq<real>, i: nat)
    requires i < |xs| && Reduce(Greatest, xs) != Reduce(Least, xs)
    ensures InUnit(Stretch(xs, xs[i]))
  {
    var lo, hi := Reduce(Least, xs), Reduce(Greatest, xs);
    assert lo <= xs[i] <= hi;
    assert Spread(xs) == hi - lo;
    StretchAt(xs, xs[i], lo, hi);
    StretchInUnit(xs[i], lo, hi);
  }

  /** On a channel with a spread, Stretch is (x − lo)/(hi − lo). */
  lemma StretchAt(xs: seq<real>, x: real, lo: real, hi: real)
    requires |xs| > 0 && lo == Reduce(Least, xs) && hi != lo && Spread(xs) == hi - lo
    ensures Stretch(xs, x) == (x - lo) / (hi - lo)
  {
  }

  /** A constant channel has its spread replaced by 1, so every value of it
      becomes 0. */
  lemma StretchConstant(xs: seq<real>)
    requires |xs| > 0 && Reduce(Greatest, xs) == Reduce(Least, xs)
    ensures forall i :: 0 <= i < |xs| ==> Stretch(xs, xs[i]) == 0.0
  {
    var lo := Reduce(Least, xs);
    forall i | 0 <= i < |xs|
      ensures Stretch(xs, xs[i]) == 0.0
    {
      assert lo <= xs[i] <= Reduce(Greatest, xs);
    }
  }

  /** After rescaling, a channel's minimum is 0 and its maximum is 1, or 0
      for a channel that was constant. */
  lemma StretchedExtremes(xs: seq<real>)
    requires |xs| > 0
    ensures Reduce(Least, Stretched(xs)) == 0.0
    ensures Reduce(Greatest, Stretched(xs)) == if Reduce(Greatest, xs) == Reduce(Least, xs) then 0.0 else 1.0
  {
    if Reduce(Greatest, xs) == Reduce(Least, xs) {
      ConstantExtremes(xs);
    } else {
      SpreadExtremes(xs);
    }
  }

  lemma ConstantExtremes(xs: seq<real>)
    requires |xs| > 0 && Reduce(Greatest, xs) == Reduce(Least, xs)
    ensures Reduce(Least, Stretched(xs)) == 0.0 && Reduce(Greatest, Stretched(xs)) == 0.0
  {
    var ys := Stretched(xs);
    StretchConstant(xs);
    assert ys[0] == 0.0;
    assert IsExtreme(Least, 0.0, ys);
    assert IsExtreme(Greatest, 0.0, ys);
    ReduceUnique(Least, 0.0, ys);
    ReduceUnique(Greatest, 0.0, ys);
  }

  lemma SpreadExtremes(xs: seq<real>)
    requires |xs| > 0 && Reduce(Greatest, xs) != Reduce(Least, xs)
    ensures Reduce(Least, Stretched(xs)) == 0.0 && Reduce(Greatest, Stretched(xs)) == 1.0
  {
    var ys := Stretched(xs);
    var lo, hi := Reduce(Least, xs), Reduce(Greatest, xs);
    var i :| 0 <= i < |xs| && xs[i] == lo;
    var j :| 0 <= j < |xs| && xs[j] == hi;
    StretchFills(xs);
    assert ys[i] == 0.0 && ys[j] == 1.0;
    assert IsExtreme(Least, 0.0, ys);
    assert IsExtreme(Greatest, 1.0, ys);
    ReduceUnique(Least, 0.0, ys);
    ReduceUnique(Greatest, 1.0, ys);
  }

  /** Rescaling a channel that has already been rescaled changes nothing. */
  lemma StretchedIdempotent(xs: seq<real>)
    requires |xs| > 0
    ensures Stretched(Stretched(xs)) == Stretched(xs)
  {
    var ys := Stretched(xs);
    StretchedExtremes(xs);
    assert Spread(ys) == 1.0;
    var zs := Stretched(ys);
    forall i | 0 <= i < |ys|
      ensures zs[i] == ys[i]
    {
      assert zs[i] == Scale(ys[i], 0.0, 1.0);
    }
  }

  /** rescale_to_fill_range is idempotent on tables. */
  lemma RescaleIdempotent(t: Table)
    requires |t| > 0
    ensures Rescaled(Rescaled(t)) == Rescaled(t)
  {
    var u := Rescaled(t);
    var w := Rescaled(u);
    RescaledChannels(t);
    RescaledChannels(u);
    StretchedIdempotent(Reds(t));
    StretchedIdempotent(Greens(t));
    StretchedIdempotent(Blues(t));
    forall n | 0 <= n < |t|
      ensures w[n] == u[n]
    {
      assert Reds(w)[n] == Reds(u)[n];
      assert Greens(w)[n] == Greens(u)[n];
      assert Blues(w)[n] == Blues(u)[n];
    }
  }

  // ---------------------------------------------------------------------
  // linear_recolor

  /** The eight corner colours in the order linear_recolor unpacks them. */
  datatype Palette = Palette(black: Rgb, white: Rgb, red: Rgb, green: Rgb, blue: Rgb,
                             yellow: Rgb, magenta: Rgb, cyan: Rgb)

  datatype Channel = R | G | B

  function Get(c: Rgb, ch: Channel): real {
    match ch
    case R => c.r
    case G => c.g
    case B => c.b
  }

  /** Unpacking the colour list into eight names: any other number of
      colours is a ValueError. */
  function Unpack(colors: seq<Rgb>): (r: Result<Palette>)
    ensures r.Ok? <==> |colors| == 8
    ensures r.Ok? ==> r.value == Palette(colors[0], colors[1], colors[2], colors[3],
                                          colors[4], colors[5], colors[6], colors[7])
    ensures r.Err? ==> r.error == ValueError
  {
    if |colors| == 8 then
      Ok(Palette(colors[0], colors[1], colors[2], colors[3], colors[4], colors[5], colors[6], colors[7]))
    else Err(ValueError)
  }

  /** One channel of the multilinear blend of the eight corner colours. */
  function Mix(c: Rgb, p: Palette, ch: Channel): real {
    var r, g, b := c.r, c.g, c.b;
    Get(p.black, ch) * (1.0 - r) * (1.0 - g) * (1.0 - b)
    + Get(p.red, ch) * r * (1.0 - g) * (1.0 - b)
    + Get(p.green, ch) * (1.0 - r) * g * (1.0 - b)
    + Get(p.blue, ch) * (1.0 - r) * (1.0 - g) * b
    + Get(p.yellow, ch) * r * g * (1.0 - b)
    + Get(p.cyan, ch) * (1.0 - r) * g * b
    + Get(p.magenta, ch) * r * (1.0 - g) * b
    + Get(p.white, ch) * r * g * b
  }

  function Blend(c: Rgb, p: Palette): Rgb {
    Rgb(Mix(c, p, R), Mix(c, p, G), Mix(c, p, B))
  }

  /** linear_recolor: each cell becomes the blend of the eight corner
      colours weighted by its position in the cube. */
  function LinearRecolor(t: Table, colors: seq<Rgb>): (r: Result<Table>)
    ensures r.Ok? <==> |colors| == 8
    ensures r.Err? ==> r.error == ValueError
    ensures r.Ok? ==> |r.value| == |t|
  {
    var p :- Unpack(colors);
    Ok(seq(|t|, n requires 0 <= n < |t| => Blend(t[n], p)))
  }

  /** The eight blend weights sum to 1 at every cell. */
  lemma WeightsSumToOne(r: real, g: real, b: real)
    ensures (1.0 - r) * (1.0 - g) * (1.0 - b) + r * (1.0 - g) * (1.0 - b)
          + (1.0 - r) * g * (1.0 - b) + (1.0 - r) * (1.0 - g) * b
          + r * g * (1.0 - b) + (1.0 - r) * g * b
          + r * (1.0 - g) * b + r * g * b == 1.0
  {
    var u, v := (1.0 - g) * (1.0 - b), g * (1.0 - b);
    var w, z := (1.0 - g) * b, g * b;
    assert (1.0 - r) * (1.0 - g) * (1.0 - b) + r * (1.0 - g) * (1.0 - b) == u;
    assert (1.0 - r) * g * (1.0 - b) + r * g * (1.0 - b) == v;
    assert (1.0 - r) * (1.0 - g) * b + r * (1.0 - g) * b == w;
    assert (1.0 - r) * g * b + r * g * b == z;
    assert u + v == 1.0 - b;
    assert w + z == b;
  }

  /** A cell at a corner of the cube receives exactly that corner's colour. */
  lemma BlendCorners(p: Palette)
    ensures Blend(Rgb(0.0, 0.0, 0.0), p) == p.black
    ensures Blend(Rgb(1.0, 1.0, 1.0), p) == p.white
    ensures Blend(Rgb(1.0, 0.0, 0.0), p) == p.red
    ensures Blend(Rgb(0.0, 1.0, 0.0), p) == p.green
    ensures Blend(Rgb(0.0, 0.0, 1.0), p) == p.blue
    ensures Blend(Rgb(1.0, 1.0, 0.0), p) == p.yellow
    ensures Blend(Rgb(1.0, 0.0, 1.0), p) == p.magenta
    ensures Blend(Rgb(0.0, 1.0, 1.0), p) == p.cyan
  {
  }

  /** The colour list whose corners are the cube's own corners, in the
      unpacking order. */
  function IdentityColors(): (colors: seq<Rgb>)
    ensures |colors| == 8
  {
    [Rgb(0.0, 0.0, 0.0), Rgb(1.0, 1.0, 1.0), Rgb(1.0, 0.0, 0.0), Rgb(0.0, 1.0, 0.0),
     Rgb(0.0, 0.0, 1.0), Rgb(1.0, 1.0, 0.0), Rgb(1.0, 0.0, 1.0), Rgb(0.0, 1.0, 1.0)]
  }

  /** The blend of the corners that contain a channel is that channel. */
  lemma CornerSum(x: real, y: real, z: real)
    ensures x * (1.0 - y) * (1.0 - z) + x * y * (1.0 - z) + x * (1.0 - y) * z + x * y * z == x
  {
    assert x * (1.0 - y) * (1.0 - z) + x * y * (1.0 - z) == x * (1.0 - z);
    assert x * (1.0 - y) * z + x * y * z == x * z;
  }

  /** With the identity colours every cell keeps its colour. */
  lemma BlendIdentity(c: Rgb)
    ensures Blend(c, Unpack(IdentityColors()).value) == c
  {
    var p := Unpack(IdentityColors()).value;
    CornerSum(c.r, c.g, c.b);
    CornerSum(c.g, c.r, c.b);
    CornerSum(c.b, c.r, c.g);
    assert Mix(c, p, R) == c.r * (1.0 - c.g) * (1.0 - c.b) + c.r * c.g * (1.0 - c.b)
                         + c.r * (1.0 - c.g) * c.b + c.r * c.g * c.b;
    assert Mix(c, p, G) == (1.0 - c.r) * c.g * (1.0 - c.b) + c.r * c.g * (1.0 - c.b)
                         + (1.0 - c.r) * c.g * c.b + c.r * c.g * c.b;
    assert Mix(c, p, B) == (1.0 - c.r) * (1.0 - c.g) * c.b + (1.0 - c.r) * c.g * c.b
                         + c.r * (1.0 - c.g) * c.b + c.r * c.g * c.b;
  }

  /** linear_recolor with the identity palette returns its input. */
  lemma LinearRecolorIdentity(t: Table)
    ensures LinearRecolor(t, IdentityColors()) == Ok(t)
  {
    var u := LinearRecolor(t, IdentityColors()).value;
    forall n | 0 <= n < |t|
      ensures u[n] == t[n]
    {
      BlendIdentity(t[n]);
    }
    assert u == t;
  }

  /** Eight copies of one colour blend to that colour everywhere. */
  lemma BlendConstant(c: Rgb, q: Rgb)
    ensures Blend(c, Palette(q, q, q, q, q, q, q, q)) == q
  {
    WeightsSumToOne(c.r, c.g, c.b);
    var r, g, b := c.r, c.g, c.b;
    var w0, w1, w2, w3 := (1.0 - r) * (1.0 - g) * (1.0 - b), r * (1.0 - g) * (1.0 - b), (1.0 - r) * g * (1.0 - b), (1.0 - r) * (1.0 - g) * b;
    var w4, w5, w6, w7 := r * g * (1.0 - b), (1.0 - r) * g * b, r * (1.0 - g) * b, r * g * b;
    assert w0 + w1 + w2 + w3 + w4 + w5 + w6 + w7 == 1.0;
    forall ch: Channel
      ensures Mix(c, Palette(q, q, q, q, q, q, q, q), ch) == Get(q, ch)
    {
      var x := Get(q, ch);
      assert Mix(c, Palette(q, q, q, q, q, q, q, q), ch)
          == x * w0 + x * w1 + x * w2 + x * w3 + x * w4 + x * w5 + x * w6 + x * w7;
      assert x * w0 + x * w1 + x * w2 + x * w3 + x * w4 + x * w5 + x * w6 + x * w7
          == x * (w0 + w1 + w2 + w3 + w4 + w5 + w6 + w7);
    }
    assert Mix(c, Palette(q, q, q, q, q, q, q, q), R) == q.r;
    assert Mix(c, Palette(q, q, q, q, q, q, q, q), G) == q.g;
    assert Mix(c, Palette(q, q, q, q, q, q, q, q), B) == q.b;
  }

  // ---------------------------------------------------------------------
  // get_filled_colorgrade

  /** get_filled_colorgrade: a table holding one colour in every cell. */
  function Fill(color: Rgb): (t: Table)
    ensures IsTable(t)
    ensures forall n :: 0 <= n < |t| ==> t[n] == color
  {
    seq(Cells, _ => color)
  }

  /** linear_recolor with all eight corners set to one colour is a fill
      with that colour. */
  lemma LinearRecolorConstant(t: Table, q: Rgb)
    requires IsTable(t)
    ensures LinearRecolor(t, [q, q, q, q, q, q, q, q]) == Ok(Fill(q))
  {
    var u := LinearRecolor(t, [q, q, q, q, q, q, q, q]).value;
    forall n | 0 <= n < |t|
      ensures u[n] == q
    {
      BlendConstant(t[n], q);
    }
    assert u == Fill(q);
  }

  // ---------------------------------------------------------------------
  // if_else

  /** The names a condition expression sees: the condition table's three
      channels. */
  function ConditionBindings(cond: Table): (env: Env)
    ensures env.Keys == {"r", "g", "b"}
  {
    map["r" := Numbers(Reds(cond)), "g" := Numbers(Greens(cond)), "b" := Numbers(Blues(cond))]
  }

  /** `cg1 * mask + cg2 * (~mask)` for a boolean mask of the table's size. */
  function Select(mask: seq<bool>, t1: Table, t2: Table): (u: Table)
    requires |mask| == |t1| == |t2|
    ensures |u| == |t1|
    ensures forall n :: 0 <= n < |u| ==> u[n] == (if mask[n] then t1[n] else t2[n])
  {
    seq(|t1|, n requires 0 <= n < |t1| => if mask[n] then t1[n] else t2[n])
  }

  /** The mask arithmetic of if_else on an evaluated condition: a boolean
      grid of the table's size selects cell by cell; a grid of another size
      does not broadcast against the table (ValueError); a float grid or a
      float scalar has no `~` (TypeError), and neither has a float vector or
      a tuple once it has broadcast, which it does with one or three
      entries. */
  function Combine(mask: Value, t1: Table, t2: Table): (r: Result<Table>)
    requires |t2| == |t1|
    ensures r.Ok? <==> mask.Flags? && |mask.bs| == |t1|
    ensures r.Ok? ==> r.value == Select(mask.bs, t1, t2)
  {
    match mask
    case Flags(bs) => if |bs| == |t1| then Ok(Select(bs, t1, t2)) else Err(ValueError)
    case Numbers(xs) => if |xs| == |t1| || |xs| == 1 || |xs| == 3 then Err(TypeError) else Err(ValueError)
    case Scalar(_) => Err(TypeError)
    case Dims(ds) => if |ds| == 1 || |ds| == 3 then Err(TypeError) else Err(ValueError)
  }

  /** if_else: evaluate the condition on the condition table's channels and
      take each cell from the first table where it holds, from the second
      where it does not. */
  function IfElse(host: Host, t1: Table, t2: Table, cond: Table, condition: string): (r: Result<Table>)
    requires |t2| == |t1| && |cond| == |t1|
    ensures host.eval(condition, ConditionBindings(cond)).Err? ==> r == host.eval(condition, ConditionBindings(cond)).PropagateFailure()
    ensures r.Ok? <==> (host.eval(condition, ConditionBindings(cond)).Ok?
                    && Combine(host.eval(condition, ConditionBindings(cond)).value, t1, t2).Ok?)
    ensures r.Ok? ==> exists bs :: |bs| == |t1| && host.eval(condition, ConditionBindings(cond)) == Ok(Flags(bs))
                                && r.value == Select(bs, t1, t2)
    ensures r.Ok? ==> |r.value| == |t1|
  {
    var mask :- EvalWith(host, condition, None, ConditionBindings(cond));
    Combine(mask, t1, t2)
  }

  /** Choosing between a table and itself gives that table, whatever the
      condition selects. */
  lemma IfElseSame(host: Host, t: Table, cond: Table, condition: string)
    requires |cond| == |t|
    ensures IfElse(host, t, t, cond, condition).Ok? ==> IfElse(host, t, t, cond, condition).value == t
  {
  }

  // ---------------------------------------------------------------------
  // palletize

  /** palletize is a placeholder: it raises NotImplementedError for every
      input. */
  function Palletize(t: Table, colors: seq<Rgb>, mode: Option<string>): (r: Result<Table>)
    ensures r == Err(NotImplementedError)
  {
    Err(NotImplementedError)
  }
}
