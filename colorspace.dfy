/** rgb_to_hsv and hsv_to_rgb of colorgrade_core.py. Both build arrays and
    fill them through masked assignments; each method here performs the same
    passes in the same order and is proved equal, cell by cell, to a
    specification function of one cell (HsvOf, RgbOf) that carries the
    properties of the conversion. */
module ColorSpace {
  import opened Colorgrade
  import opened Masks
  import opened RealArith

  /** A cell of an HSV table: hue in degrees, saturation, value. numpy keeps
      it in the same (16,16,16,3) layout as an RGB table. */
  datatype Hsv = Hsv(h: real, s: real, v: real)

  function Max3(c: Rgb): (m: real)
    ensures m >= c.r && m >= c.g && m >= c.b
    ensures m == c.r || m == c.g || m == c.b
  {
    if c.r >= c.g && c.r >= c.b then c.r else if c.g >= c.b then c.g else c.b
  }

  function Min3(c: Rgb): (m: real)
    ensures m <= c.r && m <= c.g && m <= c.b
    ensures m == c.r || m == c.g || m == c.b
  {
    if c.r <= c.g && c.r <= c.b then c.r else if c.g <= c.b then c.g else c.b
  }

  /** Python's float `%` with a positive modulus: the result takes the sign
      of the modulus. */
  function FloorMod(x: real, m: real): (y: real)
    requires m > 0.0
    ensures 0.0 <= y < m
  {
    FloorBounds(x, m);
    x - (x / m).Floor as real * m
  }

  /** On [k·m, k·m + m) the remainder is x − k·m. */
  lemma FloorModOn(x: real, m: real, k: int)
    requires m > 0.0
    requires k as real * m <= x < k as real * m + m
    ensures FloorMod(x, m) == x - k as real * m
  {
    FloorOn(x, m, k);
  }

  // ---------------------------------------------------------------------
  // RGB to HSV

  /** The hue: 0 for a grey cell (the delta sentinel); otherwise chosen by
      the LAST of r, g, b that attains the maximum, since the three masked
      assignments run in that order and later ones overwrite earlier ones. */
  function Hue(c: Rgb): real {
    var delta := Max3(c) - Min3(c);
    if delta == 0.0 then 0.0
    else if c.b == Max3(c) then 60.0 * ((c.r - c.g) / delta) + 240.0
    else if c.g == Max3(c) then 60.0 * ((c.b - c.r) / delta) + 120.0
    else 60.0 * FloorMod((c.g - c.b) / delta, 6.0)
  }

  /** The saturation: delta over the maximum, with a zero maximum replaced
      by 1 (so a zero maximum gives the delta itself, 0 on a grey cell). */
  function Saturation(c: Rgb): real {
    var delta := Max3(c) - Min3(c);
    if Max3(c) == 0.0 then delta else delta / Max3(c)
  }

  lemma HueBounds(c: Rgb)
    ensures 0.0 <= Hue(c) < 360.0
  {
    var delta := Max3(c) - Min3(c);
    if delta != 0.0 {
      if c.b == Max3(c) {
        QuotientBounds(c.r - c.g, delta, -1.0, 1.0);
      } else if c.g == Max3(c) {
        QuotientBounds(c.b - c.r, delta, -1.0, 1.0);
      }
    }
  }

  function HsvOf(c: Rgb): (p: Hsv)
    ensures p.v == Max3(c)
    ensures 0.0 <= p.h < 360.0
    ensures Max3(c) == Min3(c) ==> p.h == 0.0 && p.s == 0.0
  {
    HueBounds(c);
    Hsv(Hue(c), Saturation(c), Max3(c))
  }

  /** For a cell of the unit cube the saturation is (max − min)/max, or 0
      when max = 0, and lies in [0,1]. */
  lemma SaturationInUnitCube(c: Rgb)
    requires InUnitCube(c)
    ensures Max3(c) == 0.0 ==> HsvOf(c).s == 0.0
    ensures Max3(c) > 0.0 ==> HsvOf(c).s == (Max3(c) - Min3(c)) / Max3(c)
    ensures 0.0 <= HsvOf(c).s <= 1.0
  {
    if Max3(c) > 0.0 {
      QuotientBounds(Max3(c) - Min3(c), Max3(c), 0.0, 1.0);
    }
  }

  /** `delta` once grey cells carry the −1 sentinel. */
  function Flagged(c: Rgb): (d: real)
    ensures d != 0.0
  {
    if Max3(c) - Min3(c) == 0.0 then -1.0 else Max3(c) - Min3(c)
  }

  /** The four hue assignments, each over the cells its mask selects; the
      cells pair a colour with its flagged delta. */
  method HuePasses(h: array<real>, cells: seq<(Rgb, real)>)
    requires h.Length == |cells|
    requires forall n :: 0 <= n < |cells| ==> cells[n].1 == Flagged(cells[n].0)
    modifies h
    ensures forall n :: 0 <= n < |cells| ==> h[n] == Hue(cells[n].0)
  {
    MaskedUpdate(h, cells, (p: (Rgb, real), x: real) => p.0.r == Max3(p.0),
      (p: (Rgb, real), x: real) requires p.1 != 0.0 => 60.0 * FloorMod((p.0.g - p.0.b) / p.1, 6.0));
    MaskedUpdate(h, cells, (p: (Rgb, real), x: real) => p.0.g == Max3(p.0),
      (p: (Rgb, real), x: real) requires p.1 != 0.0 => 60.0 * ((p.0.b - p.0.r) / p.1) + 120.0);
    MaskedUpdate(h, cells, (p: (Rgb, real), x: real) => p.0.b == Max3(p.0),
      (p: (Rgb, real), x: real) requires p.1 != 0.0 => 60.0 * ((p.0.r - p.0.g) / p.1) + 240.0);
    MaskedUpdate(h, cells, (p: (Rgb, real), x: real) => p.1 < 0.0, (p: (Rgb, real), x: real) => 0.0);
  }

  /** `delta = c_max - c_min; delta[delta == 0] = -1` */
  method FlaggedDeltas(colors: seq<Rgb>) returns (delta: array<real>)
    ensures fresh(delta) && delta.Length == |colors|
    ensures forall n :: 0 <= n < |colors| ==> delta[n] == Flagged(colors[n])
  {
    var len := |colors|;
    delta := new real[len](n requires 0 <= n < len => Max3(colors[n]) - Min3(colors[n]));
    MaskedUpdate(delta, colors, (c: Rgb, d: real) => d == 0.0, (c: Rgb, d: real) => -1.0);
  }

  /** `delta[delta < 0] = 0; c_max_denom[c_max == 0] = 1; s = delta / c_max_denom` */
  method SaturationPasses(delta: array<real>, colors: seq<Rgb>) returns (s: seq<real>)
    requires delta.Length == |colors|
    requires forall n :: 0 <= n < |colors| ==> delta[n] == Flagged(colors[n])
    modifies delta
    ensures |s| == |colors|
    ensures forall n :: 0 <= n < |colors| ==> s[n] == Saturation(colors[n])
  {
    var len := |colors|;
    MaskedUpdate(delta, colors, (c: Rgb, d: real) => d < 0.0, (c: Rgb, d: real) => 0.0);
    var cMax := seq(len, n requires 0 <= n < len => Max3(colors[n]));
    var denom := new real[len](n requires 0 <= n < len => cMax[n]);
    MaskedUpdate(denom, cMax, (m: real, d: real) => m == 0.0, (m: real, d: real) => 1.0);
    var spread, divisor := delta[..], denom[..];
    assert forall n :: 0 <= n < len ==> divisor[n] != 0.0;
    s := seq(len, n requires 0 <= n < len => spread[n] / divisor[n]);
  }

  /** rgb_to_hsv on a whole table, pass by pass. */
  method RgbToHsv(colors: seq<Rgb>) returns (hsv: seq<Hsv>)
    ensures |hsv| == |colors|
    ensures forall n :: 0 <= n < |colors| ==> hsv[n] == HsvOf(colors[n])
  {
    var len := |colors|;
    var delta := FlaggedDeltas(colors);
    var flagged := delta[..];
    var cells := seq(len, n requires 0 <= n < len => (colors[n], flagged[n]));
    var h := new real[len];
    HuePasses(h, cells);
    var hue := h[..];
    var sat := SaturationPasses(delta, colors);
    hsv := seq(len, n requires 0 <= n < len => Hsv(hue[n], sat[n], Max3(colors[n])));
    forall n | 0 <= n < len
      ensures hsv[n] == HsvOf(colors[n])
    {
      assert hue[n] == Hue(cells[n].0);
    }
  }

  // ---------------------------------------------------------------------
  // HSV to RGB

  lemma ReducedHueOfHue(h: real)
    ensures 0.0 <= h < 360.0 ==> FloorMod(h, 360.0) == h
  {
    if 0.0 <= h < 360.0 {
      FloorModOn(h, 360.0, 0);
    }
  }

  /** `h % 360`: inputs may arrive outside [0,360) after a hue shift. */
  function ReducedHue(p: Hsv): (h: real)
    ensures 0.0 <= h < 360.0
    ensures 0.0 <= p.h < 360.0 ==> h == p.h
  {
    ReducedHueOfHue(p.h);
    FloorMod(p.h, 360.0)
  }

  function Chroma(p: Hsv): real {
    p.v * p.s
  }

  /** x = c · (1 − |(h/60) mod 2 − 1|) */
  function Ramp(p: Hsv): real {
    Chroma(p) * (1.0 - Abs(FloorMod(ReducedHue(p) / 60.0, 2.0) - 1.0))
  }

  /** m = v − c, added to every channel at the end. */
  function Offset(p: Hsv): real {
    p.v - Chroma(p)
  }

  /** `(h // 60).astype(int)`: the 60-degree sector of the reduced hue. */
  function Sector(p: Hsv): (k: int)
    ensures 0 <= k <= 5
  {
    var k := (ReducedHue(p) / 60.0).Floor;
    QuotientBounds(ReducedHue(p), 60.0, 0.0, 6.0);
    k
  }

  /** With non-negative s and v the ramp x lies between 0 and the chroma. */
  lemma RampBounds(p: Hsv)
    ensures 0.0 <= p.s && 0.0 <= p.v ==> 0.0 <= Ramp(p) <= Chroma(p)
  {
    if 0.0 <= p.s && 0.0 <= p.v {
      MulMono(0.0, p.v, p.s);
      var w := 1.0 - Abs(FloorMod(ReducedHue(p) / 60.0, 2.0) - 1.0);
      MulMono(0.0, w, Chroma(p));
      MulMono(w, 1.0, Chroma(p));
    }
  }

  /** The sector table: where chroma c and the ramp x go before m is added. */
  function SectorColor(k: int, c: real, x: real): Rgb
    requires 0 <= k <= 5
  {
    if k == 0 then Rgb(c, x, 0.0)
    else if k == 1 then Rgb(x, c, 0.0)
    else if k == 2 then Rgb(0.0, c, x)
    else if k == 3 then Rgb(0.0, x, c)
    else if k == 4 then Rgb(x, 0.0, c)
    else Rgb(c, 0.0, x)
  }

  function RgbOf(p: Hsv): (c: Rgb)
    ensures p.s == 0.0 ==> c == Rgb(p.v, p.v, p.v)
  {
    var s := SectorColor(Sector(p), Chroma(p), Ramp(p));
    Rgb(s.r + Offset(p), s.g + Offset(p), s.b + Offset(p))
  }

  /** Every sector-table entry holds the chroma, the ramp and a zero. */
  lemma SectorColorBounds(k: int, cc: real, x: real)
    requires 0 <= k <= 5 && 0.0 <= x <= cc
    ensures var s := SectorColor(k, cc, x); 0.0 <= s.r <= cc && 0.0 <= s.g <= cc && 0.0 <= s.b <= cc
  {}

  /** Every channel of hsv_to_rgb lies between m and m + c. */
  lemma RgbOfBetween(p: Hsv)
    requires 0.0 <= p.s && 0.0 <= p.v
    ensures var c, m := RgbOf(p), Offset(p);
      && m <= c.r <= m + Chroma(p) && m <= c.g <= m + Chroma(p) && m <= c.b <= m + Chroma(p)
  {
    RampBounds(p);
    SectorColorBounds(Sector(p), Chroma(p), Ramp(p));
  }

  /** With s and v in [0,1] every channel lies between v − v·s and v, so
      hsv_to_rgb stays inside the unit cube. */
  lemma RgbOfBounds(p: Hsv)
    requires 0.0 <= p.s <= 1.0 && 0.0 <= p.v <= 1.0
    ensures var c := RgbOf(p);
      && Offset(p) <= c.r <= p.v && Offset(p) <= c.g <= p.v && Offset(p) <= c.b <= p.v
    ensures InUnitCube(RgbOf(p))
  {
    RgbOfBetween(p);
    ChromaAtMost(p);
  }

  lemma ChromaAtMost(p: Hsv)
    requires 0.0 <= p.s <= 1.0 && 0.0 <= p.v
    ensures 0.0 <= Chroma(p) <= p.v
  {
    MulAtMost(p.v, p.s);
    assert p.v * p.s <= p.v;
    assert Chroma(p) == p.v * p.s;
  }

  /** The result cell once the passes for sectors 0..k have run: the sector
      table entry if the cell's sector has been written, still zero if not. */
  ghost function AfterSectors(p: Hsv, k: int): Rgb {
    if Sector(p) <= k then SectorColor(Sector(p), Chroma(p), Ramp(p)) else Rgb(0.0, 0.0, 0.0)
  }

  ghost predicate Holds(red: array<real>, green: array<real>, blue: array<real>, colors: seq<Hsv>, k: int)
    reads red, green, blue
  {
    && red.Length == green.Length == blue.Length == |colors|
    && forall n :: 0 <= n < |colors| ==> Rgb(red[n], green[n], blue[n]) == AfterSectors(colors[n], k)
  }

  /** The two masked assignments of one sector: the chroma into one channel
      and the ramp into another, for the cells of sector k only. */
  method PaintSector(k: int, chroma: array<real>, ramp: array<real>, colors: seq<Hsv>)
    requires chroma != ramp && chroma.Length == ramp.Length == |colors|
    modifies chroma, ramp
    ensures forall n :: 0 <= n < |colors| ==>
      chroma[n] == (if Sector(colors[n]) == k then Chroma(colors[n]) else old(chroma[n]))
    ensures forall n :: 0 <= n < |colors| ==>
      ramp[n] == (if Sector(colors[n]) == k then Ramp(colors[n]) else old(ramp[n]))
  {
    MaskedUpdate(chroma, colors, (p: Hsv, y: real) => Sector(p) == k, (p: Hsv, y: real) => Chroma(p));
    MaskedUpdate(ramp, colors, (p: Hsv, y: real) => Sector(p) == k, (p: Hsv, y: real) => Ramp(p));
  }

  /** `result += m` on one channel. */
  method AddOffset(channel: array<real>, colors: seq<Hsv>)
    requires channel.Length == |colors|
    modifies channel
    ensures forall n :: 0 <= n < |colors| ==> channel[n] == old(channel[n]) + Offset(colors[n])
  {
    MaskedUpdate(channel, colors, (p: Hsv, y: real) => true, (p: Hsv, y: real) => y + Offset(p));
  }

  /** The passes for sectors 0, 1 and 2 (hues below 180 degrees). */
  method PaintLowSectors(red: array<real>, green: array<real>, blue: array<real>, colors: seq<Hsv>)
    requires red != green && green != blue && red != blue
    requires Holds(red, green, blue, colors, -1)
    modifies red, green, blue
    ensures Holds(red, green, blue, colors, 2)
  {
    PaintSector(0, red, green, colors);
    assert Holds(red, green, blue, colors, 0);
    PaintSector(1, green, red, colors);
    assert Holds(red, green, blue, colors, 1);
    PaintSector(2, green, blue, colors);
  }

  /** The passes for sectors 3, 4 and 5 (hues from 180 degrees on). */
  method PaintHighSectors(red: array<real>, green: array<real>, blue: array<real>, colors: seq<Hsv>)
    requires red != green && green != blue && red != blue
    requires Holds(red, green, blue, colors, 2)
    modifies red, green, blue
    ensures Holds(red, green, blue, colors, 5)
  {
    PaintSector(3, blue, green, colors);
    assert Holds(red, green, blue, colors, 3);
    PaintSector(4, blue, red, colors);
    assert Holds(red, green, blue, colors, 4);
    PaintSector(5, red, blue, colors);
  }

  /** hsv_to_rgb on a whole table: six sector passes into a zeroed result,
      then `result += m`. */
  method HsvToRgb(colors: seq<Hsv>) returns (rgb: seq<Rgb>)
    ensures |rgb| == |colors|
    ensures forall n :: 0 <= n < |colors| ==> rgb[n] == RgbOf(colors[n])
  {
    var len := |colors|;
    var red := new real[len](n => 0.0);
    var green := new real[len](n => 0.0);
    var blue := new real[len](n => 0.0);
    PaintLowSectors(red, green, blue, colors);
    PaintHighSectors(red, green, blue, colors);
    AddOffset(red, colors);
    AddOffset(green, colors);
    AddOffset(blue, colors);
    var r, g, b := red[..], green[..], blue[..];
    rgb := seq(len, n requires 0 <= n < len => Rgb(r[n], g[n], b[n]));
  }

  // ---------------------------------------------------------------------
  // Round trip

  /** On a cell with a spread (max > min), the chroma is the spread and the
      offset m is the minimum. */
  lemma ChromaOfSpread(c: Rgb)
    requires InUnitCube(c) && Max3(c) > Min3(c)
    ensures Chroma(HsvOf(c)) == Max3(c) - Min3(c)
    ensures Offset(HsvOf(c)) == Min3(c)
  {
    MulQuotient(Max3(c) - Min3(c), Max3(c));
  }

  /** The sector of an HSV cell whose hue lies in [60k, 60k + 60). */
  lemma SectorOn(p: Hsv, k: int)
    requires 0.0 <= p.h < 360.0
    requires k as real * 60.0 <= p.h < k as real * 60.0 + 60.0
    ensures Sector(p) == k
  {
    FloorOn(p.h, 60.0, k);
  }

  /** The ramp of an HSV cell whose hue/60 lies in [2j, 2j + 2). */
  lemma RampOn(p: Hsv, j: int)
    requires 0.0 <= p.h < 360.0
    requires j as real * 2.0 <= p.h / 60.0 < j as real * 2.0 + 2.0
    ensures Ramp(p) == Chroma(p) * (1.0 - Abs(p.h / 60.0 - j as real * 2.0 - 1.0))
  {
    FloorModOn(p.h / 60.0, 2.0, j);
  }

  /** hsv_to_rgb of a cell once its sector, ramp, chroma and offset are
      known. */
  lemma Assemble(p: Hsv, k: int, x: real, cc: real, m: real)
    requires 0 <= k <= 5
    requires Sector(p) == k && Ramp(p) == x && Chroma(p) == cc && Offset(p) == m
    ensures RgbOf(p) == Rgb(SectorColor(k, cc, x).r + m, SectorColor(k, cc, x).g + m, SectorColor(k, cc, x).b + m)
  {}

  /** Blue is the maximum: the hue is 240 + 60·(r − g)/d, in sector 5 when
      red is also the maximum, 4 when red is at least green, 3 otherwise. */
  lemma RoundTripBlue(c: Rgb)
    requires InUnitCube(c) && Max3(c) > Min3(c) && c.b == Max3(c)
    ensures RgbOf(HsvOf(c)) == c
  {
    var p := HsvOf(c);
    var d, lo := Max3(c) - Min3(c), Min3(c);
    ChromaOfSpread(c);
    var a := c.r - c.g;
    MulQuotient(a, d);
    if c.r == c.b {
      assert a == d;
      SelfQuotient(d);
      BlueMagenta(p, a / d, d, lo);
    } else if c.r >= c.g {
      UnitQuotient(a, d);
      BlueRising(p, a / d, d, lo);
    } else {
      NegativeUnitQuotient(a, d);
      BlueFalling(p, a / d, d, lo);
    }
  }

  /** A hue of exactly 300 degrees: sector 5 with a full ramp. */
  lemma BlueMagenta(p: Hsv, t: real, d: real, lo: real)
    requires t == 1.0 && p.h == 60.0 * t + 240.0
    requires Chroma(p) == d && Offset(p) == lo
    ensures RgbOf(p) == Rgb(d + lo, lo, d + lo)
  {
    SectorOn(p, 5);
    RampOn(p, 2);
    Assemble(p, 5, d, d, lo);
  }

  /** Hues in [240, 300): sector 4, ramp d·t. */
  lemma BlueRising(p: Hsv, t: real, d: real, lo: real)
    requires 0.0 <= t < 1.0 && p.h == 60.0 * t + 240.0
    requires Chroma(p) == d && Offset(p) == lo
    ensures RgbOf(p) == Rgb(d * t + lo, lo, d + lo)
  {
    SectorOn(p, 4);
    RampOn(p, 2);
    assert 1.0 - Abs(p.h / 60.0 - 2.0 * 2.0 - 1.0) == t;
    Assemble(p, 4, d * t, d, lo);
  }

  /** Hues in [180, 240): sector 3, ramp −d·t. */
  lemma BlueFalling(p: Hsv, t: real, d: real, lo: real)
    requires -1.0 <= t < 0.0 && p.h == 60.0 * t + 240.0
    requires Chroma(p) == d && Offset(p) == lo
    ensures RgbOf(p) == Rgb(lo, -(d * t) + lo, d + lo)
  {
    SectorOn(p, 3);
    RampOn(p, 1);
    assert 1.0 - Abs(p.h / 60.0 - 1.0 * 2.0 - 1.0) == -t;
    MulNeg(d, t);
    Assemble(p, 3, -(d * t), d, lo);
  }

  /** Green is the maximum and blue is below it: the hue is
      120 + 60·(b − r)/d, in sectors 1 and 2. */
  lemma RoundTripGreen(c: Rgb)
    requires InUnitCube(c) && Max3(c) > Min3(c) && c.b != Max3(c) && c.g == Max3(c)
    ensures RgbOf(HsvOf(c)) == c
  {
    var p := HsvOf(c);
    var d, lo := Max3(c) - Min3(c), Min3(c);
    ChromaOfSpread(c);
    var a := c.b - c.r;
    var t := a / d;
    assert p.h / 60.0 == t + 2.0;
    MulQuotient(a, d);
    if c.b >= c.r {
      UnitQuotient(a, d);
      SectorOn(p, 2);
      RampOn(p, 1);
      Assemble(p, 2, a, d, lo);
    } else {
      NegativeUnitQuotient(a, d);
      SectorOn(p, 1);
      RampOn(p, 0);
      MulNeg(d, t);
      Assemble(p, 1, -a, d, lo);
    }
  }

  /** Red alone is the maximum: the hue is 60·((g − b)/d mod 6), in sector 0
      or, for g < b, sector 5. */
  lemma RoundTripRed(c: Rgb)
    requires InUnitCube(c) && Max3(c) > Min3(c) && c.b != Max3(c) && c.g != Max3(c)
    ensures RgbOf(HsvOf(c)) == c
  {
    var p := HsvOf(c);
    var d, lo := Max3(c) - Min3(c), Min3(c);
    ChromaOfSpread(c);
    var a := c.g - c.b;
    MulQuotient(a, d);
    if c.g >= c.b {
      UnitQuotient(a, d);
      RedYellow(p, a / d, d, lo);
    } else {
      RoundTripRedWrap(c);
    }
  }

  /** Red alone is the maximum and green is below blue: the hue wraps
      around through the modulus into sector 5. */
  lemma RoundTripRedWrap(c: Rgb)
    requires InUnitCube(c) && Max3(c) > Min3(c) && c.b != Max3(c) && c.g != Max3(c) && c.g < c.b
    ensures RgbOf(HsvOf(c)) == c
  {
    var p := HsvOf(c);
    var d, lo := Max3(c) - Min3(c), Min3(c);
    ChromaOfSpread(c);
    var a := c.g - c.b;
    MulQuotient(a, d);
    NegativeUnitQuotient(a, d);
    RedMagenta(p, a / d, d, lo);
  }

  /** Hues in [0, 60): sector 0, ramp d·t. */
  lemma RedYellow(p: Hsv, t: real, d: real, lo: real)
    requires 0.0 <= t < 1.0 && p.h == 60.0 * FloorMod(t, 6.0)
    requires Chroma(p) == d && Offset(p) == lo
    ensures RgbOf(p) == Rgb(d + lo, d * t + lo, lo)
  {
    FloorModOn(t, 6.0, 0);
    SectorOn(p, 0);
    RampOn(p, 0);
    Assemble(p, 0, d * t, d, lo);
  }

  /** Hues in [300, 360) reached through the modulus: sector 5, ramp −d·t. */
  lemma RedMagenta(p: Hsv, t: real, d: real, lo: real)
    requires -1.0 <= t < 0.0 && p.h == 60.0 * FloorMod(t, 6.0)
    requires Chroma(p) == d && Offset(p) == lo
    ensures RgbOf(p) == Rgb(d + lo, lo, -(d * t) + lo)
  {
    FloorModOn(t, 6.0, -1);
    SectorOn(p, 5);
    RampOn(p, 2);
    assert 1.0 - Abs(p.h / 60.0 - 2.0 * 2.0 - 1.0) == -t;
    MulNeg(d, t);
    Assemble(p, 5, -(d * t), d, lo);
  }

  /** hsv_to_rgb undoes rgb_to_hsv on every cell of the unit cube. */
  lemma RoundTrip(c: Rgb)
    requires InUnitCube(c)
    ensures RgbOf(HsvOf(c)) == c
  {
    if Max3(c) == Min3(c) {
    } else if c.b == Max3(c) {
      RoundTripBlue(c);
    } else if c.g == Max3(c) {
      RoundTripGreen(c);
    } else {
      RoundTripRed(c);
    }
  }
}
