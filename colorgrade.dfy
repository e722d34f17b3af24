/** The colorgrade data model of colorgrade_core.py: a 16×16×16 lookup table
    of RGB triples, the identity table every pipeline starts from, and the
    quantizer that flattens a table into the 256×16 byte image drawn on the
    canvas. */
module Colorgrade {

  /** Grid points per axis, and cells in a table. */
  const Side: nat := 16
  const Cells: nat := 4096

  /** One cell: three channels. Intermediate tables may leave [0,1]. */
  datatype Rgb = Rgb(r: real, g: real, b: real)

  /** A table, flattened in numpy's row-major order: cell (i,j,k) of the
      (16,16,16,3) array is element Index(i,j,k). */
  type Table = seq<Rgb>

  predicate IsTable(t: Table) {
    |t| == Cells
  }

  predicate InUnit(x: real) {
    0.0 <= x <= 1.0
  }

  predicate InUnitCube(c: Rgb) {
    InUnit(c.r) && InUnit(c.g) && InUnit(c.b)
  }

  function Index(i: nat, j: nat, k: nat): (n: nat)
    requires i < Side && j < Side && k < Side
    ensures n < Cells
  {
    256 * i + 16 * j + k
  }

  /** Splitting a flat position back into grid coordinates. */
  lemma IndexParts(i: nat, j: nat, k: nat)
    requires i < Side && j < Side && k < Side
    ensures Index(i, j, k) / 256 == i
    ensures (Index(i, j, k) / 16) % 16 == j
    ensures Index(i, j, k) % 16 == k
  {
    var n := Index(i, j, k);
    assert n == 16 * (16 * i + j) + k;
    assert n / 16 == 16 * i + j;
    assert n == 256 * i + (16 * j + k) && 16 * j + k < 256;
  }

  /** Position 256 * j + p of the transposed array is the cell with i = p mod 16,
      green coordinate j and k = p div 16. */
  lemma ImagePosition(p: nat, j: nat)
    requires p < 256 && j < Side
    ensures p % 16 < Side && p / 16 < Side
    ensures (256 * j + p) / 256 == j
    ensures (256 * j + p) % 16 == p % 16
    ensures ((256 * j + p) / 16) % 16 == p / 16
  {
    var n := 256 * j + p;
    assert n == Index(j, p / 16, p % 16);
    IndexParts(j, p / 16, p % 16);
  }

  /** Every flat position is the position of some grid cell. */
  lemma IndexOnto(n: nat)
    requires n < Cells
    ensures n / 256 < Side && (n / 16) % 16 < Side && n % 16 < Side
    ensures Index(n / 256, (n / 16) % 16, n % 16) == n
  {
    assert n / 16 == 16 * (n / 256) + (n / 16) % 16;
  }

  function GridCoordinate(k: nat): real {
    k as real / 15.0
  }

  /** get_default_colorgrade: the identity table, cell (i,j,k) holds
      (i/15, j/15, k/15) — position equals colour. */
  function DefaultColorgrade(): (t: Table)
    ensures IsTable(t)
    ensures forall i: nat, j: nat, k: nat :: i < Side && j < Side && k < Side ==>
      t[Index(i, j, k)] == Rgb(GridCoordinate(i), GridCoordinate(j), GridCoordinate(k))
  {
    var t := seq(Cells, n requires 0 <= n < Cells =>
      Rgb(GridCoordinate(n / 256), GridCoordinate((n / 16) % 16), GridCoordinate(n % 16)));
    assert forall i: nat, j: nat, k: nat :: i < Side && j < Side && k < Side ==>
      t[Index(i, j, k)] == Rgb(GridCoordinate(i), GridCoordinate(j), GridCoordinate(k)) by {
      forall i: nat, j: nat, k: nat | i < Side && j < Side && k < Side
        ensures t[Index(i, j, k)] == Rgb(GridCoordinate(i), GridCoordinate(j), GridCoordinate(k))
      {
        IndexParts(i, j, k);
      }
    }
    t
  }

  /** Every channel of the identity table lies in [0,1]. */
  lemma DefaultColorgradeInUnitCube(n: nat)
    requires n < Cells
    ensures InUnitCube(DefaultColorgrade()[n])
  {
    IndexOnto(n);
  }

  // ---------------------------------------------------------------------
  // The quantizer (process_colorgrade)

  /** One pixel of the canvas image: three bytes. */
  datatype Pixel = Pixel(r: int, g: int, b: int)

  predicate IsByte(q: int) {
    0 <= q <= 255
  }

  function Clip(x: real, lo: real, hi: real): real
    requires lo <= hi
  {
    if x < lo then lo else if x > hi then hi else x
  }

  /** `np.clip(255 * x, 0, 255).astype(np.uint8)` on one channel: scale,
      clamp, then truncate (toward zero, which is the floor on [0,255]). */
  function ToByte(x: real): (q: int)
    ensures IsByte(q)
    ensures x <= 0.0 ==> q == 0
    ensures x >= 1.0 ==> q == 255
    ensures 0.0 <= x <= 1.0 ==> q as real <= 255.0 * x < q as real + 1.0
  {
    Clip(255.0 * x, 0.0, 255.0).Floor
  }

  function PixelOf(c: Rgb): Pixel {
    Pixel(ToByte(c.r), ToByte(c.g), ToByte(c.b))
  }

  /** transpose(1,2,0,3): element (j,k,i) of the new array is cell (i,j,k). */
  function Transposed(t: Table): (u: seq<Rgb>)
    requires IsTable(t)
    ensures |u| == Cells
  {
    seq(Cells, n requires 0 <= n < Cells =>
      IndexOnto(n); t[Index(n % 16, n / 256, (n / 16) % 16)])
  }

  /** reshape(16, 256, 3). */
  function Reshaped(u: seq<Rgb>): (rows: seq<seq<Rgb>>)
    requires |u| == Cells
    ensures |rows| == Side && forall a :: 0 <= a < Side ==> |rows[a]| == 256
  {
    seq(Side, a requires 0 <= a < Side => seq(256, b requires 0 <= b < 256 => u[256 * a + b]))
  }

  /** clip, transpose(1,0,2) and astype(uint8). */
  function Quantized(rows: seq<seq<Rgb>>): (img: seq<seq<Pixel>>)
    requires |rows| == Side && forall a :: 0 <= a < Side ==> |rows[a]| == 256
    ensures |img| == 256 && forall p :: 0 <= p < 256 ==> |img[p]| == Side
  {
    seq(256, p requires 0 <= p < 256 => seq(Side, j requires 0 <= j < Side => PixelOf(rows[j][p])))
  }

  /** process_colorgrade, step by step as numpy does it: transpose the axes
      (i,j,k) to (j,k,i), reshape to 16 rows of 256, clip and convert, and
      transpose the two image axes. Row p of the result holds the 16 cells
      with i = p mod 16 and k = p div 16; column j is the green coordinate. */
  function ProcessColorgrade(t: Table): (img: seq<seq<Pixel>>)
    requires IsTable(t)
    ensures |img| == 256
    ensures forall p :: 0 <= p < 256 ==> |img[p]| == Side
    ensures forall p, j :: 0 <= p < 256 && 0 <= j < Side ==>
      img[p][j] == PixelOf(t[Index(p % 16, j, p / 16)])
    ensures forall p, j :: 0 <= p < 256 && 0 <= j < Side ==>
      IsByte(img[p][j].r) && IsByte(img[p][j].g) && IsByte(img[p][j].b)
  {
    var img := Quantized(Reshaped(Transposed(t)));
    assert forall p, j :: 0 <= p < 256 && 0 <= j < Side ==>
      img[p][j] == PixelOf(t[Index(p % 16, j, p / 16)]) by {
      forall p, j | 0 <= p < 256 && 0 <= j < Side
        ensures img[p][j] == PixelOf(t[Index(p % 16, j, p / 16)])
      {
        ImagePosition(p, j);
      }
    }
    img
  }
}
