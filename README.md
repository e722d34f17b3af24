# colorgrade in Dafny

colorgrade is a browser page that builds a colour lookup table (a "colorgrade")
out of a list of processing steps. A colorgrade is a 16×16×16 grid of RGB
triples. Cell (i, j, k) of the identity table holds (i/15, j/15, k/15).

Each step reads one or more earlier tables and makes a new one:
- an 8-value or simple recolour;
- a rescale to the full range;
- a fill;
- a conditional choice between two tables;
- an RGB, HSV or brightness/contrast adjustment;
- a user-written expression per channel.

`generate` runs the steps in order, starting from the identity table, and
quantises the last table into the 256×16 byte image that the page draws.

This project models these parts:
- the effects and helpers of `colorgrade_core.py`;
- the step classes of `colorgrade_steps.py`;
- the page driver of `colorgrade_gen.py`;
- the earlier revision of the page, `site/colorgrade_gen.py` with `site/colorgrade_core.py`.

## How the model is organised

- Tables and cells: `Colorgrade`. A table is a `seq<Rgb>` of 4096 cells in numpy's row-major
  order; cell (i, j, k) is element 256·i + 16·j + k.
- Things the code borrows from its host become fields of a `Host` value that is passed as a
  parameter (module `Host`):
  - numpy's `**` and `exp`;
  - Python's `float()` and `int()` parsers;
  - Python's `eval`.

  The lemmas that need algebraic laws of `**` and `exp` assume them as named predicates
  (`PowLaws`, `ExpLaws`, `GroupLaws`, `OrderLaws`).
- numpy boolean-mask assignment: one imperative primitive, `Masks.MaskedUpdate` on an `array`.
  The two colour-space conversions and the two range maps are methods that run the source's
  masked passes in the source's order. Each method is proved equal, cell by cell, to a
  specification function of one cell. The properties are proved about that function.
- Exceptions: `Outcomes.Result` and `Outcomes.Outcome`, which carry the Python exception class.
- A step's form is a map from input-field ids to their text. That map is all that
  `querySelector('#id').value` observes.
- The page's global step list and id counter: a class (`Pipeline.StepList`, `Site.SiteStepList`)
  whose methods update it in place.
- Floats are modelled as mathematical reals.

## Behaviour worth noting

- An unknown kind in `create_process_step` (colorgrade_gen.py): the title lookup at lines 143-153
  raises a `KeyError` first, so the `ValueError` branch at lines 277-278 is unreachable.
- `rescale_to_fill_range` (colorgrade_core.py:227-236): a constant channel comes out all zeros,
  because its zero spread is replaced by 1 (`Effects.StretchConstant`).
- `custom_rgb_adjust` (colorgrade_core.py:317-326): it binds the grid shape as the local name
  `shape` rather than passing `_result_shape`, so `eval_with` never broadcasts a scalar
  expression, and the final `np.stack` fails on it (`Adjustments.CustomScalarFails`).

## Model

| member | source | states |
|---|---|---|
| Colorgrade.DefaultColorgrade | colorgrade_core.py:5-11 | 4096 cells; cell (i,j,k) holds (i/15, j/15, k/15), so position equals colour (the same text is site/colorgrade_gen.py:6-12 and site/colorgrade_core.py:4-10) |
| Colorgrade.DefaultColorgradeInUnitCube | colorgrade_core.py:5-11 | every channel of the identity table lies in [0,1] |
| Colorgrade.ToByte | colorgrade_core.py:23-26 | one channel becomes a byte: 0 at or below 0, 255 at or above 1, and in between q ≤ 255·x < q+1 |
| Colorgrade.ProcessColorgrade | colorgrade_core.py:19-26 | the image has 256 rows of 16 pixels; pixel (p, j) is cell (p mod 16, j, p div 16) quantised; every channel is a byte (the same text is site/colorgrade_gen.py:20-27 and site/colorgrade_core.py:18-25) |
| Masks.MaskedUpdate | colorgrade_core.py:54 | `dst[mask] = f`: a selected element becomes f of its old value; every other element is unchanged |
| ColorSpace.Max3 | colorgrade_core.py:50 | the channel maximum is at least every channel and is one of them |
| ColorSpace.Min3 | colorgrade_core.py:51 | the channel minimum is at most every channel and is one of them |
| ColorSpace.FloorMod | colorgrade_core.py:58 | Python `%` with a positive modulus lands in [0, m) |
| ColorSpace.FloorModOn | colorgrade_core.py:83 | on [k·m, k·m+m) the remainder is x − k·m |
| ColorSpace.HueBounds | colorgrade_core.py:57-62 | the hue after the four masked passes lies in [0, 360) |
| ColorSpace.HsvOf | colorgrade_core.py:43-73 | v is the maximum channel; h lies in [0,360); a grey cell has h = 0 and s = 0 |
| ColorSpace.SaturationInUnitCube | colorgrade_core.py:65-68 | on the unit cube, s is (max − min)/max, or 0 when max = 0, and lies in [0,1] |
| ColorSpace.Flagged | colorgrade_core.py:53-54 | after the sentinel pass, no delta is zero |
| ColorSpace.FlaggedDeltas | colorgrade_core.py:53-54 | the delta array holds the flagged delta of each cell |
| ColorSpace.HuePasses | colorgrade_core.py:57-62 | after the r, g, b and grey passes, each hue is that of the last maximal channel, or 0 for grey |
| ColorSpace.SaturationPasses | colorgrade_core.py:65-68 | after the three passes, each saturation is the cell's saturation |
| ColorSpace.RgbToHsv | colorgrade_core.py:43-73 | rgb_to_hsv gives every cell its HsvOf |
| ColorSpace.ReducedHue | colorgrade_core.py:83 | `h % 360` lies in [0,360) and leaves a hue already in range unchanged |
| ColorSpace.ReducedHueOfHue | colorgrade_core.py:83 | a hue in [0,360) is its own remainder |
| ColorSpace.Sector | colorgrade_core.py:90 | `(h // 60)` of the reduced hue is one of the six sectors 0..5 |
| ColorSpace.RampBounds | colorgrade_core.py:86 | with s, v ≥ 0, the ramp x lies between 0 and the chroma c |
| ColorSpace.RgbOf | colorgrade_core.py:75-120 | a zero saturation gives the grey (v, v, v) |
| ColorSpace.SectorColorBounds | colorgrade_core.py:92-115 | every sector-table entry lies between 0 and the chroma |
| ColorSpace.RgbOfBetween | colorgrade_core.py:85-118 | every output channel lies between m and m + c |
| ColorSpace.RgbOfBounds | colorgrade_core.py:75-120 | with s, v in [0,1], every channel lies between v − v·s and v, so the unit cube is kept |
| ColorSpace.ChromaAtMost | colorgrade_core.py:85 | with s in [0,1], the chroma v·s lies in [0, v] |
| ColorSpace.PaintSector | colorgrade_core.py:93-115 | one sector's two masked writes: c and x go to that sector's cells, the others are unchanged |
| ColorSpace.AddOffset | colorgrade_core.py:118 | `result += m` adds each cell's m to one channel |
| ColorSpace.PaintLowSectors | colorgrade_core.py:93-103 | after sectors 0-2, a cell of those sectors holds its sector-table entry; the rest are still zero |
| ColorSpace.PaintHighSectors | colorgrade_core.py:105-115 | after sectors 3-5, every cell holds its sector-table entry |
| ColorSpace.HsvToRgb | colorgrade_core.py:75-120 | hsv_to_rgb gives every cell its RgbOf |
| ColorSpace.ChromaOfSpread | colorgrade_core.py:85-87 | on a non-grey cell, converted to HSV, the chroma is max − min and m is the minimum |
| ColorSpace.SectorOn | colorgrade_core.py:90 | a hue in [60k, 60k+60) is in sector k |
| ColorSpace.RampOn | colorgrade_core.py:86 | the ramp on a hue with h/60 in [2j, 2j+2) |
| ColorSpace.Assemble | colorgrade_core.py:92-118 | the output cell is the sector-table entry plus m in each channel |
| ColorSpace.RoundTripBlue | colorgrade_core.py:60 | round trip for a cell whose maximum is blue (hues 180-300) |
| ColorSpace.BlueMagenta | colorgrade_core.py:113-115 | the hue 300 lands in sector 5 with a full ramp |
| ColorSpace.BlueRising | colorgrade_core.py:109-111 | hues in [240, 300) land in sector 4 |
| ColorSpace.BlueFalling | colorgrade_core.py:105-107 | hues in [180, 240) land in sector 3 |
| ColorSpace.RoundTripGreen | colorgrade_core.py:59 | round trip for a cell whose maximum is green and not blue (sectors 1 and 2) |
| ColorSpace.RoundTripRed | colorgrade_core.py:58 | round trip for a cell whose only maximum is red |
| ColorSpace.RoundTripRedWrap | colorgrade_core.py:58 | the red hue with g < b wraps through `% 6` into sector 5 |
| ColorSpace.RedYellow | colorgrade_core.py:93-95 | hues in [0, 60) land in sector 0 |
| ColorSpace.RedMagenta | colorgrade_core.py:113-115 | hues in [300, 360) reached through the modulus land in sector 5 |
| ColorSpace.RoundTrip | colorgrade_core.py:43-120 | hsv_to_rgb(rgb_to_hsv(c)) = c for every cell of the unit cube |
| Remap.CommutativeMap | colorgrade_core.py:122-143 | every value of the channel becomes MapValue of it |
| Remap.ScaledInUnit | colorgrade_core.py:136 | a value of the range scales into [0,1] |
| Remap.RescaleBack | colorgrade_core.py:141 | scaling a unit value to the range and back gives it again |
| Remap.ScaleBack | colorgrade_core.py:136-141 | scaling a value of the range to [0,1] and back gives it again |
| Remap.MapStaysInRange | colorgrade_core.py:122-143 | the map keeps every value of [vmin, vmax] inside it |
| Remap.MapEndpoints | colorgrade_core.py:122-143 | vmin and vmax are fixed points |
| Remap.MapOutside | colorgrade_core.py:132-141 | values outside [vmin, vmax] are kept as-is, and vmin = vmax changes nothing |
| Remap.MapZero | colorgrade_core.py:127-128 | a = 0 does nothing |
| Remap.PowCompose | colorgrade_core.py:138 | raising to exp(−a1/10) and then to exp(−a2/10) is raising to exp(−(a1+a2)/10) |
| Remap.MapAtFraction | colorgrade_core.py:136-141 | the map sends the point at fraction p of the range to the point at fraction p^exp(−a/10) |
| Remap.MapCompose | colorgrade_core.py:127-130 | the map for a1 and then for a2 is the map for a1 + a2 (the group law) |
| Remap.MapInverse | colorgrade_core.py:128 | negating a undoes the map |
| Remap.MapDirection | colorgrade_core.py:125 | positive a moves values up towards vmax; negative a moves them down towards vmin |
| Remap.BendIsSignedPower | colorgrade_core.py:162 | the bend by cases equals `abs(u) ** exp(-a/10) * sign(u)` |
| Remap.CenteredCommutativeMap | colorgrade_core.py:145-167 | every value of the channel becomes CenteredValue of it |
| Remap.CenteredBounds | colorgrade_core.py:160 | a value of the range centres into [−1, 1] |
| Remap.UncenteredInRange | colorgrade_core.py:165 | a value of [−1, 1] maps back into the range |
| Remap.UncenteredMono | colorgrade_core.py:165 | mapping back from [−1, 1] is monotone |
| Remap.CenterUncenter | colorgrade_core.py:160-165 | centring undoes mapping back |
| Remap.UncenterCenter | colorgrade_core.py:160-165 | mapping back undoes centring |
| Remap.BendParts | colorgrade_core.py:162 | the bend keeps the sign, bends the magnitude, and stays in [−1, 1] |
| Remap.BendCompose | colorgrade_core.py:162 | bending by a1 and then by a2 is bending by a1 + a2 |
| Remap.BendZero | colorgrade_core.py:162 | bending by 0 does nothing |
| Remap.CenteredStaysInRange | colorgrade_core.py:145-167 | the centred map keeps every value of the range inside it |
| Remap.CenteredFixedPoints | colorgrade_core.py:145-167 | vmin, vmax and the midpoint are fixed points |
| Remap.CenteredOutside | colorgrade_core.py:156-167 | values outside [vmin, vmax] are kept as-is, and vmin = vmax changes nothing |
| Remap.CenteredZero | colorgrade_core.py:152 | a = 0 does nothing |
| Remap.CenteredCompose | colorgrade_core.py:151-154 | the centred map for a1 and then for a2 is the centred map for a1 + a2 |
| Remap.CenteredInverse | colorgrade_core.py:152 | negating a undoes the centred map |
| Remap.BendDirection | colorgrade_core.py:162 | positive a moves a value of [−1,1] away from 0; negative a moves it towards 0 |
| Remap.CenteredSide | colorgrade_core.py:160 | values above the midpoint centre to [0,1]; values below centre to [−1,0] |
| Remap.CenteredDirection | colorgrade_core.py:148-149 | positive a pushes values away from the midpoint; negative a pulls them towards it, without crossing it |
| Expressions.Pick | colorgrade_core.py:188-189 | `min`/`max` of two values is one of them and is the least/greatest |
| Expressions.Reduce | colorgrade_core.py:181 | np.min/np.max of a non-empty list is in the list and is its least/greatest element |
| Expressions.ReduceUnique | colorgrade_core.py:181 | any member of the list that bounds it is the reduction |
| Expressions.Scalars | colorgrade_core.py:180-181 | the scalar arguments, in order |
| Expressions.FirstGrid | colorgrade_core.py:177 | `np.argmax(which_arrays)` is the first grid argument; everything before it is a scalar |
| Expressions.Column | colorgrade_core.py:179 | cell n of every argument after broadcasting |
| Expressions.Compare | colorgrade_core.py:170-183 | no arguments, or grids of different sizes, give a ValueError; all scalars give their extreme; otherwise each cell gets the extreme of its column |
| Expressions.CompareBroadcast | colorgrade_core.py:170-183 | `min(c, grid)` and `min(grid, c)` are the cellwise min against c (likewise `max`) |
| Expressions.Full | colorgrade_core.py:209 | `np.full(shape, x)` has Size(shape) copies of x; a negative dimension is a ValueError |
| Expressions.EvalWith | colorgrade_core.py:203-211 | the host's result or error is returned, except that with a result shape a scalar becomes a grid |
| Expressions.EvalWithBroadcast | colorgrade_core.py:208-209 | with a valid result shape, a scalar result fills a grid of that shape |
| Adjustments.AdjustRgb | colorgrade_core.py:278-288 | every cell becomes AdjustRgbCell: each channel goes through commutative_map with its own shift |
| Adjustments.AdjustRgbZero | colorgrade_core.py:278-288 | zero shifts change nothing |
| Adjustments.AdjustRgbCompose | colorgrade_core.py:278-288 | two RGB adjustments in a row equal one whose shifts are the sums |
| Adjustments.AdjustRgbInverse | colorgrade_core.py:278-288 | negated shifts undo an RGB adjustment |
| Adjustments.AdjustRgbInUnitCube | colorgrade_core.py:278-288 | the unit cube is kept |
| Adjustments.Hues | colorgrade_core.py:294 | the hue channel of an HSV table |
| Adjustments.Saturations | colorgrade_core.py:294 | the saturation channel of an HSV table |
| Adjustments.Values | colorgrade_core.py:294 | the value channel of an HSV table |
| Adjustments.AdjustHsv | colorgrade_core.py:290-302 | every cell becomes AdjustHsvCell: the hue turned mod 360, s and v mapped, converted back |
| Adjustments.HsvOfInRange | colorgrade_core.py:294 | a unit-cube cell has hue in [0,360) and s, v in [0,1], the range the maps act on |
| Adjustments.AdjustHsvZero | colorgrade_core.py:290-302 | zero shifts change no cell of the unit cube (the conversions round-trip) |
| Adjustments.AdjustHsvInUnitCube | colorgrade_core.py:290-302 | the unit cube is kept |
| Adjustments.FloorModPeriodic | colorgrade_core.py:296 | `%` is periodic in its modulus |
| Adjustments.AdjustHsvHuePeriodic | colorgrade_core.py:296 | a hue shift of one more full turn is the same adjustment |
| Adjustments.BrightnessContrast | colorgrade_core.py:304-315 | every cell becomes BrightnessContrastCell: s mapped by the contrast; v by the brightness and then the centred contrast map |
| Adjustments.BrightnessContrastZero | colorgrade_core.py:304-315 | no brightness and no contrast change leave the unit cube unchanged |
| Adjustments.BrightnessContrastInUnitCube | colorgrade_core.py:304-315 | the unit cube is kept |
| Adjustments.BrightnessIsValueShift | colorgrade_core.py:304-315 | with no contrast change, brightness is adjust_hsv's value shift |
| Adjustments.CustomBindings | colorgrade_core.py:320-323 | the expression's locals are r, g, b and `shape` = (16, 16, 16); the module globals are visible only through the host's `eval` |
| Adjustments.AsChannel | colorgrade_core.py:326 | only a grid of the table's size stacks (booleans as 1/0); anything else is a ValueError |
| Adjustments.Channel | colorgrade_core.py:323-326 | a channel that stacks has the table's length |
| Adjustments.CustomRgbAdjust | colorgrade_core.py:317-326 | an evaluation error of the first expression propagates; the result succeeds iff all three channels stack, and then cell n is (r[n], g[n], b[n]) |
| Adjustments.CustomIdentity | colorgrade_core.py:317-326 | the default expressions r, g, b return the table unchanged |
| Adjustments.CustomScalarFails | colorgrade_core.py:323 | an expression with a scalar value makes the adjustment fail |
| Colors.Split | colorgrade_core.py:35 | `split(',')` gives one more piece than there are commas, and no piece contains the separator |
| Colors.JoinSplit | colorgrade_core.py:35 | joining the pieces gives the text back |
| Colors.HexDigitValue | colorgrade_core.py:40 | exactly the characters 0-9, a-f and A-F are hex digits, in either case, and each is worth less than 16 |
| Colors.ParseHexPair | colorgrade_core.py:40 | a pair parses iff both characters are hex digits, to 16 * high + low, which is a byte; anything else is a ValueError |
| Colors.ParseHexColor | colorgrade_core.py:39-41 | six characters parse iff all are hex digits, otherwise ValueError; each channel is its pair's byte / 255, in the unit cube |
| Colors.ParseInt | colorgrade_steps.py:72 | `int()` succeeds exactly when the host parser does; otherwise a ValueError |
| Colors.ParseColor | colorgrade_core.py:28-41 | two commas: three floats, or a ValueError; otherwise six characters are parsed as hex, and any other length is an AssertionError |
| Colors.HexDigit | colorgrade_core.py:40 | the digit written for a value parses back to it |
| Colors.HexColorHasNoComma | colorgrade_core.py:34 | a six-digit hex code never takes the comma branch |
| Colors.ParseHexColorCode | colorgrade_core.py:28-41 | the hex code of three bytes parses to each byte / 255 (round trip) |
| Colors.ParseHexColorIgnoresCase | colorgrade_core.py:39-41 | lower- and upper-case letters parse to the same colour, and fail together |
| Colors.HexPair | colorgrade_core.py:40 | the two-digit code of a byte parses back to it (round trip) |
| Colors.ParseColorExtremes | colorgrade_core.py:39-41 | "FFFFFF" parses to white and "000000" to black |
| Colors.ParseColors | colorgrade_gen.py:444 | the colours in order, or the error of the first text that does not parse |
| Colors.ParseFloats | colorgrade_gen.py:476-482 | the numbers in order, or a ValueError when some text is not a number |
| Colors.ParseColorsEach | colorgrade_gen.py:444 | texts that each parse to a colour parse, as a list, to the list of those colours |
| Colors.CornerCodeParses | colorgrade_core.py:39-41 | the hex code of a cube corner parses back to that corner |
| Effects.Reds | colorgrade_core.py:13-14 | the red channel of a table |
| Effects.Greens | colorgrade_core.py:13-14 | the green channel of a table |
| Effects.Blues | colorgrade_core.py:13-14 | the blue channel of a table |
| Effects.Lerp | colorgrade_core.py:223 | 0 goes to the black channel and 1 to the white channel |
| Effects.LerpBetween | colorgrade_core.py:223 | a channel in [0,1] lands between the two end colours' channels |
| Effects.LerpCompose | colorgrade_core.py:223 | recolouring twice is one recolouring with the recoloured end points |
| Effects.RecolorCell | colorgrade_core.py:223 | black goes to c_black and white goes to c_white |
| Effects.SimpleRecolor | colorgrade_core.py:215-225 | a table of the same size in which black cells become c_black and white cells become c_white |
| Effects.SimpleRecolorIdentity | colorgrade_core.py:215-225 | black onto black and white onto white leaves every table unchanged |
| Effects.SimpleRecolorBetween | colorgrade_core.py:215-225 | a unit-cube cell is recoloured, channel by channel, between the two end colours |
| Effects.SimpleRecolorCompose | colorgrade_core.py:215-225 | two simple recolours in a row are one simple recolour |
| Effects.Spread | colorgrade_core.py:233-234 | `max − min`, with 0 replaced by 1, is positive |
| Effects.Stretched | colorgrade_core.py:236 | each value of the channel becomes (x − min)/spread |
| Effects.Rescaled | colorgrade_core.py:227-236 | the rescaled table has the same size |
| Effects.RescaledChannels | colorgrade_core.py:227-236 | each channel of the rescaled table is that channel stretched |
| Effects.Spreads | colorgrade_core.py:231-234 | the per-channel spreads after the masked replacement of zero by 1 |
| Effects.RescaleToFillRange | colorgrade_core.py:227-236 | rescale_to_fill_range computes Rescaled |
| Effects.StretchInUnit | colorgrade_core.py:236 | a value of [lo, hi] rescales into [0,1] |
| Effects.StretchFills | colorgrade_core.py:227-236 | a channel with a spread is carried onto [0,1], its minimum to 0 and its maximum to 1 |
| Effects.StretchEnds | colorgrade_core.py:236 | the minimum goes to 0 and the maximum to 1 |
| Effects.StretchBetween | colorgrade_core.py:236 | every value of a channel with a spread lands in [0,1] |
| Effects.StretchAt | colorgrade_core.py:233-236 | on a channel with a spread, the stretch is (x − lo)/(hi − lo) |
| Effects.StretchConstant | colorgrade_core.py:234 | a constant channel becomes all zeros |
| Effects.StretchedExtremes | colorgrade_core.py:227-236 | after rescaling, a channel's minimum is 0 and its maximum is 1, or 0 if the channel was constant |
| Effects.ConstantExtremes | colorgrade_core.py:234 | a constant channel rescales to minimum 0 and maximum 0 |
| Effects.SpreadExtremes | colorgrade_core.py:229 | a channel with a spread rescales to minimum 0 and maximum 1 |
| Effects.StretchedIdempotent | colorgrade_core.py:227-236 | rescaling a rescaled channel changes nothing |
| Effects.RescaleIdempotent | colorgrade_core.py:227-236 | rescale_to_fill_range is idempotent on tables |
| Effects.Unpack | colorgrade_core.py:243 | eight colours unpack in order; any other number is a ValueError |
| Effects.LinearRecolor | colorgrade_core.py:238-258 | a ValueError unless there are exactly eight colours; otherwise a table of the same size (the same text is site/colorgrade_gen.py:53-73 and site/colorgrade_core.py:70-90) |
| Effects.WeightsSumToOne | colorgrade_core.py:247-256 | the eight multilinear weights sum to 1 |
| Effects.BlendCorners | colorgrade_core.py:238-258 | each corner of the cube receives exactly its own colour |
| Effects.BlendIdentity | colorgrade_core.py:247-256 | with the cube's own corners as colours, each cell keeps its colour |
| Effects.LinearRecolorIdentity | colorgrade_core.py:238-258 | linear_recolor with the identity palette returns its input |
| Effects.BlendConstant | colorgrade_core.py:247-256 | eight copies of one colour blend to that colour |
| Effects.Fill | colorgrade_core.py:260-264 | a full table holding the colour in every cell |
| Effects.LinearRecolorConstant | colorgrade_core.py:238-264 | linear_recolor with one colour eight times is the fill with that colour |
| Effects.ConditionBindings | colorgrade_core.py:272-273 | the condition sees exactly r, g and b |
| Effects.Select | colorgrade_core.py:275 | `cg1 * mask + cg2 * (~mask)`: each cell is taken from cg1 where the mask holds and from cg2 where it does not |
| Effects.Combine | colorgrade_core.py:275 | only a boolean grid of the table's size combines; it selects cell by cell |
| Effects.IfElse | colorgrade_core.py:266-276 | an evaluation error propagates; success iff the condition is a boolean grid of the right size, and then the result is the cellwise choice |
| Effects.IfElseSame | colorgrade_core.py:266-276 | choosing between a table and itself gives that table |
| Effects.Palletize | colorgrade_core.py:328-329 | always a NotImplementedError |
| Outcomes.PyIndex | colorgrade_gen.py:436 | `xs[k]` succeeds iff −len ≤ k < len, else an IndexError; k ≥ 0 gives xs[k] and a negative k gives xs[len + k], counting from the end |
| Outcomes.PyIndexLast | colorgrade_gen.py:531 | `xs[-1]` is the last element |
| Elements.FieldValues | colorgrade_steps.py:10-24 | the values of the ids in order, or a ValueError exactly when some id has no field |
| Elements.FieldValuesAgree | colorgrade_steps.py:10-24 | two forms that agree on the ids give the same values |
| Elements.ParseArgumentsFromElement | colorgrade_steps.py:10-24 | the loop computes FieldValues (the same loop is colorgrade_gen.py:356-370 and site/colorgrade_gen.py:260-274) |
| Elements.Dashed | colorgrade_steps.py:40 | every underscore becomes a dash; every other character is kept |
| Elements.AttributeName | colorgrade_steps.py:37-40 | a leading underscore is dropped; otherwise every underscore becomes a dash |
| Elements.TextOf | colorgrade_steps.py:34 | the `text` keyword, if given, is taken out |
| Elements.Attributes | colorgrade_steps.py:36-40 | the attributes are the names of all keywords except `text`; an empty keyword is an IndexError |
| Elements.AttributesValue | colorgrade_steps.py:36-40 | a keyword's value is its attribute's value unless a later keyword overwrites it |
| Elements.CreateElementWithTags | colorgrade_steps.py:26-45 | the element has the tag, the text as inner HTML, and the attributes; an empty keyword is an IndexError (the same helper is colorgrade_gen.py:95-114 and site/colorgrade_gen.py:91-110) |
| Elements.AttributeNameText | colorgrade_steps.py:37-40 | only `text` and `_text` name the attribute `text` |
| Elements.TextIsNotAnAttribute | colorgrade_steps.py:34-43 | the `text` keyword never becomes an attribute |
| Steps.Keys | colorgrade_steps.py:103 | `args.keys()` in order |
| Steps.Values | colorgrade_steps.py:171-173 | the defaults in order |
| Steps.AsMap | colorgrade_steps.py:164-170 | the dictionary's keys are exactly the ids |
| Steps.AsMapLastEntry | colorgrade_steps.py:164-170 | each id maps to the default of its last entry, as a later dict key replaces an earlier one |
| Steps.PopulatedHoldsDefaults | colorgrade_steps.py:164-170 | with distinct ids and no parameter or earlier field for them, the populated form holds every default |
| Steps.ZipMap | colorgrade_steps.py:105-107 | `zip` into a dict: the keys are the ids, and each value is paired with its key |
| Steps.EightValueDefaults | colorgrade_steps.py:137-150 | eight fields |
| Steps.DefaultIdsDistinct | colorgrade_steps.py:137-192 | both concrete classes name each field once (CGSimpleRecolor at lines 185-192) |
| Steps.SimpleRecolorDefaults | colorgrade_steps.py:185-192 | two fields |
| Steps.EightValueDefaultCodes | colorgrade_steps.py:137-150 | the defaults are the hex codes of the identity palette's corners |
| Steps.EightValueDefaultColors | colorgrade_steps.py:137-150 | the eight defaults parse to the cube corners in unpacking order |
| Steps.SourceIndex | colorgrade_steps.py:68-72 | `int()` of the `which-step` field; a missing field is a ValueError |
| Steps.EightValueRecolorOf | colorgrade_steps.py:175-182 | a missing colour field is a ValueError; success keeps the table's size |
| Steps.SimpleRecolorOf | colorgrade_steps.py:213-220 | a missing black or white field is a ValueError; success keeps the table's size |
| Steps.ProcessStep.constructor | colorgrade_steps.py:61-66 | the step keeps its id and element |
| Steps.ProcessStep.Title | colorgrade_steps.py:75-196 | only the abstract base raises NotImplementedError; the template and concrete classes have a title |
| Steps.ProcessStep.HasInput | colorgrade_steps.py:79-200 | the abstract base raises NotImplementedError; every other class reads an input table |
| Steps.ProcessStep.Arguments | colorgrade_steps.py:83-192 | only the abstract base raises NotImplementedError; the other classes list their fields |
| Steps.ProcessStep.TargetIndex | colorgrade_steps.py:68-72 | `int()` of the element's `which-step` field; a missing field is a ValueError |
| Steps.ProcessStep.Serialize | colorgrade_steps.py:98-107 | a dict with exactly the argument ids, each mapped to its field's value; a missing field fails |
| Steps.ProcessStep.PopulateHtmlElement | colorgrade_steps.py:89-211 | the base and template classes raise NotImplementedError and change nothing; a concrete class adds one field per argument, with parameters overriding defaults, and existing fields still win lookups; when no parameter or earlier field shadows an argument, the form holds every default |
| Steps.ProcessStep.AddFields | colorgrade_steps.py:47-53 | the new fields are added behind the existing ones |
| Steps.ProcessStep.DoProcessing | colorgrade_steps.py:95-220 | the base and template classes raise NotImplementedError; a success read a valid target index and keeps the table's size; an out-of-range index is an IndexError |
| Steps.EightValueDefaultsIdentity | colorgrade_steps.py:175-182 | recolouring with the default corners returns any table unchanged |
| Steps.EightValueDefaultsKeepInput | colorgrade_steps.py:175-182 | an 8-value step with default fields passes its input through |
| Steps.SimpleRecolorOfFields | colorgrade_steps.py:213-220 | the simple recolour reads only black and white, then applies simple_recolor |
| Steps.SimpleRecolorStepResult | colorgrade_steps.py:213-220 | a simple step applies simple_recolor with its two colours to its target table |
| Pipeline.FormFields | colorgrade_gen.py:284-288 | a `which-step` field reading "-1" exists iff the kind takes an input |
| Pipeline.EightValueFormDefaults | colorgrade_gen.py:161-221 | a new 8-value form holds the corner defaults |
| Pipeline.InputOf | colorgrade_gen.py:434-438 | no-input kinds read nothing; other kinds read the table at `which-step`, with an IndexError outside −len..len−1 |
| Pipeline.InputIsTable | colorgrade_gen.py:434-438 | every input a step can read is a full table |
| Pipeline.FillOf | colorgrade_gen.py:455-462 | a missing field is a ValueError; otherwise the fill with the parsed colour, failing iff the colour does not parse |
| Pipeline.IfElseOf | colorgrade_gen.py:464-473 | a successful if-else yields a full table |
| Pipeline.IfElseResolvesEachIndex | colorgrade_gen.py:464-473 | with valid indices, the result is if_else of the three tables the indices name |
| Pipeline.IfElseTrueIndexOutOfRange | colorgrade_gen.py:469 | an out-of-range true index is an IndexError |
| Pipeline.ShiftsOf | colorgrade_gen.py:476-482 | one number per field |
| Pipeline.StepResult | colorgrade_gen.py:433-519 | every table a step appends is a full colorgrade |
| Pipeline.RunStep | colorgrade_gen.py:433-521 | one pass of the loop body computes StepResult |
| Pipeline.NoInputIgnoresWhichStep | colorgrade_gen.py:434-438 | fill and if-else steps do not depend on the `which-step` field |
| Pipeline.InputIndexOutOfRange | colorgrade_gen.py:436 | for the other kinds, an out-of-range source is an IndexError before the kind's own fields are read |
| Pipeline.UnknownKindFails | colorgrade_gen.py:516-517 | an unknown kind raises NotImplementedError once its input is found |
| Pipeline.RecenterRescales | colorgrade_gen.py:452-453 | a recenter step rescales its input |
| Pipeline.NewEightValueStepKeepsLast | colorgrade_gen.py:442-445 | a new 8-value step passes the previous table through |
| Pipeline.FirstIndex | colorgrade_gen.py:326-336 | the first position with the id, or none |
| Pipeline.SwapAdjacent | colorgrade_gen.py:393-394 | positions i and i+1 are exchanged; every other position is unchanged |
| Pipeline.SwapAdjacentPermutes | colorgrade_gen.py:393-394 | the same multiset of steps |
| Pipeline.SwapAdjacentIds | colorgrade_gen.py:393-394 | ids stay distinct and below the counter |
| Pipeline.RemoveAt | colorgrade_gen.py:350 | `pop(k)`: one shorter; the elements after k shift down |
| Pipeline.RemoveFirstLeavesNone | colorgrade_gen.py:345-350 | with distinct ids, no step with the id is left, and the ids stay distinct |
| Pipeline.PopInsertBefore | colorgrade_gen.py:393-394 | pop and insert one position earlier is the swap with the predecessor |
| Pipeline.PopInsertAfter | colorgrade_gen.py:415-416 | pop and insert one position later is the swap with the successor |
| Pipeline.TraceExtends | colorgrade_gen.py:521 | appending the next step's table keeps every table the result of its step |
| Pipeline.StepList.constructor | colorgrade_gen.py:8-14 | no steps; the counter starts at 0 |
| Pipeline.StepList.CreateProcessStep | colorgrade_gen.py:125-324 | an unknown kind is a KeyError and changes nothing; a known kind is appended with the counter as its id and its new form, and the counter advances |
| Pipeline.StepList.GetIndexOfStep | colorgrade_gen.py:326-336 | the loop finds FirstIndex |
| Pipeline.StepList.RemoveProcessStep | colorgrade_gen.py:339-354 | a missing id is a ValueError and changes nothing; otherwise the first match is popped, no step with the id remains, and the ids stay distinct |
| Pipeline.StepList.MoveStepUp | colorgrade_gen.py:380-399 | a missing id is a ValueError; the top step stays; any other step swaps with the one above; always a permutation |
| Pipeline.StepList.MoveStepDown | colorgrade_gen.py:402-420 | a missing id is a ValueError; the bottom step stays; any other step swaps with the one below; always a permutation |
| Pipeline.StepList.Generate | colorgrade_gen.py:422-532 | starts from the identity; each table is its step's result on the tables before; the output is the last table, or the first failing step's 1-based number and error; no steps gives the identity |
| Site.SiteParseColor | site/colorgrade_gen.py:29-37 | any length but 6 is an AssertionError; six characters parse as the later hex branch does, iff all are hex digits; a parsed colour lies in the unit cube; errors are AssertionError or ValueError (the same text is site/colorgrade_core.py:27-35) |
| Site.SiteParseColorAgrees | site/colorgrade_gen.py:29-37 | without exactly two commas, the earlier parser agrees with the later one |
| Site.SiteParseColorCode | site/colorgrade_gen.py:34-37 | the hex code of three bytes parses to each byte / 255 |
| Site.SiteParseColors | site/colorgrade_gen.py:289 | the colours in order, or the first text's error |
| Site.SiteParseColorsAgree | site/colorgrade_gen.py:289 | on texts without the comma form, both revisions parse a list alike |
| Site.SiteSimpleRecolor | site/colorgrade_gen.py:41-51 | as written, every cell becomes c_black (the same text is site/colorgrade_core.py:58-68) |
| Site.SiteSimpleRecolorLosesWhite | site/colorgrade_gen.py:47 | on the identity table, the white corner comes out black; the corrected function gives white |
| Site.SiteStepResult | site/colorgrade_gen.py:285-298 | another kind is a TypeError; a success keeps the size; a simple step's success is its black colour everywhere |
| Site.SiteSimpleStepIsFill | site/colorgrade_gen.py:292-295 | a simple step is a fill with its black colour |
| Site.SiteEightValueMatchesLater | site/colorgrade_gen.py:287-290 | an 8-value step does what the later revision does when reading the previous table |
| Site.SiteCornerCodeParses | site/colorgrade_gen.py:29-37 | a corner's code parses back to the corner |
| Site.SiteCornerCodesParse | site/colorgrade_gen.py:289 | a list of corner codes parses to those corners |
| Site.SiteEightValueDefaultColors | site/colorgrade_gen.py:289 | the eight defaults parse to the identity palette with this revision's parse_color |
| Site.SiteEightValueDefaultsIdentity | site/colorgrade_gen.py:287-290 | an 8-value step with default fields passes its input through |
| Site.SiteNewEightValueStepKeepsInput | site/colorgrade_gen.py:127-194 | a new 8-value step of this revision passes its input through |
| Site.SiteStepList.constructor | site/colorgrade_gen.py:79-85 | no steps; the counter starts at 0 |
| Site.SiteStepList.CreateProcessStep | site/colorgrade_gen.py:112-238 | a kind other than the two recolours is a ValueError and changes nothing; otherwise the step is appended and the counter advances |
| Site.SiteStepList.RemoveProcessStep | site/colorgrade_gen.py:240-257 | a missing id is a ValueError; otherwise the first match is popped and no step with the id remains |
| Site.SiteStepList.Generate | site/colorgrade_gen.py:276-303 | each table is its step's result on the previous table; the output is the last table, or the first failing step with its error |
| Site.SiteLastSimpleStepDecides | site/colorgrade_gen.py:284-302 | a run ending in a simple step ends in a fill with that step's black colour, whatever came before |

## Left out

- The page's DOM is not modelled. This covers labels, `<br>` and `<strong>` elements, layout
  tables, buttons, the `step_box` classes and the `process_id` attribute. A form is modelled
  only by its input fields.
- Python `eval` is not modelled. Expression evaluation is the host's `eval`, a parameter. The
  `min`/`max` of get_comparison_func are modelled on their own (`Expressions.Compare`); inside an
  evaluated expression they, like every other function handed to expressions (`sin`, `sqrt`,
  `log`, `clip`, and so on), are the host's `eval`, and no law ties the two.
- numpy's `**` and `exp`, and Python's `float()` and `int()` parsers, are parameters of the host.
- Floating-point rounding is not modelled. Floats are exact reals.
- Canvas output is not modelled. `write_colorgrade` (site/colorgrade_gen.py:305-313) and its
  counterpart in the page driver write to the canvas and are left out; the table they draw is
  `Colorgrade.ProcessColorgrade`.
- The page's event handlers are not modelled, since they are browser glue: error display
  (`show_error_*`, `display_errors` at colorgrade_gen.py:78-92), page setup, and the JavaScript
  bridge.
- `regenerate_display_indices` (colorgrade_gen.py:372-377) is not modelled. It only rewrites the
  displayed 1-based numbers, which are not part of the step list.
- `int()` of ids is not modelled. `remove_process_step`, `get_index_of_step` and the move
  operations convert their id argument with `int()`; the model takes the id as an integer.
- Exception messages are not modelled; only exception classes are.
- The `RuntimeError` at colorgrade_gen.py:518-519 is not modelled. Every branch that is taken sets
  `cg_out`, so the line cannot be reached.
- The `ValueError` at colorgrade_gen.py:277-278 is not modelled, because the title lookup fails
  first.
- Effects.Combine: only a boolean grid of the table's size combines, and the error classes of the
  other masks follow numpy's broadcasting only approximately. numpy also accepts some masks the
  model rejects: a boolean scalar (`np.bool_` picks one table everywhere; Python's `True` and
  `False` give `cg1 - 2 * cg2` and `-cg2`, since `~True == -2`) and a boolean array of one or
  three entries, which broadcasts over the cells or the channels. An integer mask is rejected
  too, where numpy's bitwise `~` on integers makes `cg1 * m + cg2 * (~m)` a sum rather than a
  selection. The model's scalar value holds only reals and its arrays only reals or booleans,
  so boolean scalars and integer arrays cannot be written.
- Effects.IfElse: inherits the mask cases above from Effects.Combine.
- Array shapes are not modelled: a grid is a flat sequence of cells. A value with the right number
  of entries but another shape (`r.flatten()`, or `r[..., 0]` of shape (16, 16, 16)) succeeds in
  the model, where numpy raises a broadcast ValueError in `if_else` or an AxisError in the
  `np.stack(..., axis=3)` of `custom_rgb_adjust`.
- Colors.ParseHexPair: accepts only two ASCII hex digits. Python's `int(f"0x{pair}", 16)` also
  accepts a pair with surrounding whitespace (`"1 "`), an underscore after the prefix (`"_1"`) and
  non-ASCII decimal digits; those codes fail in the model.
- Duplicate input ids are not modelled. `add_input_field` can add a field whose id is already
  present; `querySelector` then finds the first one, and the model keeps the first value.
- The swapped labels of the adjust forms are not modelled (` B shift: ` on the g field, ` V
  shift: ` on the s field, colorgrade_gen.py:258-266). Labels are display text; the field ids are
  correct.
- The earlier revision's `get_comparison_func` (site/colorgrade_core.py:38-49) is not modelled,
  because it does not parse as Python (line 45). Its `eval_functions` are not modelled either.
- `palletize` is a placeholder in the source; `Effects.Palletize` models only its
  NotImplementedError.
- The re-raise in `generate` (colorgrade_gen.py:523-529) is modelled as the run stopping with
  the failing step's number and error. The error display it triggers is not modelled.
- Colors.ParseColor: in the comma form, float-parsing is the host's. Whitespace and other
  `float()` leniencies are whatever the host parser accepts.

## Findings

| source | as written | input that shows it | evidently intended | confidence | as-written member | corrected member |
|---|---|---|---|---|---|---|
| site/colorgrade_gen.py:47 (same text at site/colorgrade_core.py:64) | `c_white` is rebuilt from `c_black`, so every cell becomes `c_black` and the white colour is ignored | the identity table with c_black = 000000 and c_white = FFFFFF: the white corner, cell 4095, comes out black | `c_white = np.array(c_white)…`, so white maps to c_white, as the later colorgrade_core.py:221 has it | high, not executed | Site.SiteSimpleRecolor (shown by Site.SiteSimpleRecolorLosesWhite) | Effects.SimpleRecolor (with Effects.SimpleRecolorIdentity) |
