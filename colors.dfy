/** parse_color of colorgrade_core.py: a colour field is either three
    comma-separated floats or six hexadecimal digits. */
module Colors {
  import opened Outcomes
  import opened Host
  import opened Colorgrade

  // ---------------------------------------------------------------------
  // str.count and str.split on one separator character

  function Count(s: string, c: char): nat {
    if |s| == 0 then 0 else (if s[0] == c then 1 else 0) + Count(s[1..], c)
  }

  /** `s.split(sep)`: the pieces between separators, never fewer than one. */
  function Split(s: string, sep: char): (parts: seq<string>)
    ensures |parts| == Count(s, sep) + 1
    ensures forall i :: 0 <= i < |parts| ==> sep !in parts[i]
  {
    if |s| == 0 then [""]
    else
      var rest := Split(s[1..], sep);
      if s[0] == sep then [""] + rest
      else [[s[0]] + rest[0]] + rest[1..]
  }

  /** `sep.join(parts)`, the inverse of Split. */
  function Join(parts: seq<string>, sep: char): string
    requires |parts| >= 1
  {
    if |parts| == 1 then parts[0] else parts[0] + [sep] + Join(parts[1..], sep)
  }

  /** Splitting loses nothing: joining the pieces gives the string back. */
  lemma {:induction false} JoinSplit(s: string, sep: char)
    ensures Join(Split(s, sep), sep) == s
  {
    if |s| > 0 {
      var rest := Split(s[1..], sep);
      JoinSplit(s[1..], sep);
      if s[0] != sep {
        var parts := Split(s, sep);
        assert parts[0] == [s[0]] + rest[0] && parts[1..] == rest[1..];
        if |rest| > 1 {
          assert Join(rest, sep) == rest[0] + [sep] + Join(rest[1..], sep);
        }
      }
    }
  }

  // ---------------------------------------------------------------------
  // Hexadecimal pairs: int(f"0x{pair}", base=16)

  /** The value of one hexadecimal digit, in either case; None for any
      other character. */
  function HexDigitValue(c: char): (v: Option<nat>)
    ensures v.Some? <==> ('0' <= c <= '9' || 'a' <= c <= 'f' || 'A' <= c <= 'F')
    ensures v.Some? ==> v.value < 16
  {
    if '0' <= c <= '9' then Some(c as nat - '0' as nat)
    else if 'a' <= c <= 'f' then Some(c as nat - 'a' as nat + 10)
    else if 'A' <= c <= 'F' then Some(c as nat - 'A' as nat + 10)
    else None
  }

  /** The byte written by a pair of hex digits, high digit first;
      ValueError otherwise. */
  function ParseHexPair(pair: string): (r: Result<nat>)
    requires |pair| == 2
    ensures r.Ok? <==> HexDigitValue(pair[0]).Some? && HexDigitValue(pair[1]).Some?
    ensures r.Ok? ==> r.value == 16 * HexDigitValue(pair[0]).value + HexDigitValue(pair[1]).value
    ensures r.Ok? ==> r.value < 256
    ensures r.Err? ==> r.error == ValueError
  {
    match (HexDigitValue(pair[0]), HexDigitValue(pair[1]))
    case (Some(hi), Some(lo)) => Ok(16 * hi + lo)
    case _ => Err(ValueError)
  }

  /** The hex branch: each of the three pairs divided by 255. It succeeds
      exactly when all six characters are hex digits. */
  function ParseHexColor(s: string): (r: Result<Rgb>)
    requires |s| == 6
    ensures r.Ok? <==> forall i :: 0 <= i < 6 ==> HexDigitValue(s[i]).Some?
    ensures r.Err? ==> r.error == ValueError
    ensures r.Ok? ==> r.value == Rgb(ParseHexPair(s[0..2]).value as real / 255.0,
                                     ParseHexPair(s[2..4]).value as real / 255.0,
                                     ParseHexPair(s[4..6]).value as real / 255.0)
    ensures r.Ok? ==> InUnitCube(r.value)
  {
    var red :- ParseHexPair(s[0..2]);
    var green :- ParseHexPair(s[2..4]);
    var blue :- ParseHexPair(s[4..6]);
    Ok(Rgb(red as real / 255.0, green as real / 255.0, blue as real / 255.0))
  }

  /** `c.upper()` on the characters a hex code can hold. */
  function UpperHexChar(c: char): char {
    if 'a' <= c <= 'f' then (c as int - 32) as char else c
  }

  function UpperHex(s: string): (t: string)
    ensures |t| == |s|
    ensures forall i :: 0 <= i < |s| ==> t[i] == UpperHexChar(s[i])
  {
    seq(|s|, i requires 0 <= i < |s| => UpperHexChar(s[i]))
  }

  /** The case of the letters does not matter: "ff8000" and "FF8000"
      parse to the same colour, and a code with a non-digit fails in both. */
  lemma ParseHexColorIgnoresCase(s: string)
    requires |s| == 6
    ensures ParseHexColor(UpperHex(s)) == ParseHexColor(s)
  {
    var t := UpperHex(s);
    forall i | 0 <= i < 6
      ensures HexDigitValue(t[i]) == HexDigitValue(s[i])
    {
    }
    assert t[0..2][0] == t[0] && t[0..2][1] == t[1] && s[0..2][0] == s[0] && s[0..2][1] == s[1];
    assert t[2..4][0] == t[2] && t[2..4][1] == t[3] && s[2..4][0] == s[2] && s[2..4][1] == s[3];
    assert t[4..6][0] == t[4] && t[4..6][1] == t[5] && s[4..6][0] == s[4] && s[4..6][1] == s[5];
  }

  /** `float(v)` through the host's parser; ValueError on malformed text. */
  function ParseFloat(host: Host, text: string): Result<real> {
    match host.parseFloat(text)
    case Some(x) => Ok(x)
    case None => Err(ValueError)
  }

  /** `int(text)` through the host's parser; ValueError on malformed text. */
  function ParseInt(host: Host, text: string): (r: Result<int>)
    ensures r.Ok? <==> host.parseInt(text).Some?
    ensures r.Ok? ==> r.value == host.parseInt(text).value
    ensures r.Err? ==> r.error == ValueError
  {
    match host.parseInt(text)
    case Some(k) => Ok(k)
    case None => Err(ValueError)
  }

  /** parse_color (colorgrade_core.py): exactly two commas means three
      floats; anything else must be six hex digits, or the assertion fails. */
  function ParseColor(host: Host, s: string): (r: Result<Rgb>)
    ensures Count(s, ',') != 2 && |s| != 6 ==> r == Err(AssertionError)
    ensures Count(s, ',') != 2 && |s| == 6 ==> r == ParseHexColor(s)
    ensures Count(s, ',') == 2 ==>
      var parts := Split(s, ',');
      && (r.Ok? <==> host.parseFloat(parts[0]).Some? && host.parseFloat(parts[1]).Some?
                                && host.parseFloat(parts[2]).Some?)
      && (r.Err? ==> r.error == ValueError)
      && (r.Ok? ==> r.value == Rgb(host.parseFloat(parts[0]).value,
                                   host.parseFloat(parts[1]).value,
                                   host.parseFloat(parts[2]).value))
  {
    if Count(s, ',') == 2 then
      var parts := Split(s, ',');
      var red :- ParseFloat(host, parts[0]);
      var green :- ParseFloat(host, parts[1]);
      var blue :- ParseFloat(host, parts[2]);
      Ok(Rgb(red, green, blue))
    else
      if |s| != 6 then Err(AssertionError) else ParseHexColor(s)
  }

  // ---------------------------------------------------------------------
  // The hex encoding the form fields use, as the partner of the parser

  function HexDigit(v: nat): (c: char)
    requires v < 16
    ensures HexDigitValue(c) == Some(v)
  {
    if v < 10 then ('0' as nat + v) as char else ('A' as nat + v - 10) as char
  }

  function HexPair(v: nat): (s: string)
    requires v < 256
    ensures |s| == 2
    ensures ParseHexPair(s) == Ok(v)
  {
    [HexDigit(v / 16), HexDigit(v % 16)]
  }

  /** The six-digit code of three bytes, as typed into a colour field. */
  function HexColor(red: nat, green: nat, blue: nat): (s: string)
    requires red < 256 && green < 256 && blue < 256
    ensures |s| == 6
  {
    HexPair(red) + HexPair(green) + HexPair(blue)
  }

  lemma {:induction false} CountAbsent(s: string, c: char)
    requires c !in s
    ensures Count(s, c) == 0
  {
    if |s| > 0 {
      assert c !in s[1..] by {
        assert forall i :: 0 <= i < |s[1..]| ==> s[1..][i] == s[i + 1];
      }
      CountAbsent(s[1..], c);
    }
  }

  lemma HexColorHasNoComma(red: nat, green: nat, blue: nat)
    requires red < 256 && green < 256 && blue < 256
    ensures Count(HexColor(red, green, blue), ',') == 0
  {
    var s := HexColor(red, green, blue);
    assert forall i :: 0 <= i < 6 ==> HexDigitValue(s[i]).Some?;
    CountAbsent(s, ',');
  }

  /** Round trip: parsing the hex code of three bytes gives each byte / 255,
      whatever host is used. */
  lemma ParseHexColorCode(host: Host, red: nat, green: nat, blue: nat)
    requires red < 256 && green < 256 && blue < 256
    ensures ParseColor(host, HexColor(red, green, blue))
         == Ok(Rgb(red as real / 255.0, green as real / 255.0, blue as real / 255.0))
  {
    var s := HexColor(red, green, blue);
    HexColorHasNoComma(red, green, blue);
    assert s[0..2] == HexPair(red);
    assert s[2..4] == HexPair(green);
    assert s[4..6] == HexPair(blue);
  }

  /** "FFFFFF" is white and "000000" is black. */
  lemma ParseColorExtremes(host: Host)
    ensures ParseColor(host, "FFFFFF") == Ok(Rgb(1.0, 1.0, 1.0))
    ensures ParseColor(host, "000000") == Ok(Rgb(0.0, 0.0, 0.0))
  {
    assert HexColor(255, 255, 255) == "FFFFFF";
    assert HexColor(0, 0, 0) == "000000";
    ParseHexColorCode(host, 255, 255, 255);
    ParseHexColorCode(host, 0, 0, 0);
  }

  /** `[parse_color(c) for c in texts]`: the colours in order, or the error
      of the first text that does not parse. */
  function ParseColors(host: Host, texts: seq<string>): (r: Result<seq<Rgb>>)
    ensures r.Ok? <==> forall i :: 0 <= i < |texts| ==> ParseColor(host, texts[i]).Ok?
    ensures r.Ok? ==> (|r.value| == |texts|
      && forall i :: 0 <= i < |texts| ==> r.value[i] == ParseColor(host, texts[i]).value)
    ensures r.Err? ==> exists i :: (0 <= i < |texts| && ParseColor(host, texts[i]).Err?
      && r.error == ParseColor(host, texts[i]).error
      && forall j :: 0 <= j < i ==> ParseColor(host, texts[j]).Ok?)
  {
    if |texts| == 0 then Ok([])
    else
      var first :- ParseColor(host, texts[0]);
      assert forall i :: 1 <= i < |texts| ==> texts[1..][i - 1] == texts[i];
      var rest :- ParseColors(host, texts[1..]);
      Ok([first] + rest)
  }

  /** `[float(v) for v in texts]`: the numbers in order, or a ValueError
      when some text is not a number. */
  function ParseFloats(host: Host, texts: seq<string>): (r: Result<seq<real>>)
    ensures r.Ok? <==> forall i :: 0 <= i < |texts| ==> host.parseFloat(texts[i]).Some?
    ensures r.Ok? ==> (|r.value| == |texts|
      && forall i :: 0 <= i < |texts| ==> r.value[i] == host.parseFloat(texts[i]).value)
    ensures r.Err? ==> r.error == ValueError
  {
    if |texts| == 0 then Ok([])
    else
      var first :- ParseFloat(host, texts[0]);
      var rest :- ParseFloats(host, texts[1..]);
      assert forall i :: 1 <= i < |texts| ==> texts[1..][i - 1] == texts[i];
      Ok([first] + rest)
  }

  /** Texts that each parse to the corresponding colour parse, as a list,
      to the list of those colours. */
  lemma ParseColorsEach(host: Host, texts: seq<string>, colors: seq<Rgb>)
    requires |texts| == |colors|
    requires forall i :: 0 <= i < |texts| ==> ParseColor(host, texts[i]) == Ok(colors[i])
    ensures ParseColors(host, texts) == Ok(colors)
  {
    var r := ParseColors(host, texts);
    assert r.Ok?;
    assert r.value == colors;
  }

  // ---------------------------------------------------------------------
  // The hex codes of the cube's corners, which the recolour forms use as
  // defaults

  /** Every channel is 0 or 1. */
  predicate IsCorner(c: Rgb) {
    (c.r == 0.0 || c.r == 1.0) && (c.g == 0.0 || c.g == 1.0) && (c.b == 0.0 || c.b == 1.0)
  }

  function CornerByte(x: real): (b: nat)
    ensures b < 256
  {
    if x == 1.0 then 255 else 0
  }

  /** "000000", "FF0000", ..., "FFFFFF". */
  function CornerCode(c: Rgb): string {
    HexColor(CornerByte(c.r), CornerByte(c.g), CornerByte(c.b))
  }

  lemma CornerByteQuotient(x: real)
    requires x == 0.0 || x == 1.0
    ensures CornerByte(x) as real / 255.0 == x
  {}

  /** A corner's code parses back to the corner. */
  lemma CornerCodeParses(host: Host, c: Rgb)
    requires IsCorner(c)
    ensures ParseColor(host, CornerCode(c)) == Ok(c)
  {
    CornerByteQuotient(c.r);
    CornerByteQuotient(c.g);
    CornerByteQuotient(c.b);
    ParseHexColorCode(host, CornerByte(c.r), CornerByte(c.g), CornerByte(c.b));
  }
}
