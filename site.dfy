/** The earlier revision of the page (site/colorgrade_gen.py, with its helper
    module site/colorgrade_core.py). Its identity table, quantizer and
    linear_recolor are the same text as the later ones and are modelled by
    Colorgrade.DefaultColorgrade, Colorgrade.ProcessColorgrade and
    Effects.LinearRecolor; what differs is modelled here: a hex-only
    parse_color, a simple_recolor that loses its white colour, and a page
    that knows only the two recolour kinds and always feeds a step the
    previous table. */
module Site {
  import opened Outcomes
  import opened Host
  import opened Colorgrade
  import opened Colors
  import opened Effects
  import opened Elements
  import opened Steps
  import opened Pipeline

  // ---------------------------------------------------------------------
  // parse_color

  /** parse_color of this revision: six hex digits, each pair divided by
      255; any other length fails the assertion. */
  function SiteParseColor(s: string): (r: Result<Rgb>)
    ensures |s| != 6 ==> r == Err(AssertionError)
    ensures |s| == 6 ==> r == ParseHexColor(s)
    ensures r.Ok? <==> |s| == 6 && forall i :: 0 <= i < 6 ==> HexDigitValue(s[i]).Some?
    ensures r.Ok? ==> InUnitCube(r.value)
    ensures r.Err? ==> r.error == AssertionError || r.error == ValueError
  {
    if |s| != 6 then Err(AssertionError) else ParseHexColor(s)
  }

  /** The later parse_color only adds the comma form: on text without
      exactly two commas the two revisions agree, whatever the host. */
  lemma SiteParseColorAgrees(host: Host, s: string)
    requires Count(s, ',') != 2
    ensures SiteParseColor(s) == ParseColor(host, s)
  {
  }

  /** Round trip: the hex code of three bytes parses to each byte / 255. */
  lemma SiteParseColorCode(red: nat, green: nat, blue: nat)
    requires red < 256 && green < 256 && blue < 256
    ensures SiteParseColor(HexColor(red, green, blue))
         == Ok(Rgb(red as real / 255.0, green as real / 255.0, blue as real / 255.0))
  {
    var s := HexColor(red, green, blue);
    assert s[0..2] == HexPair(red);
    assert s[2..4] == HexPair(green);
    assert s[4..6] == HexPair(blue);
  }

  /** `[parse_color(c) for c in texts]` with this revision's parser. */
  function SiteParseColors(texts: seq<string>): (r: Result<seq<Rgb>>)
    ensures r.Ok? <==> forall i :: 0 <= i < |texts| ==> SiteParseColor(texts[i]).Ok?
    ensures r.Ok? ==> (|r.value| == |texts|
      && forall i :: 0 <= i < |texts| ==> r.value[i] == SiteParseColor(texts[i]).value)
    ensures r.Err? ==> exists i :: (0 <= i < |texts| && SiteParseColor(texts[i]).Err?
      && r.error == SiteParseColor(texts[i]).error
      && forall j :: 0 <= j < i ==> SiteParseColor(texts[j]).Ok?)
  {
    if |texts| == 0 then Ok([])
    else
      var first :- SiteParseColor(texts[0]);
      var rest :- SiteParseColors(texts[1..]);
      assert forall i :: 1 <= i < |texts| ==> texts[1..][i - 1] == texts[i];
      Ok([first] + rest)
  }

  /** On texts none of which has exactly two commas, the two revisions parse
      a colour list alike, including which error the first bad text raises. */
  lemma {:induction false} SiteParseColorsAgree(host: Host, texts: seq<string>)
    requires forall i :: 0 <= i < |texts| ==> Count(texts[i], ',') != 2
    ensures SiteParseColors(texts) == ParseColors(host, texts)
  {
    if |texts| > 0 {
      SiteParseColorAgrees(host, texts[0]);
      assert forall i :: 1 <= i < |texts| ==> texts[1..][i - 1] == texts[i];
      SiteParseColorsAgree(host, texts[1..]);
    }
  }

  // ---------------------------------------------------------------------
  // simple_recolor as this revision writes it

  /** simple_recolor of this revision: `c_white` is rebuilt from `c_black`,
      so every cell is carried onto the segment from c_black to c_black,
      which is c_black itself; the white colour is never read. */
  function SiteSimpleRecolor(t: Table, black: Rgb, white: Rgb): (u: Table)
    ensures |u| == |t|
    ensures forall n :: 0 <= n < |t| ==> u[n] == black
  {
    var whiteAsWritten := black;
    seq(|t|, n requires 0 <= n < |t| =>
      Rgb(Lerp(t[n].r, black.r, whiteAsWritten.r),
          Lerp(t[n].g, black.g, whiteAsWritten.g),
          Lerp(t[n].b, black.b, whiteAsWritten.b)))
  }

  /** The discrepancy: recolouring the identity table from black to white,
      its white corner comes out black, where the later simple_recolor
      (Effects.SimpleRecolor) gives white. */
  lemma SiteSimpleRecolorLosesWhite()
    ensures var t := DefaultColorgrade();
      var black, white := Rgb(0.0, 0.0, 0.0), Rgb(1.0, 1.0, 1.0);
      && t[Cells - 1] == white
      && SiteSimpleRecolor(t, black, white)[Cells - 1] == black
      && SimpleRecolor(t, black, white)[Cells - 1] == white
  {
    var t := DefaultColorgrade();
    assert Index(15, 15, 15) == Cells - 1;
    assert t[Cells - 1] == Rgb(GridCoordinate(15), GridCoordinate(15), GridCoordinate(15));
  }

  // ---------------------------------------------------------------------
  // One step of this revision's generate

  /** The ids this revision reads for an 8-value step, in unpacking order. */
  function EightValueIds(): (ids: seq<string>)
    ensures ids == Keys(EightValueDefaults())
  {
    ["black", "white", "red", "green", "blue", "yellow", "magenta", "cyan"]
  }

  /** The table a step makes of the previous one: the two recolour kinds
      read their fields and colours; any other kind reaches `raise
      NotImplemented()`, which is a TypeError since NotImplemented is not
      callable. */
  function SiteStepResult(step: Step, input: Table): (r: Result<Table>)
    ensures step.kind != "8-value-recolor" && step.kind != "simple-recolor" ==> r == Err(TypeError)
    ensures r.Ok? ==> |r.value| == |input|
    ensures step.kind == "simple-recolor" && r.Ok? ==> ("black" in step.fields && SiteParseColor(step.fields["black"]).Ok?
      && forall n :: 0 <= n < |input| ==> r.value[n] == SiteParseColor(step.fields["black"]).value)
  {
    if step.kind == "8-value-recolor" then
      var texts :- FieldValues(step.fields, EightValueIds());
      var colors :- SiteParseColors(texts);
      LinearRecolor(input, colors)
    else if step.kind == "simple-recolor" then
      var ids := ["black", "white"];
      var texts :- FieldValues(step.fields, ids);
      assert texts[0] == step.fields["black"];
      var colors :- SiteParseColors(texts);
      Ok(SiteSimpleRecolor(input, colors[0], colors[1]))
    else Err(TypeError)
  }

  /** As written, a simple-recolor step of this revision is a fill with its
      black colour. */
  lemma SiteSimpleStepIsFill(step: Step, t: Table)
    requires step.kind == "simple-recolor" && IsTable(t) && SiteStepResult(step, t).Ok?
    ensures SiteStepResult(step, t) == Ok(Fill(SiteParseColor(step.fields["black"]).value))
  {
    var u := SiteStepResult(step, t).value;
    assert u == Fill(SiteParseColor(step.fields["black"]).value);
  }

  /** An 8-value step of this revision does what the later revision does
      with the same form reading the previous table, when no colour field
      uses the comma form and `int("-1")` is −1. */
  lemma SiteEightValueMatchesLater(host: Host, step: Step, cgSteps: seq<Table>)
    requires step.kind == "8-value-recolor" && AllTables(cgSteps) && |cgSteps| > 0
    requires host.parseInt("-1") == Some(-1)
    requires forall i :: 0 <= i < 8 && EightValueIds()[i] in step.fields ==> Count(step.fields[EightValueIds()[i]], ',') != 2
    ensures StepResult(host, Step(step.processId, step.kind, step.fields["which-step" := "-1"]), cgSteps)
         == SiteStepResult(step, cgSteps[|cgSteps| - 1])
  {
    var later := Step(step.processId, step.kind, step.fields["which-step" := "-1"]);
    var t := cgSteps[|cgSteps| - 1];
    var ids := EightValueIds();
    PyIndexLast(cgSteps);
    assert InputOf(host, later, cgSteps) == Ok(Some(t));
    FieldValuesAgree(later.fields, step.fields, ids);
    var texts := FieldValues(step.fields, ids);
    if texts.Ok? {
      SiteParseColorsAgree(host, texts.value);
    }
    assert EightValueRecolorOf(host, later.fields, t) == SiteStepResult(step, t);
  }

  /** A corner's hex code parses back to the corner. */
  lemma SiteCornerCodeParses(c: Rgb)
    requires IsCorner(c)
    ensures SiteParseColor(CornerCode(c)) == Ok(c)
  {
    CornerByteQuotient(c.r);
    CornerByteQuotient(c.g);
    CornerByteQuotient(c.b);
    SiteParseColorCode(CornerByte(c.r), CornerByte(c.g), CornerByte(c.b));
  }

  /** The hex codes of cube corners parse to those corners. */
  lemma SiteCornerCodesParse(texts: seq<string>, colors: seq<Rgb>)
    requires |texts| == |colors|
    requires forall i :: 0 <= i < |texts| ==> IsCorner(colors[i]) && texts[i] == CornerCode(colors[i])
    ensures SiteParseColors(texts) == Ok(colors)
  {
    forall i | 0 <= i < |texts|
      ensures SiteParseColor(texts[i]) == Ok(colors[i])
    {
      SiteCornerCodeParses(colors[i]);
    }
    assert SiteParseColors(texts).value == colors;
  }

  /** The 8-value defaults parse to the identity palette in this revision
      too. */
  lemma SiteEightValueDefaultColors()
    ensures SiteParseColors(Values(EightValueDefaults())) == Ok(IdentityColors())
  {
    EightValueDefaultCodes();
    SiteCornerCodesParse(Values(EightValueDefaults()), IdentityColors());
  }

  /** An 8-value step whose colour fields hold the defaults passes its
      input through. */
  lemma SiteEightValueDefaultsIdentity(step: Step, t: Table)
    requires step.kind == "8-value-recolor" && HoldsDefaults(step.fields, EightValueDefaults())
    ensures SiteStepResult(step, t) == Ok(t)
  {
    var texts := FieldValues(step.fields, EightValueIds());
    assert texts.Ok?;
    assert texts.value == Values(EightValueDefaults());
    SiteEightValueDefaultColors();
    LinearRecolorIdentity(t);
  }

  /** A new 8-value form of this revision passes its input through. */
  lemma SiteNewEightValueStepKeepsInput(id: int, t: Table)
    ensures SiteStepResult(Step(id, "8-value-recolor", KindFields("8-value-recolor")), t) == Ok(t)
  {
    assert HoldsDefaults(KindFields("8-value-recolor"), EightValueDefaults());
    SiteEightValueDefaultsIdentity(Step(id, "8-value-recolor", KindFields("8-value-recolor")), t);
  }

  // ---------------------------------------------------------------------
  // The page of this revision

  /** The kinds this revision's create_process_step knows. */
  const SiteKinds: set<string> := {"8-value-recolor", "simple-recolor"}

  /** The page state: the global `process_steps` list and the
      `new_process_id` counter. */
  class SiteStepList {
    var steps: seq<Step>
    var nextId: int

    predicate Valid()
      reads this
    {
      0 <= nextId && IdsBelow(steps, nextId)
    }

    /** The page starts with no steps and the counter at 0. */
    constructor ()
      ensures steps == [] && nextId == 0 && Valid()
    {
      steps := [];
      nextId := 0;
    }

    /** create_process_step: a recolour kind is appended with the counter as
        its id and that kind's form, and the counter moves on; any other
        kind is a ValueError before anything is appended. */
    method CreateProcessStep(kind: string) returns (r: Outcome)
      requires Valid()
      modifies this
      ensures Valid()
      ensures kind !in SiteKinds ==> r == Fail(ValueError) && steps == old(steps) && nextId == old(nextId)
      ensures kind in SiteKinds ==> (r == Pass && nextId == old(nextId) + 1
        && steps == old(steps) + [Step(old(nextId), kind, KindFields(kind))])
    {
      if kind != "8-value-recolor" && kind != "simple-recolor" {
        return Fail(ValueError);
      }
      steps := steps + [Step(nextId, kind, KindFields(kind))];
      nextId := nextId + 1;
      r := Pass;
    }

    /** remove_process_step: scan for the first step with the id and pop
        it, or raise a ValueError when the scan finds none. */
    method RemoveProcessStep(id: int) returns (r: Outcome)
      requires Valid()
      modifies this
      ensures Valid() && nextId == old(nextId)
      ensures FirstIndex(old(steps), id).None? ==> r == Fail(ValueError) && steps == old(steps)
      ensures FirstIndex(old(steps), id).Some? ==> (r == Pass && steps == RemoveAt(old(steps), FirstIndex(old(steps), id).value))
      ensures forall j :: 0 <= j < |steps| ==> steps[j].processId != id
    {
      var i := 0;
      while i < |steps|
        invariant 0 <= i <= |steps|
        invariant forall j :: 0 <= j < i ==> steps[j].processId != id
      {
        if steps[i].processId == id {
          assert FirstIndex(steps, id) == Some(i);
          RemoveFirstLeavesNone(steps, id, nextId);
          steps := RemoveAt(steps, i);
          return Pass;
        }
        i := i + 1;
      }
      r := Fail(ValueError);
    }

    /** generate: start from the identity table and give each step the last
        table so far, appending what it makes; the first step that raises
        ends the run. Writing the result to the canvas is not modelled. */
    method Generate() returns (out: Generated, cgSteps: seq<Table>)
      ensures 1 <= |cgSteps| <= |steps| + 1 && cgSteps[0] == DefaultColorgrade() && AllTables(cgSteps)
      ensures forall j :: 0 <= j < |cgSteps| - 1 ==> SiteStepResult(steps[j], cgSteps[j]) == Ok(cgSteps[j + 1])
      ensures out.Output? <==> |cgSteps| == |steps| + 1
      ensures out.Output? ==> out.table == cgSteps[|cgSteps| - 1]
      ensures out.StepFailed? ==> (1 <= out.step == |cgSteps| <= |steps|
        && SiteStepResult(steps[out.step - 1], cgSteps[|cgSteps| - 1]) == Err(out.error))
      ensures |steps| == 0 ==> out == Output(DefaultColorgrade())
    {
      cgSteps := [DefaultColorgrade()];
      var i := 0;
      while i < |steps|
        invariant 0 <= i <= |steps| && |cgSteps| == i + 1
        invariant cgSteps[0] == DefaultColorgrade() && AllTables(cgSteps)
        invariant forall j :: 0 <= j < i ==> SiteStepResult(steps[j], cgSteps[j]) == Ok(cgSteps[j + 1])
      {
        var cgIn := cgSteps[|cgSteps| - 1];
        var r := SiteStepResult(steps[i], cgIn);
        if r.Err? {
          return StepFailed(i + 1, r.error), cgSteps;
        }
        cgSteps := cgSteps + [r.value];
        i := i + 1;
      }
      PyIndexLast(cgSteps);
      out := Output(PyIndex(cgSteps, -1).value);
    }
  }

  /** In a run of this revision each table is made from the one before, so
      whatever came earlier, a run whose last step is a simple-recolor ends
      in a fill with that step's black colour. */
  lemma SiteLastSimpleStepDecides(steps: seq<Step>, cgSteps: seq<Table>)
    requires 2 <= |cgSteps| <= |steps| + 1 && AllTables(cgSteps)
    requires forall j :: 0 <= j < |cgSteps| - 1 ==> SiteStepResult(steps[j], cgSteps[j]) == Ok(cgSteps[j + 1])
    requires steps[|cgSteps| - 2].kind == "simple-recolor"
    ensures "black" in steps[|cgSteps| - 2].fields && SiteParseColor(steps[|cgSteps| - 2].fields["black"]).Ok?
    ensures cgSteps[|cgSteps| - 1] == Fill(SiteParseColor(steps[|cgSteps| - 2].fields["black"]).value)
  {
    var k := |cgSteps| - 2;
    assert SiteStepResult(steps[k], cgSteps[k]) == Ok(cgSteps[k + 1]);
    SiteSimpleStepIsFill(steps[k], cgSteps[k]);
  }
}
