/** The page driver of colorgrade_gen.py: the list of processing steps the
    user builds (created with ids from a counter, looked up by id, removed,
    moved up and down) and `generate`, which runs the steps in order over a
    list of tables seeded with the identity table. A step's form is its map
    from field ids to text. */
module Pipeline {
  import opened Outcomes
  import opened Host
  import opened Colorgrade
  import opened Colors
  import opened Effects
  import opened Adjustments
  import opened Elements
  import opened Steps

  /** An entry of `process_steps` (the ProcessStep named tuple): the id,
      the kind and the step's form. */
  datatype Step = Step(processId: int, kind: string, fields: Fields)

  /** The display title of each kind; create_process_step looks the kind up
      here, so any other kind is a KeyError. */
  const Titles: map<string, string> := map[
    "8-value-recolor" := "8-value recolor",
    "simple-recolor" := "Simple recolor",
    "fill" := "Fill",
    "if-else" := "Condition",
    "adjust-rgb" := "Adjust RGB",
    "adjust-hsv" := "Adjust HSV",
    "brightness-contrast" := "Brightness/contrast",
    "recenter-colors" := "Recenter colors",
    "custom" := "Custom RGB map"]

  /** The kinds that take no `which-step` input table. */
  const NoInputKinds: set<string> := {"if-else", "fill"}

  /** The fields create_process_step gives a form of each kind, with their
      initial text, before the `which-step` field. */
  function KindFields(kind: string): Fields {
    if kind == "8-value-recolor" then
      map["black" := "000000", "white" := "FFFFFF", "red" := "FF0000", "green" := "00FF00",
          "blue" := "0000FF", "yellow" := "FFFF00", "magenta" := "FF00FF", "cyan" := "00FFFF"]
    else if kind == "simple-recolor" then map["black" := "000000", "white" := "FFFFFF"]
    else if kind == "fill" then map["color" := "000000"]
    else if kind == "if-else" then
      map["condition" := "r+g+b > 0.5", "cond-input" := "0", "true-input" := "-1", "false-input" := "-1"]
    else if kind == "adjust-rgb" then map["r-shift" := "0.0", "g-shift" := "0.0", "b-shift" := "0.0"]
    else if kind == "adjust-hsv" then map["h-shift" := "0.0", "s-shift" := "0.0", "v-shift" := "0.0"]
    else if kind == "brightness-contrast" then map["bright-shift" := "0.0", "con-shift" := "0.0"]
    else if kind == "custom" then map["new-r" := "r", "new-g" := "g", "new-b" := "b"]
    else map[]
  }

  /** A new form: the kind's fields, and a `which-step` field reading "-1"
      (the previous table) unless the kind takes no input. */
  function FormFields(kind: string): (fields: Fields)
    ensures kind in NoInputKinds <==> "which-step" !in fields
    ensures kind !in NoInputKinds ==> fields["which-step"] == "-1"
  {
    if kind in NoInputKinds then KindFields(kind) else KindFields(kind)["which-step" := "-1"]
  }

  /** A new 8-value form holds that step's defaults. */
  lemma EightValueFormDefaults()
    ensures HoldsDefaults(FormFields("8-value-recolor"), EightValueDefaults())
  {
  }

  // ---------------------------------------------------------------------
  // One step of generate

  /** Every table has the 4096 cells of a colorgrade. */
  predicate AllTables(cgSteps: seq<Table>) {
    forall i :: 0 <= i < |cgSteps| ==> IsTable(cgSteps[i])
  }

  /** The input table: none for the kinds without input, otherwise the table
      at the `which-step` index under Python list indexing. */
  function InputOf(host: Host, step: Step, cgSteps: seq<Table>): (r: Result<Option<Table>>)
    ensures step.kind in NoInputKinds ==> r == Ok(None)
    ensures step.kind !in NoInputKinds ==>
      (r.Ok? <==> SourceIndex(host, step.fields).Ok? && -|cgSteps| <= SourceIndex(host, step.fields).value < |cgSteps|)
    ensures step.kind !in NoInputKinds && r.Ok? ==> r.value == Some(PyIndex(cgSteps, SourceIndex(host, step.fields).value).value)
    ensures (step.kind !in NoInputKinds && SourceIndex(host, step.fields).Ok?
      && !(-|cgSteps| <= SourceIndex(host, step.fields).value < |cgSteps|)) ==> r == Err(IndexError)
  {
    if step.kind in NoInputKinds then Ok(None)
    else
      var k :- SourceIndex(host, step.fields);
      var t :- PyIndex(cgSteps, k);
      Ok(Some(t))
  }

  /** Every input table a step can read is a colorgrade. */
  lemma InputIsTable(host: Host, step: Step, cgSteps: seq<Table>)
    requires AllTables(cgSteps) && InputOf(host, step, cgSteps).Ok?
    ensures step.kind !in NoInputKinds ==> InputOf(host, step, cgSteps).value.Some?
    ensures InputOf(host, step, cgSteps).value.Some? ==> IsTable(InputOf(host, step, cgSteps).value.value)
  {
  }

  /** A fill step: the colour in the `color` field, everywhere. */
  function FillOf(host: Host, fields: Fields): (r: Result<Table>)
    ensures r.Ok? ==> IsTable(r.value)
    ensures "color" !in fields ==> r == Err(ValueError)
    ensures "color" in fields ==> (r.Ok? <==> ParseColor(host, fields["color"]).Ok?)
    ensures r.Ok? ==> r.value == Fill(ParseColor(host, fields["color"]).value)
  {
    var texts :- FieldValues(fields, ["color"]);
    var color :- ParseColor(host, texts[0]);
    Ok(Fill(color))
  }

  /** An if-else step: the true, false and condition tables are each looked
      up by their own index field, in that order, and handed to if_else. */
  function IfElseOf(host: Host, fields: Fields, cgSteps: seq<Table>): (r: Result<Table>)
    requires AllTables(cgSteps)
    ensures r.Ok? ==> IsTable(r.value)
  {
    var values :- FieldValues(fields, ["condition", "cond-input", "true-input", "false-input"]);
    var ti :- ParseInt(host, values[2]);
    var tTrue :- PyIndex(cgSteps, ti);
    var fi :- ParseInt(host, values[3]);
    var tFalse :- PyIndex(cgSteps, fi);
    var ci :- ParseInt(host, values[1]);
    var tCond :- PyIndex(cgSteps, ci);
    IfElse(host, tTrue, tFalse, tCond, values[0])
  }

  /** With all four fields present and every index valid, an if-else step is
      if_else of the three tables its indices name, each resolved on its own. */
  lemma IfElseResolvesEachIndex(host: Host, fields: Fields, cgSteps: seq<Table>, ti: int, fi: int, ci: int)
    requires AllTables(cgSteps)
    requires "condition" in fields && "cond-input" in fields && "true-input" in fields && "false-input" in fields
    requires ParseInt(host, fields["true-input"]) == Ok(ti) && -|cgSteps| <= ti < |cgSteps|
    requires ParseInt(host, fields["false-input"]) == Ok(fi) && -|cgSteps| <= fi < |cgSteps|
    requires ParseInt(host, fields["cond-input"]) == Ok(ci) && -|cgSteps| <= ci < |cgSteps|
    ensures IfElseOf(host, fields, cgSteps)
         == IfElse(host, PyIndex(cgSteps, ti).value, PyIndex(cgSteps, fi).value, PyIndex(cgSteps, ci).value, fields["condition"])
  {
    var ids := ["condition", "cond-input", "true-input", "false-input"];
    assert AllPresent(fields, ids);
    var values := FieldValues(fields, ids);
    assert values.value[0] == fields["condition"] && values.value[1] == fields["cond-input"];
    assert values.value[2] == fields["true-input"] && values.value[3] == fields["false-input"];
  }

  /** An index field naming no table makes the if-else step an IndexError,
      when the fields before it in lookup order are fine. */
  lemma IfElseTrueIndexOutOfRange(host: Host, fields: Fields, cgSteps: seq<Table>, ti: int)
    requires AllTables(cgSteps)
    requires "condition" in fields && "cond-input" in fields && "true-input" in fields && "false-input" in fields
    requires ParseInt(host, fields["true-input"]) == Ok(ti) && !(-|cgSteps| <= ti < |cgSteps|)
    ensures IfElseOf(host, fields, cgSteps) == Err(IndexError)
  {
    var ids := ["condition", "cond-input", "true-input", "false-input"];
    assert AllPresent(fields, ids);
    var values := FieldValues(fields, ids);
    assert values.value[2] == fields["true-input"];
  }

  /** The `float()` of each of the named fields. */
  function ShiftsOf(host: Host, fields: Fields, ids: seq<string>): (r: Result<seq<real>>)
    ensures r.Ok? ==> |r.value| == |ids|
  {
    var texts :- FieldValues(fields, ids);
    ParseFloats(host, texts)
  }

  /** adjust_rgb, adjust_hsv and brightness_contrast as functions of the
      table: what the methods of the same names compute. */
  function AdjustRgbTable(host: Host, t: Table, s: seq<real>): (u: Table)
    requires |s| == 3
    ensures |u| == |t|
  {
    seq(|t|, n requires 0 <= n < |t| => AdjustRgbCell(host, t[n], s[0], s[1], s[2]))
  }

  function AdjustHsvTable(host: Host, t: Table, s: seq<real>): (u: Table)
    requires |s| == 3
    ensures |u| == |t|
  {
    seq(|t|, n requires 0 <= n < |t| => AdjustHsvCell(host, t[n], s[0], s[1], s[2]))
  }

  function BrightnessContrastTable(host: Host, t: Table, s: seq<real>): (u: Table)
    requires |s| == 2
    ensures |u| == |t|
  {
    seq(|t|, n requires 0 <= n < |t| => BrightnessContrastCell(host, t[n], s[0], s[1]))
  }

  /** The table a step appends to the list, or the exception it raises. */
  function StepResult(host: Host, step: Step, cgSteps: seq<Table>): (r: Result<Table>)
    requires AllTables(cgSteps)
    ensures r.Ok? ==> IsTable(r.value)
  {
    var input :- InputOf(host, step, cgSteps);
    InputIsTable(host, step, cgSteps);
    var kind, fields := step.kind, step.fields;
    if kind == "8-value-recolor" then EightValueRecolorOf(host, fields, input.value)
    else if kind == "simple-recolor" then SimpleRecolorOf(host, fields, input.value)
    else if kind == "recenter-colors" then Ok(Rescaled(input.value))
    else if kind == "fill" then FillOf(host, fields)
    else if kind == "if-else" then IfElseOf(host, fields, cgSteps)
    else if kind == "adjust-rgb" then
      var s :- ShiftsOf(host, fields, ["r-shift", "g-shift", "b-shift"]);
      Ok(AdjustRgbTable(host, input.value, s))
    else if kind == "adjust-hsv" then
      var s :- ShiftsOf(host, fields, ["h-shift", "s-shift", "v-shift"]);
      Ok(AdjustHsvTable(host, input.value, s))
    else if kind == "brightness-contrast" then
      var s :- ShiftsOf(host, fields, ["bright-shift", "con-shift"]);
      Ok(BrightnessContrastTable(host, input.value, s))
    else if kind == "custom" then
      var e :- FieldValues(fields, ["new-r", "new-g", "new-b"]);
      CustomRgbAdjust(host, input.value, e[0], e[1], e[2])
    else Err(NotImplementedError)
  }

  /** One pass of generate's loop body: find the input, run the kind's
      effect (the imperative ones through their methods), return its table. */
  method RunStep(host: Host, step: Step, cgSteps: seq<Table>) returns (r: Result<Table>)
    requires AllTables(cgSteps)
    ensures r == StepResult(host, step, cgSteps)
  {
    var input :- InputOf(host, step, cgSteps);
    InputIsTable(host, step, cgSteps);
    var kind, fields := step.kind, step.fields;
    if kind == "8-value-recolor" {
      r := EightValueRecolorOf(host, fields, input.value);
    } else if kind == "simple-recolor" {
      r := SimpleRecolorOf(host, fields, input.value);
    } else if kind == "recenter-colors" {
      var u := RescaleToFillRange(input.value);
      r := Ok(u);
    } else if kind == "fill" {
      r := FillOf(host, fields);
    } else if kind == "if-else" {
      r := IfElseOf(host, fields, cgSteps);
    } else if kind == "adjust-rgb" {
      var s :- ShiftsOf(host, fields, ["r-shift", "g-shift", "b-shift"]);
      var u := AdjustRgb(host, input.value, s[0], s[1], s[2]);
      assert u == AdjustRgbTable(host, input.value, s);
      r := Ok(u);
    } else if kind == "adjust-hsv" {
      var s :- ShiftsOf(host, fields, ["h-shift", "s-shift", "v-shift"]);
      var u := AdjustHsv(host, input.value, s[0], s[1], s[2]);
      assert u == AdjustHsvTable(host, input.value, s);
      r := Ok(u);
    } else if kind == "brightness-contrast" {
      var s :- ShiftsOf(host, fields, ["bright-shift", "con-shift"]);
      var u := BrightnessContrast(host, input.value, s[0], s[1]);
      assert u == BrightnessContrastTable(host, input.value, s);
      r := Ok(u);
    } else if kind == "custom" {
      var e :- FieldValues(fields, ["new-r", "new-g", "new-b"]);
      r := CustomRgbAdjust(host, input.value, e[0], e[1], e[2]);
    } else {
      r := Err(NotImplementedError);
    }
  }

  /** A kind without input never reads `which-step`: its result does not
      depend on that field. */
  lemma NoInputIgnoresWhichStep(host: Host, step: Step, cgSteps: seq<Table>, which: Option<string>)
    requires AllTables(cgSteps) && step.kind in NoInputKinds
    ensures var fields := if which.Some? then step.fields["which-step" := which.value] else step.fields - {"which-step"};
      StepResult(host, step, cgSteps) == StepResult(host, step.(fields := fields), cgSteps)
  {
    var fields := if which.Some? then step.fields["which-step" := which.value] else step.fields - {"which-step"};
    if step.kind == "fill" {
      FieldValuesAgree(fields, step.fields, ["color"]);
      assert FillOf(host, fields) == FillOf(host, step.fields);
    } else {
      FieldValuesAgree(fields, step.fields, ["condition", "cond-input", "true-input", "false-input"]);
      assert IfElseOf(host, fields, cgSteps) == IfElseOf(host, step.fields, cgSteps);
    }
  }

  /** Every other kind reads its input first: a `which-step` index outside
      −len .. len−1 is an IndexError before the kind's own fields are read. */
  lemma InputIndexOutOfRange(host: Host, step: Step, cgSteps: seq<Table>)
    requires AllTables(cgSteps) && step.kind !in NoInputKinds
    requires SourceIndex(host, step.fields).Ok?
    requires !(-|cgSteps| <= SourceIndex(host, step.fields).value < |cgSteps|)
    ensures StepResult(host, step, cgSteps) == Err(IndexError)
  {
  }

  /** A kind the executor does not know raises NotImplementedError once its
      input is found. */
  lemma UnknownKindFails(host: Host, step: Step, cgSteps: seq<Table>)
    requires AllTables(cgSteps) && step.kind !in Titles
    requires InputOf(host, step, cgSteps).Ok?
    ensures StepResult(host, step, cgSteps) == Err(NotImplementedError)
  {
  }

  /** A recenter step rescales its input table. */
  lemma RecenterRescales(host: Host, step: Step, cgSteps: seq<Table>)
    requires AllTables(cgSteps) && step.kind == "recenter-colors" && InputOf(host, step, cgSteps).Ok?
    ensures InputOf(host, step, cgSteps).value.Some?
    ensures StepResult(host, step, cgSteps) == Ok(Rescaled(InputOf(host, step, cgSteps).value.value))
  {
    InputIsTable(host, step, cgSteps);
  }

  /** A freshly created 8-value step passes the previous table through
      unchanged, given that `int("-1")` is −1. */
  lemma NewEightValueStepKeepsLast(host: Host, id: int, cgSteps: seq<Table>)
    requires AllTables(cgSteps) && |cgSteps| > 0
    requires host.parseInt("-1") == Some(-1)
    ensures StepResult(host, Step(id, "8-value-recolor", FormFields("8-value-recolor")), cgSteps) == Ok(cgSteps[|cgSteps| - 1])
  {
    var step := Step(id, "8-value-recolor", FormFields("8-value-recolor"));
    EightValueFormDefaults();
    PyIndexLast(cgSteps);
    assert InputOf(host, step, cgSteps) == Ok(Some(cgSteps[|cgSteps| - 1]));
    EightValueDefaultsIdentity(host, step.fields, cgSteps[|cgSteps| - 1]);
  }

  // ---------------------------------------------------------------------
  // generate

  /** What generate ends with: the last table, or the 1-based number of the
      step that raised and its exception. */
  datatype Generated = Output(table: Table) | StepFailed(step: nat, error: Error)

  /** The first position holding a step with the given id. */
  function FirstIndex(steps: seq<Step>, id: int): (r: Option<nat>)
    ensures r.Some? ==> r.value < |steps| && steps[r.value].processId == id
    ensures r.Some? ==> forall j :: 0 <= j < r.value ==> steps[j].processId != id
    ensures r.None? ==> forall j :: 0 <= j < |steps| ==> steps[j].processId != id
  {
    if |steps| == 0 then None
    else if steps[0].processId == id then Some(0)
    else
      var rest := FirstIndex(steps[1..], id);
      assert forall j :: 1 <= j < |steps| ==> steps[1..][j - 1] == steps[j];
      if rest.None? then None else Some(rest.value + 1)
  }

  /** The list with the steps at positions i and i + 1 exchanged. */
  function SwapAdjacent(steps: seq<Step>, i: nat): (s: seq<Step>)
    requires i + 1 < |steps|
    ensures |s| == |steps| && s[i] == steps[i + 1] && s[i + 1] == steps[i]
    ensures forall j :: 0 <= j < |steps| && j != i && j != i + 1 ==> s[j] == steps[j]
  {
    steps[..i] + [steps[i + 1], steps[i]] + steps[i + 2..]
  }

  /** Exchanging two neighbours keeps the same steps. */
  lemma SwapAdjacentPermutes(steps: seq<Step>, i: nat)
    requires i + 1 < |steps|
    ensures multiset(SwapAdjacent(steps, i)) == multiset(steps)
  {
    assert steps == steps[..i] + [steps[i], steps[i + 1]] + steps[i + 2..];
  }

  /** Ids are distinct and below the counter. */
  predicate IdsBelow(steps: seq<Step>, nextId: int) {
    && (forall i :: 0 <= i < |steps| ==> 0 <= steps[i].processId < nextId)
    && (forall i, j :: 0 <= i < j < |steps| ==> steps[i].processId != steps[j].processId)
  }

  /** Exchanging two neighbours keeps the ids distinct. */
  lemma SwapAdjacentIds(steps: seq<Step>, i: nat, nextId: int)
    requires i + 1 < |steps| && IdsBelow(steps, nextId)
    ensures IdsBelow(SwapAdjacent(steps, i), nextId)
  {
    var s := SwapAdjacent(steps, i);
    forall a, b | 0 <= a < b < |s|
      ensures s[a].processId != s[b].processId
    {
      var a', b' := Origin(a, i), Origin(b, i);
      assert s[a] == steps[a'] && s[b] == steps[b'];
    }
  }

  /** Where position j of the swapped list came from. */
  function Origin(j: nat, i: nat): nat {
    if j == i then i + 1 else if j == i + 1 then i else j
  }

  /** `steps.pop(k)`: the list without position k. */
  function RemoveAt(steps: seq<Step>, k: nat): (s: seq<Step>)
    requires k < |steps|
    ensures |s| == |steps| - 1
    ensures forall j :: 0 <= j < |s| ==> s[j] == steps[if j < k then j else j + 1]
  {
    steps[..k] + steps[k + 1..]
  }

  /** Removing the first step with an id leaves no step with that id, when
      ids are distinct, and keeps the others distinct. */
  lemma RemoveFirstLeavesNone(steps: seq<Step>, id: int, nextId: int)
    requires IdsBelow(steps, nextId) && FirstIndex(steps, id).Some?
    ensures forall j :: 0 <= j < |steps| - 1 ==> RemoveAt(steps, FirstIndex(steps, id).value)[j].processId != id
    ensures IdsBelow(RemoveAt(steps, FirstIndex(steps, id).value), nextId)
  {
    var k := FirstIndex(steps, id).value;
    var s := RemoveAt(steps, k);
    forall a, b | 0 <= a < b < |s|
      ensures s[a].processId != s[b].processId
    {
      assert s[a] == steps[if a < k then a else a + 1];
      assert s[b] == steps[if b < k then b else b + 1];
    }
  }

  /** Popping position i and inserting the step one position earlier
      exchanges it with its predecessor. */
  lemma PopInsertBefore(steps: seq<Step>, i: nat)
    requires 0 < i < |steps|
    ensures var popped := RemoveAt(steps, i);
      popped[..i - 1] + [steps[i]] + popped[i - 1..] == SwapAdjacent(steps, i - 1)
  {
    var popped := RemoveAt(steps, i);
    var s := popped[..i - 1] + [steps[i]] + popped[i - 1..];
    assert |s| == |steps|;
    forall j | 0 <= j < |s|
      ensures s[j] == SwapAdjacent(steps, i - 1)[j]
    {
      if j < i - 1 { assert s[j] == popped[j]; }
      else if j > i - 1 { assert s[j] == popped[j - 1]; }
    }
  }

  /** Popping position i and inserting the step one position later
      exchanges it with its successor. */
  lemma PopInsertAfter(steps: seq<Step>, i: nat)
    requires i + 1 < |steps|
    ensures var popped := RemoveAt(steps, i);
      popped[..i + 1] + [steps[i]] + popped[i + 1..] == SwapAdjacent(steps, i)
  {
    var popped := RemoveAt(steps, i);
    var s := popped[..i + 1] + [steps[i]] + popped[i + 1..];
    assert |s| == |steps|;
    forall j | 0 <= j < |s|
      ensures s[j] == SwapAdjacent(steps, i)[j]
    {
      if j <= i { assert s[j] == popped[j]; }
      else if j > i + 1 { assert s[j] == popped[j - 1]; }
    }
  }

  /** Each table after the first is what its step made of the tables before
      it. */
  predicate Traced(host: Host, steps: seq<Step>, cgSteps: seq<Table>)
    requires |cgSteps| <= |steps| + 1 && AllTables(cgSteps)
  {
    forall j :: 0 <= j < |cgSteps| - 1 ==> StepResult(host, steps[j], cgSteps[..j + 1]) == Ok(cgSteps[j + 1])
  }

  /** Appending the table the next step makes keeps the trace. */
  lemma TraceExtends(host: Host, steps: seq<Step>, cgSteps: seq<Table>, next: Table)
    requires 1 <= |cgSteps| <= |steps| && AllTables(cgSteps) && Traced(host, steps, cgSteps)
    requires StepResult(host, steps[|cgSteps| - 1], cgSteps) == Ok(next)
    ensures AllTables(cgSteps + [next]) && Traced(host, steps, cgSteps + [next])
  {
    var longer := cgSteps + [next];
    assert AllTables(longer);
    forall j | 0 <= j < |longer| - 1
      ensures StepResult(host, steps[j], longer[..j + 1]) == Ok(longer[j + 1])
    {
      PrefixOfAppend(cgSteps, next, j + 1);
      if j == |cgSteps| - 1 {
        assert longer[..j + 1] == cgSteps;
      } else {
        assert longer[..j + 1] == cgSteps[..j + 1] && longer[j + 1] == cgSteps[j + 1];
      }
    }
  }

  /** `(s + [x])[..k]` is `s[..k]` for k up to |s|. */
  lemma PrefixOfAppend(s: seq<Table>, x: Table, k: nat)
    requires k <= |s|
    ensures (s + [x])[..k] == s[..k]
  {
  }

  /** The page's step list and id counter (`process_steps` and
      `new_process_id`). */
  class StepList {
    var steps: seq<Step>
    var nextId: int

    predicate Valid()
      reads this
    {
      0 <= nextId && IdsBelow(steps, nextId)
    }

    /** The page starts with no steps and the counter at 0. */
    constructor ()
      ensures steps == [] && nextId == 0 && Valid()
    {
      steps := [];
      nextId := 0;
    }

    /** create_process_step: a known kind is appended with the current
        counter as its id and a new form, and the counter moves on; an
        unknown kind fails the title lookup and changes nothing. */
    method CreateProcessStep(kind: string) returns (r: Outcome)
      requires Valid()
      modifies this
      ensures Valid()
      ensures kind !in Titles ==> r == Fail(KeyError) && steps == old(steps) && nextId == old(nextId)
      ensures kind in Titles ==> (r == Pass && nextId == old(nextId) + 1
        && steps == old(steps) + [Step(old(nextId), kind, FormFields(kind))])
    {
      if kind !in Titles {
        return Fail(KeyError);
      }
      steps := steps + [Step(nextId, kind, FormFields(kind))];
      nextId := nextId + 1;
      r := Pass;
    }

    /** get_index_of_step: the position of the first step with the id. */
    method GetIndexOfStep(id: int) returns (r: Option<nat>)
      ensures r == FirstIndex(steps, id)
    {
      var i := 0;
      while i < |steps|
        invariant 0 <= i <= |steps|
        invariant forall j :: 0 <= j < i ==> steps[j].processId != id
      {
        if steps[i].processId == id {
          return Some(i);
        }
        i := i + 1;
      }
      return None;
    }

    /** remove_process_step: pop the first step with the id, or raise a
        ValueError when there is none. */
    method RemoveProcessStep(id: int) returns (r: Outcome)
      requires Valid()
      modifies this
      ensures Valid() && nextId == old(nextId)
      ensures FirstIndex(old(steps), id).None? ==> r == Fail(ValueError) && steps == old(steps)
      ensures FirstIndex(old(steps), id).Some? ==> (r == Pass && steps == RemoveAt(old(steps), FirstIndex(old(steps), id).value))
      ensures forall j :: 0 <= j < |steps| ==> steps[j].processId != id
    {
      var k := GetIndexOfStep(id);
      if k.None? {
        return Fail(ValueError);
      }
      RemoveFirstLeavesNone(steps, id, nextId);
      steps := RemoveAt(steps, k.value);
      r := Pass;
    }

    /** move_step_up: a step not at the top changes places with the one
        above it, by a pop and an insert one position earlier. */
    method MoveStepUp(id: int) returns (r: Outcome)
      requires Valid()
      modifies this
      ensures Valid() && nextId == old(nextId) && multiset(steps) == multiset(old(steps))
      ensures FirstIndex(old(steps), id).None? ==> r == Fail(ValueError) && steps == old(steps)
      ensures FirstIndex(old(steps), id) == Some(0) ==> r == Pass && steps == old(steps)
      ensures FirstIndex(old(steps), id).Some? && FirstIndex(old(steps), id).value > 0 ==>
        r == Pass && steps == SwapAdjacent(old(steps), FirstIndex(old(steps), id).value - 1)
    {
      var k := GetIndexOfStep(id);
      if k.None? {
        return Fail(ValueError);
      }
      if k.value == 0 {
        return Pass;
      }
      var i := k.value;
      var step := steps[i];
      var popped := RemoveAt(steps, i);
      PopInsertBefore(steps, i);
      steps := popped[..i - 1] + [step] + popped[i - 1..];
      SwapAdjacentPermutes(old(steps), i - 1);
      SwapAdjacentIds(old(steps), i - 1, nextId);
      r := Pass;
    }

    /** move_step_down: a step not at the bottom changes places with the one
        below it, by a pop and an insert one position later. */
    method MoveStepDown(id: int) returns (r: Outcome)
      requires Valid()
      modifies this
      ensures Valid() && nextId == old(nextId) && multiset(steps) == multiset(old(steps))
      ensures FirstIndex(old(steps), id).None? ==> r == Fail(ValueError) && steps == old(steps)
      ensures FirstIndex(old(steps), id) == Some(|old(steps)| - 1) ==> r == Pass && steps == old(steps)
      ensures FirstIndex(old(steps), id).Some? && FirstIndex(old(steps), id).value < |old(steps)| - 1 ==>
        r == Pass && steps == SwapAdjacent(old(steps), FirstIndex(old(steps), id).value)
    {
      var k := GetIndexOfStep(id);
      if k.None? {
        return Fail(ValueError);
      }
      if k.value == |steps| - 1 {
        return Pass;
      }
      var i := k.value;
      var step := steps[i];
      var popped := RemoveAt(steps, i);
      PopInsertAfter(steps, i);
      steps := popped[..i + 1] + [step] + popped[i + 1..];
      SwapAdjacentPermutes(old(steps), i);
      SwapAdjacentIds(old(steps), i, nextId);
      r := Pass;
    }

    /** generate: seed the tables with the identity colorgrade, run each step
        on the tables so far and append its result; the first step that
        raises ends the run with its 1-based number; otherwise the output is
        the last table. */
    method Generate(host: Host) returns (out: Generated, cgSteps: seq<Table>)
      ensures 1 <= |cgSteps| <= |steps| + 1 && cgSteps[0] == DefaultColorgrade() && AllTables(cgSteps)
      ensures Traced(host, steps, cgSteps)
      ensures out.Output? <==> |cgSteps| == |steps| + 1
      ensures out.Output? ==> out.table == cgSteps[|cgSteps| - 1]
      ensures out.StepFailed? ==> (1 <= out.step == |cgSteps| <= |steps|
        && StepResult(host, steps[out.step - 1], cgSteps) == Err(out.error))
      ensures |steps| == 0 ==> out == Output(DefaultColorgrade())
    {
      cgSteps := [DefaultColorgrade()];
      var i := 0;
      while i < |steps|
        invariant 0 <= i <= |steps| && |cgSteps| == i + 1
        invariant cgSteps[0] == DefaultColorgrade() && AllTables(cgSteps)
        invariant Traced(host, steps, cgSteps)
      {
        var r := RunStep(host, steps[i], cgSteps);
        if r.Err? {
          return StepFailed(i + 1, r.error), cgSteps;
        }
        TraceExtends(host, steps, cgSteps, r.value);
        cgSteps := cgSteps + [r.value];
        i := i + 1;
      }
      PyIndexLast(cgSteps);
      out := Output(PyIndex(cgSteps, -1).value);
    }
  }
}
