/** The processing-step classes of colorgrade_steps.py. A step object keeps
    its id and its form element; the subclass decides its title, whether it
    reads an input table, its arguments with their defaults, and what it does
    to the table it reads. The abstract base and the CopyThisOne template
    raise NotImplementedError where a concrete step does work. */
module Steps {
  import opened Outcomes
  import opened Host
  import opened Colorgrade
  import opened Colors
  import opened Effects
  import opened Elements

  /** The class a step object was made from: ColorgradeProcessStep,
      CopyThisOne, CG8ValueRecolor or CGSimpleRecolor. */
  datatype StepClass = BaseStep | TemplateStep | EightValueStep | SimpleRecolorStep

  /** An `arguments()` dictionary in insertion order: field id and default. */
  type Arguments = seq<(string, string)>

  /** The ids of an arguments dictionary, `args.keys()`. */
  function Keys(args: Arguments): (ks: seq<string>)
    ensures |ks| == |args|
    ensures forall i :: 0 <= i < |args| ==> ks[i] == args[i].0
  {
    seq(|args|, i requires 0 <= i < |args| => args[i].0)
  }

  /** The defaults, `args.values()`. */
  function Values(args: Arguments): (vs: seq<string>)
    ensures |vs| == |args|
    ensures forall i :: 0 <= i < |args| ==> vs[i] == args[i].1
  {
    seq(|args|, i requires 0 <= i < |args| => args[i].1)
  }

  /** The dictionary as a map; a later entry replaces an earlier one, so an
      id maps to the value of its last entry. */
  function AsMap(args: Arguments): (m: map<string, string>)
    ensures m.Keys == set i | 0 <= i < |args| :: args[i].0
  {
    if |args| == 0 then map[]
    else
      var init := args[..|args| - 1];
      assert forall i :: 0 <= i < |args| - 1 ==> init[i] == args[i];
      AsMap(init)[args[|args| - 1].0 := args[|args| - 1].1]
  }

  /** Each id maps to the default of its last entry. */
  lemma {:induction false} AsMapLastEntry(args: Arguments, i: int)
    requires 0 <= i < |args| && LastEntry(args, i)
    ensures AsMap(args)[args[i].0] == args[i].1
  {
    var n := |args| - 1;
    if i < n {
      var init := args[..n];
      assert init[i] == args[i];
      assert LastEntry(init, i) by {
        forall j | i < j < |init|
          ensures init[j].0 != init[i].0
        {
          assert init[j] == args[j];
        }
      }
      AsMapLastEntry(init, i);
      assert args[n].0 != args[i].0;
    }
  }

  /** No later entry of the dictionary has the same id as entry i. */
  predicate LastEntry(args: Arguments, i: int)
    requires 0 <= i < |args|
  {
    forall j :: i < j < |args| ==> args[j].0 != args[i].0
  }

  /** No two entries share an id. */
  predicate DistinctIds(args: Arguments) {
    forall i, j :: 0 <= i < j < |args| ==> args[i].0 != args[j].0
  }

  /** `{k: v for k, v in zip(ks, vs)}`: each key bound to a value paired with
      it (the last one, when a key repeats). */
  function ZipMap(ks: seq<string>, vs: seq<string>): (m: map<string, string>)
    requires |ks| == |vs|
    ensures m.Keys == set i | 0 <= i < |ks| :: ks[i]
    ensures forall k :: k in m ==> exists i :: 0 <= i < |ks| && ks[i] == k && m[k] == vs[i]
  {
    if |ks| == 0 then map[]
    else
      var n := |ks| - 1;
      var m0 := ZipMap(ks[..n], vs[..n]);
      assert forall i :: 0 <= i < n ==> ks[..n][i] == ks[i] && vs[..n][i] == vs[i];
      m0[ks[n] := vs[n]]
  }

  /** CG8ValueRecolor's fields and defaults: the eight cube corners as hex
      codes. */
  function EightValueDefaults(): (args: Arguments)
    ensures |args| == 8
  {
    [("black", "000000"), ("white", "FFFFFF"), ("red", "FF0000"), ("green", "00FF00"),
     ("blue", "0000FF"), ("yellow", "FFFF00"), ("magenta", "FF00FF"), ("cyan", "00FFFF")]
  }

  /** CGSimpleRecolor's fields and defaults. */
  function SimpleRecolorDefaults(): (args: Arguments)
    ensures |args| == 2
  {
    [("black", "000000"), ("white", "FFFFFF")]
  }

  /** Both concrete classes name each of their fields once. */
  lemma DefaultIdsDistinct()
    ensures DistinctIds(EightValueDefaults())
    ensures DistinctIds(SimpleRecolorDefaults())
  {
    var args := EightValueDefaults();
    assert forall i, j :: 0 <= i < j < 8 ==> args[i].0[0] != args[j].0[0] || |args[i].0| != |args[j].0|;
  }

  /** The defaults are the codes of the identity palette's corners. */
  lemma EightValueDefaultCodes()
    ensures forall i :: 0 <= i < 8 ==> Values(EightValueDefaults())[i] == CornerCode(IdentityColors()[i])
  {
    assert HexPair(255) == "FF" && HexPair(0) == "00";
  }

  /** The eight default codes parse to the cube corners in the order
      linear_recolor unpacks its palette. */
  lemma EightValueDefaultColors(host: Host)
    ensures ParseColors(host, Values(EightValueDefaults())) == Ok(IdentityColors())
  {
    var texts := Values(EightValueDefaults());
    EightValueDefaultCodes();
    forall i | 0 <= i < 8
      ensures ParseColor(host, texts[i]) == Ok(IdentityColors()[i])
    {
      CornerCodeParses(host, IdentityColors()[i]);
    }
    ParseColorsEach(host, texts, IdentityColors());
  }

  /** get_target_index on a form: `int()` of its `which-step` field. */
  function SourceIndex(host: Host, fields: Fields): (r: Result<int>)
    ensures "which-step" !in fields ==> r == Err(ValueError)
    ensures "which-step" in fields ==> r == ParseInt(host, fields["which-step"])
  {
    var values :- FieldValues(fields, ["which-step"]);
    ParseInt(host, values[0])
  }

  /** The 8-value recolour of table t with the eight colour fields of a
      form, read in the order black, white, red, green, blue, yellow,
      magenta, cyan. */
  function EightValueRecolorOf(host: Host, fields: Fields, t: Table): (r: Result<Table>)
    ensures r.Ok? ==> |r.value| == |t|
    ensures !AllPresent(fields, Keys(EightValueDefaults())) ==> r == Err(ValueError)
  {
    var texts :- FieldValues(fields, Keys(EightValueDefaults()));
    var colors :- ParseColors(host, texts);
    LinearRecolor(t, colors)
  }

  /** The simple recolour of table t with the `black` and `white` fields of
      a form. */
  function SimpleRecolorOf(host: Host, fields: Fields, t: Table): (r: Result<Table>)
    ensures r.Ok? ==> |r.value| == |t|
    ensures "black" !in fields || "white" !in fields ==> r == Err(ValueError)
  {
    var ids := ["black", "white"];
    assert ids[0] == "black" && ids[1] == "white";
    var texts :- FieldValues(fields, ids);
    var colors :- ParseColors(host, texts);
    Ok(SimpleRecolor(t, colors[0], colors[1]))
  }

  /** A step object: the id and the form element it was created with. */
  class ProcessStep {
    const kind: StepClass
    const processId: int
    var element: Fields

    /** `__init__`. */
    constructor (kind: StepClass, processId: int, element: Fields)
      ensures this.kind == kind && this.processId == processId && this.element == element
    {
      this.kind := kind;
      this.processId := processId;
      this.element := element;
    }

    /** The concrete steps' display names. */
    function Title(): (r: Result<string>)
      ensures r.Err? <==> kind.BaseStep?
      ensures r.Err? ==> r.error == NotImplementedError
    {
      match kind
      case BaseStep => Err(NotImplementedError)
      case TemplateStep => Ok("")
      case EightValueStep => Ok("8-Value Recolor")
      case SimpleRecolorStep => Ok("Simple Recolor")
    }

    /** Every step class but the abstract base reads an input table. */
    function HasInput(): (r: Result<bool>)
      ensures kind.BaseStep? ==> r == Err(NotImplementedError)
      ensures !kind.BaseStep? ==> r == Ok(true)
    {
      if kind.BaseStep? then Err(NotImplementedError) else Ok(true)
    }

    /** The form fields with their defaults. */
    function Arguments(): (r: Result<Arguments>)
      ensures r.Err? <==> kind.BaseStep?
      ensures r.Err? ==> r.error == NotImplementedError
    {
      match kind
      case BaseStep => Err(NotImplementedError)
      case TemplateStep => Ok([])
      case EightValueStep => Ok(EightValueDefaults())
      case SimpleRecolorStep => Ok(SimpleRecolorDefaults())
    }

    /** get_target_index: `int()` of the `which-step` field. */
    function TargetIndex(host: Host): (r: Result<int>)
      reads this
      ensures "which-step" !in element ==> r == Err(ValueError)
      ensures "which-step" in element ==> r == ParseInt(host, element["which-step"])
    {
      SourceIndex(host, element)
    }

    /** serialize: the current value of every argument field, keyed by the
        argument ids. */
    function Serialize(): (r: Result<map<string, string>>)
      reads this
      ensures Arguments().Err? ==> r == Err(NotImplementedError)
      ensures Arguments().Ok? ==> (r.Ok? <==> AllPresent(element, Keys(Arguments().value)))
      ensures r.Ok? ==> Arguments().Ok? && r.value.Keys == set i | 0 <= i < |Arguments().value| :: Arguments().value[i].0
      ensures r.Ok? ==> forall k :: k in r.value ==> k in element && r.value[k] == element[k]
    {
      var args :- Arguments();
      var values :- FieldValues(element, Keys(args));
      Ok(ZipMap(Keys(args), values))
    }

    /** The fields the concrete classes' populate_html_element leave: an
        input per argument, with the parameters overriding the defaults; a
        field already under the element keeps its place ahead of the new one
        with the same id, so lookups still find the old one. */
    method PopulateHtmlElement(parameters: map<string, string>) returns (r: Outcome)
      modifies this
      ensures kind.BaseStep? || kind.TemplateStep? ==> r == Fail(NotImplementedError) && element == old(element)
      ensures kind.EightValueStep? || kind.SimpleRecolorStep? ==>
        r == Pass && element == (AsMap(Arguments().value) + parameters) + old(element)
      ensures (kind.EightValueStep? || kind.SimpleRecolorStep?) && Fresh(Arguments().value, parameters, old(element)) ==>
        HoldsDefaults(element, Arguments().value)
    {
      if kind.BaseStep? || kind.TemplateStep? {
        return Fail(NotImplementedError);
      }
      ghost var prior := element;
      AddFields(AsMap(Arguments().value) + parameters);
      if Fresh(Arguments().value, parameters, prior) {
        DefaultIdsDistinct();
        PopulatedHoldsDefaults(Arguments().value, parameters, prior);
      }
      r := Pass;
    }

    /** add_input_field for every entry: an input is appended for each id,
        and lookups keep finding a field that was already there. */
    method AddFields(args: map<string, string>)
      modifies this
      ensures element == args + old(element)
    {
      var added: set<string> := {};
      var todo := args.Keys;
      while todo != {}
        invariant added <= args.Keys && todo == args.Keys - added
        invariant element.Keys == added + old(element).Keys
        invariant forall c :: c in element ==> element[c] == if c in old(element) then old(element)[c] else args[c]
        decreases todo
      {
        var c :| c in todo;
        if c !in element {
          element := element[c := args[c]];
        }
        added, todo := added + {c}, todo - {c};
      }
      assert element == args + old(element);
    }

    /** do_processing: read the input table at the target index, then
        recolour it with the colours in the argument fields. */
    function DoProcessing(host: Host, cgSteps: seq<Table>): (r: Result<Table>)
      reads this
      ensures kind.BaseStep? || kind.TemplateStep? ==> r == Err(NotImplementedError)
      ensures r.Ok? ==> TargetIndex(host).Ok? && -|cgSteps| <= TargetIndex(host).value < |cgSteps|
      ensures r.Ok? ==> |r.value| == |PyIndex(cgSteps, TargetIndex(host).value).value|
      ensures ((kind.EightValueStep? || kind.SimpleRecolorStep?) && TargetIndex(host).Ok?
        && !(-|cgSteps| <= TargetIndex(host).value < |cgSteps|)) ==> r == Err(IndexError)
    {
      match kind
      case BaseStep => Err(NotImplementedError)
      case TemplateStep => Err(NotImplementedError)
      case EightValueStep =>
        var k :- TargetIndex(host);
        var cgIn :- PyIndex(cgSteps, k);
        EightValueRecolorOf(host, element, cgIn)
      case SimpleRecolorStep =>
        var k :- TargetIndex(host);
        var cgIn :- PyIndex(cgSteps, k);
        SimpleRecolorOf(host, element, cgIn)
    }
  }

  /** A form holds the defaults of the given arguments. */
  predicate HoldsDefaults(fields: Fields, args: Arguments) {
    forall i :: 0 <= i < |args| ==> args[i].0 in fields && fields[args[i].0] == args[i].1
  }

  /** No argument id is given a parameter or already names a field. */
  predicate Fresh(args: Arguments, parameters: map<string, string>, prior: Fields) {
    forall i :: 0 <= i < |args| ==> args[i].0 !in parameters && args[i].0 !in prior
  }

  /** A form populated from arguments with distinct ids, where no parameter
      and no earlier field shadows one of them, holds their defaults. */
  lemma PopulatedHoldsDefaults(args: Arguments, parameters: map<string, string>, prior: Fields)
    requires DistinctIds(args) && Fresh(args, parameters, prior)
    ensures HoldsDefaults((AsMap(args) + parameters) + prior, args)
  {
    forall i | 0 <= i < |args|
      ensures AsMap(args)[args[i].0] == args[i].1
    {
      AsMapLastEntry(args, i);
    }
  }

  /** Recolouring with the 8-value defaults gives back any table. */
  lemma EightValueDefaultsIdentity(host: Host, fields: Fields, t: Table)
    requires HoldsDefaults(fields, EightValueDefaults())
    ensures EightValueRecolorOf(host, fields, t) == Ok(t)
  {
    var texts := FieldValues(fields, Keys(EightValueDefaults()));
    assert texts.Ok?;
    assert texts.value == Values(EightValueDefaults());
    EightValueDefaultColors(host);
    LinearRecolorIdentity(t);
  }

  /** Processing an 8-value step whose colour fields hold the defaults gives
      back its input table. */
  lemma EightValueDefaultsKeepInput(step: ProcessStep, host: Host, cgSteps: seq<Table>)
    requires step.kind.EightValueStep? && HoldsDefaults(step.element, EightValueDefaults())
    requires step.TargetIndex(host).Ok? && PyIndex(cgSteps, step.TargetIndex(host).value).Ok?
    ensures step.DoProcessing(host, cgSteps) == PyIndex(cgSteps, step.TargetIndex(host).value)
  {
    EightValueDefaultsIdentity(host, step.element, PyIndex(cgSteps, step.TargetIndex(host).value).value);
  }

  /** The simple recolour of a form reads only its `black` and `white`
      fields and applies simple_recolor with them. */
  lemma SimpleRecolorOfFields(host: Host, fields: Fields, t: Table, black: Rgb, white: Rgb)
    requires "black" in fields && ParseColor(host, fields["black"]) == Ok(black)
    requires "white" in fields && ParseColor(host, fields["white"]) == Ok(white)
    ensures SimpleRecolorOf(host, fields, t) == Ok(SimpleRecolor(t, black, white))
  {
    var texts := FieldValues(fields, ["black", "white"]);
    assert texts.Ok?;
    assert ParseColors(host, texts.value).Ok?;
  }

  /** A simple-recolour step applies simple_recolor with its `black` and
      `white` fields to the table at its target index. */
  lemma SimpleRecolorStepResult(step: ProcessStep, host: Host, cgSteps: seq<Table>, black: Rgb, white: Rgb)
    requires step.kind.SimpleRecolorStep?
    requires "black" in step.element && ParseColor(host, step.element["black"]) == Ok(black)
    requires "white" in step.element && ParseColor(host, step.element["white"]) == Ok(white)
    requires step.TargetIndex(host).Ok? && PyIndex(cgSteps, step.TargetIndex(host).value).Ok?
    ensures step.DoProcessing(host, cgSteps)
         == Ok(SimpleRecolor(PyIndex(cgSteps, step.TargetIndex(host).value).value, black, white))
  {
    SimpleRecolorOfFields(host, step.element, PyIndex(cgSteps, step.TargetIndex(host).value).value, black, white);
  }
}
