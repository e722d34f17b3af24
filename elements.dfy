/** The page elements the step code touches, abstracted. A form is the map
    from the id of each input field under it to the field's text, which is
    all that `querySelector('#id').value` observes; an element built by
    create_element_with_tags is its tag name, attributes and inner HTML. */
module Elements {
  import opened Outcomes

  /** The input fields under an element, by id. */
  type Fields = map<string, string>

  /** Every requested id has a field. */
  predicate AllPresent(fields: Fields, ids: seq<string>) {
    forall i :: 0 <= i < |ids| ==> ids[i] in fields
  }

  /** The values parse_arguments_from_element returns: one per id, in the
      order of the ids, or a ValueError when some id has no field. */
  function FieldValues(fields: Fields, ids: seq<string>): (r: Result<seq<string>>)
    ensures r.Ok? <==> AllPresent(fields, ids)
    ensures r.Err? ==> r.error == ValueError
    ensures r.Ok? ==> (|r.value| == |ids| && forall i :: 0 <= i < |ids| ==> r.value[i] == fields[ids[i]])
  {
    if |ids| == 0 then Ok([])
    else if ids[0] !in fields then Err(ValueError)
    else
      assert forall i :: 1 <= i < |ids| ==> ids[1..][i - 1] == ids[i];
      var rest :- FieldValues(fields, ids[1..]);
      Ok([fields[ids[0]]] + rest)
  }

  /** Two forms that agree on the requested ids give the same values. */
  lemma FieldValuesAgree(f1: Fields, f2: Fields, ids: seq<string>)
    requires forall i :: 0 <= i < |ids| ==> (ids[i] in f1 <==> ids[i] in f2)
    requires forall i :: 0 <= i < |ids| && ids[i] in f1 ==> f1[ids[i]] == f2[ids[i]]
    ensures FieldValues(f1, ids) == FieldValues(f2, ids)
  {
    if AllPresent(f1, ids) {
      assert FieldValues(f1, ids).value == FieldValues(f2, ids).value;
    }
  }

  /** parse_arguments_from_element: look each id up in turn, appending its
      value, and stop with a ValueError at the first id without a field. */
  method ParseArgumentsFromElement(fields: Fields, ids: seq<string>) returns (r: Result<seq<string>>)
    ensures r == FieldValues(fields, ids)
  {
    var results: seq<string> := [];
    var i := 0;
    while i < |ids|
      invariant 0 <= i <= |ids|
      invariant |results| == i
      invariant forall k :: 0 <= k < i ==> ids[k] in fields && results[k] == fields[ids[k]]
    {
      if ids[i] !in fields {
        return Err(ValueError);
      }
      results := results + [fields[ids[i]]];
      i := i + 1;
    }
    r := Ok(results);
    assert results == FieldValues(fields, ids).value;
  }

  // ---------------------------------------------------------------------
  // create_element_with_tags

  /** `s.replace('_', '-')`. */
  function Dashed(s: string): (d: string)
    ensures |d| == |s|
    ensures forall i :: 0 <= i < |s| ==> d[i] == (if s[i] == '_' then '-' else s[i])
  {
    if |s| == 0 then "" else [if s[0] == '_' then '-' else s[0]] + Dashed(s[1..])
  }

  /** The attribute a keyword argument sets: with a leading underscore
      (`_for`, `_type`) the rest of the name as it is, otherwise the name with
      every underscore turned into a dash. */
  function AttributeName(tag: string): (name: string)
    requires |tag| > 0
    ensures tag[0] == '_' ==> name == tag[1..]
    ensures tag[0] != '_' ==> |name| == |tag| && '_' !in name
    ensures tag[0] != '_' ==> forall i :: 0 <= i < |tag| && tag[i] != '_' ==> name[i] == tag[i]
  {
    if tag[0] == '_' then tag[1..] else Dashed(tag)
  }

  /** An element made by `document.createElement`, after its attributes are
      set; innerHtml is None when no text was given. */
  datatype HtmlElement = HtmlElement(tagName: string, attributes: map<string, string>, innerHtml: Option<string>)

  /** The keyword argument `text`, which `tags.pop('text', None)` removes. */
  function TextOf(tags: seq<(string, string)>): (text: Option<string>)
    ensures text.Some? <==> exists i :: 0 <= i < |tags| && tags[i].0 == "text"
    ensures text.Some? ==> exists i :: 0 <= i < |tags| && tags[i] == ("text", text.value)
  {
    if |tags| == 0 then None
    else if tags[0].0 == "text" then Some(tags[0].1)
    else
      var rest := TextOf(tags[1..]);
      assert forall i :: 1 <= i < |tags| ==> tags[1..][i - 1] == tags[i];
      rest
  }

  /** Some keyword other than `text` is empty, so `tag[0]` fails. */
  predicate HasEmptyName(tags: seq<(string, string)>) {
    exists i :: 0 <= i < |tags| && tags[i].0 == ""
  }

  /** The attributes setAttribute leaves after the keywords are applied in
      order, a later keyword overwriting an earlier one with the same
      attribute; an empty keyword name is an IndexError. */
  function Attributes(tags: seq<(string, string)>): (r: Result<map<string, string>>)
    ensures r.Err? <==> HasEmptyName(tags)
    ensures r.Err? ==> r.error == IndexError
    ensures r.Ok? ==> (r.value.Keys ==
      set i | 0 <= i < |tags| && tags[i].0 != "" && tags[i].0 != "text" :: AttributeName(tags[i].0))
  {
    if |tags| == 0 then Ok(map[])
    else
      var init := tags[..|tags| - 1];
      var (tag, value) := tags[|tags| - 1];
      assert forall i :: 0 <= i < |tags| - 1 ==> init[i] == tags[i];
      var m :- Attributes(init);
      if tag == "text" then Ok(m)
      else if tag == "" then Err(IndexError)
      else Ok(m[AttributeName(tag) := value])
  }

  /** A keyword's value is what its attribute holds, unless a later keyword
      sets the same attribute. */
  lemma {:induction false} AttributesValue(tags: seq<(string, string)>, i: nat)
    requires Attributes(tags).Ok? && i < |tags| && tags[i].0 != "text"
    requires forall j :: i < j < |tags| && tags[j].0 != "text" ==> AttributeName(tags[j].0) != AttributeName(tags[i].0)
    ensures tags[i].0 != "" && AttributeName(tags[i].0) in Attributes(tags).value
    ensures Attributes(tags).value[AttributeName(tags[i].0)] == tags[i].1
  {
    var init := tags[..|tags| - 1];
    assert forall k :: 0 <= k < |tags| - 1 ==> init[k] == tags[k];
    if i < |tags| - 1 {
      AttributesValue(init, i);
    }
  }

  /** create_element_with_tags: the text keyword becomes the inner HTML and
      every other keyword an attribute, set in order through AttributeName. */
  method CreateElementWithTags(elType: string, tags: seq<(string, string)>) returns (r: Result<HtmlElement>)
    ensures r.Err? <==> HasEmptyName(tags)
    ensures r.Err? ==> r.error == IndexError
    ensures r.Ok? ==> r.value.tagName == elType && r.value.innerHtml == TextOf(tags)
    ensures r.Ok? ==> r.value.attributes == Attributes(tags).value
  {
    var text := TextOf(tags);
    var attributes: map<string, string> := map[];
    var i := 0;
    while i < |tags|
      invariant 0 <= i <= |tags|
      invariant Attributes(tags[..i]) == Ok(attributes)
    {
      assert tags[..i + 1][..i] == tags[..i];
      var (tag, value) := tags[i];
      if tag != "text" {
        if tag == "" {
          assert HasEmptyName(tags) by { assert tags[i].0 == ""; }
          return Err(IndexError);
        }
        attributes := attributes[AttributeName(tag) := value];
      }
      i := i + 1;
    }
    assert tags[..i] == tags;
    r := Ok(HtmlElement(elType, attributes, text));
  }

  /** Only the names `text` and `_text` are rewritten to `text`. */
  lemma AttributeNameText(tag: string)
    requires |tag| > 0 && tag != "text" && tag != "_text"
    ensures AttributeName(tag) != "text"
  {
    if tag[0] != '_' && AttributeName(tag) == "text" {
      var name := AttributeName(tag);
      assert forall i :: 0 <= i < 4 ==> name[i] != '-';
      assert false;
    }
  }

  /** The `text` keyword never becomes an attribute; only a keyword spelt
      `_text` can set an attribute of that name. */
  lemma TextIsNotAnAttribute(tags: seq<(string, string)>)
    requires Attributes(tags).Ok?
    requires forall i :: 0 <= i < |tags| ==> tags[i].0 != "_text"
    ensures "text" !in Attributes(tags).value
  {
    forall i | 0 <= i < |tags| && tags[i].0 != "" && tags[i].0 != "text"
      ensures AttributeName(tags[i].0) != "text"
    {
      AttributeNameText(tags[i].0);
    }
  }
}
