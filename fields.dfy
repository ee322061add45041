/** The common part of every node field (`Field\Field`): its display
    settings, its translation flag and its list of validators. */
module Fields {
  import opened Errors

  /** The full text search weight attached to a field; the enumeration of
      weights itself is not part of this model, so a weight is known by its name. */
  datatype FulltextWeight = FulltextWeight(weightName: string)

  /** Everything about a field that its setters change. */
  datatype FieldState = FieldState(
    fieldLabel: Option<string>,
    description: Option<string>,
    translate: bool,
    width: Option<int>,
    rows: Option<int>,
    validators: seq<string>,
    fulltextWeight: Option<FulltextWeight>)

  /** `asArray()`: the field's settings as the admin interface receives them. */
  datatype FieldArray = FieldArray(
    rows: Option<int>,
    width: Option<int>,
    translate: bool,
    required: bool,
    description: Option<string>,
    fieldLabel: Option<string>,
    name: string,
    fieldType: string,
    validators: seq<string>)

  /** The empty content of a field: `value` is null, or null per locale id
      for a translated field; file fields hold a list of files instead. */
  datatype StructureValue = Null | PerLocale(values: map<string, Option<string>>)
  datatype Structure =
    | ValueStructure(structureType: string, value: StructureValue)
    | FileStructure(structureType: string, files: seq<string>)

  /** The index of the first occurrence of `x` in `s`. */
  function FirstIndex(s: seq<string>, x: string): (k: nat)
    requires x in s
    ensures k < |s| && s[k] == x && x !in s[..k]
  {
    if s[0] == x then 0 else 1 + FirstIndex(s[1..], x)
  }

  /** `array_values(array_unique(s))`: the first occurrence of each element, in order. */
  function Unique(s: seq<string>): (r: seq<string>)
    ensures forall i, j :: 0 <= i < j < |r| ==> r[i] != r[j]
    ensures forall x :: x in r <==> x in s
    ensures |r| <= |s|
  {
    if s == [] then []
    else
      var u := Unique(s[..|s| - 1]);
      if s[|s| - 1] in u then u else u + [s[|s| - 1]]
  }

  /** The first occurrence of `y` in `s` does not move when `x` is appended. */
  lemma {:induction false} FirstIndexSnoc(s: seq<string>, x: string, y: string)
    requires y in s
    ensures FirstIndex(s + [x], y) == FirstIndex(s, y)
  {
    assert (s + [x])[0] == s[0];
    if s[0] != y {
      assert (s + [x])[1..] == s[1..] + [x];
      FirstIndexSnoc(s[1..], x, y);
    }
  }

  /** `validators()` lists the stored validators in the order of their first
      occurrence. */
  lemma {:induction false} UniqueKeepsFirstOccurrenceOrder(s: seq<string>)
    ensures forall i, j :: 0 <= i < j < |Unique(s)| ==>
      FirstIndex(s, Unique(s)[i]) < FirstIndex(s, Unique(s)[j])
  {
    if s != [] {
      var init := s[..|s| - 1];
      var x := s[|s| - 1];
      assert s == init + [x];
      UniqueKeepsFirstOccurrenceOrder(init);
      var u := Unique(init);
      forall y | y in u
        ensures FirstIndex(s, y) == FirstIndex(init, y)
      {
        FirstIndexSnoc(init, x, y);
      }
      if x !in u {
        assert x !in init;
        assert FirstIndex(s, x) == |init| by {
          assert s[..|init|] == init;
        }
      }
    }
  }

  class Field {
    const name: string
    /** `$this::class`, the concrete field class. */
    const fieldType: string
    var fieldLabel: Option<string>
    var description: Option<string>
    var translate: bool
    var width: Option<int>
    var rows: Option<int>
    var validators: seq<string>
    var fulltextWeight: Option<FulltextWeight>

    function State(): FieldState
      reads this
    {
      FieldState(fieldLabel, description, translate, width, rows, validators, fulltextWeight)
    }

    /** A new field has no label, description, width, rows or weight, is not
        translated and has no validators. */
    constructor (name: string, fieldType: string)
      ensures this.name == name && this.fieldType == fieldType
      ensures State() == FieldState(None, None, false, None, None, [], None)
    {
      this.name := name;
      this.fieldType := fieldType;
      fieldLabel := None;
      description := None;
      translate := false;
      width := None;
      rows := None;
      validators := [];
      fulltextWeight := None;
    }

    method Label(l: string)
      modifies this
      ensures State() == old(State()).(fieldLabel := Some(l))
    {
      fieldLabel := Some(l);
    }

    method Description(d: string)
      modifies this
      ensures State() == old(State()).(description := Some(d))
    {
      description := Some(d);
    }

    method Translate(t: bool := true)
      modifies this
      ensures State() == old(State()).(translate := t)
    {
      translate := t;
    }

    method Fulltext(w: FulltextWeight)
      modifies this
      ensures State() == old(State()).(fulltextWeight := Some(w))
    {
      fulltextWeight := Some(w);
    }

    method Width(w: int)
      modifies this
      ensures State() == old(State()).(width := Some(w))
      ensures GetWidth() == Ok(w)
    {
      width := Some(w);
    }

    method Rows(r: int)
      modifies this
      ensures State() == old(State()).(rows := Some(r))
      ensures GetRows() == Ok(r)
    {
      rows := Some(r);
    }

    /** `getWidth()` is declared `int`: returning the unset (null) width is a TypeError. */
    function GetWidth(): (r: Result<int>)
      reads this
      ensures r.Ok? <==> width.Some?
      ensures r.Ok? ==> width == Some(r.value)
      ensures r.Err? ==> r.error.TypeError?
    {
      match width
      case Some(w) => Ok(w)
      case None => Err(TypeError("Conia\\Core\\Field\\Field::getWidth(): Return value must be of type int, null returned"))
    }

    /** `getRows()` is declared `int`: returning the unset (null) rows is a TypeError. */
    function GetRows(): (r: Result<int>)
      reads this
      ensures r.Ok? <==> rows.Some?
      ensures r.Ok? ==> rows == Some(r.value)
      ensures r.Err? ==> r.error.TypeError?
    {
      match rows
      case Some(n) => Ok(n)
      case None => Err(TypeError("Conia\\Core\\Field\\Field::getRows(): Return value must be of type int, null returned"))
    }

    predicate IsRequired()
      reads this
    {
      "required" in validators
    }

    /** `required()` appends 'required', even when it is already there. */
    method Required()
      modifies this
      ensures State() == old(State()).(validators := old(validators) + ["required"])
      ensures IsRequired()
    {
      validators := validators + ["required"];
    }

    /** `validate(vs...)` appends `vs` in order. */
    method Validate(vs: seq<string>)
      modifies this
      ensures State() == old(State()).(validators := old(validators) + vs)
      ensures old(IsRequired()) ==> IsRequired()
    {
      validators := validators + vs;
    }

    /** `validators()`: the stored validators without repetitions. */
    function Validators(): (r: seq<string>)
      reads this
      ensures forall i, j :: 0 <= i < j < |r| ==> r[i] != r[j]
      ensures forall x :: x in r <==> x in validators
      ensures IsRequired() <==> "required" in r
    {
      Unique(validators)
    }

    /** `asArray()` reports the raw stored validators, repetitions included,
        beside the required flag. */
    function AsArray(): (a: FieldArray)
      reads this
      ensures a.required <==> "required" in validators
      ensures a.validators == validators
      ensures a.name == name && a.fieldType == fieldType
      ensures a.rows == rows && a.width == width && a.translate == translate
      ensures a.fieldLabel == fieldLabel && a.description == description
    {
      FieldArray(rows, width, translate, IsRequired(), description, fieldLabel, name, fieldType, validators)
    }

    /** `getTranslatableStructure(t)`: null per locale when translated, null otherwise. */
    method TranslatableStructure(t: string, locales: seq<string>) returns (s: Structure)
      ensures s.ValueStructure? && s.structureType == t
      ensures !translate ==> s.value == Null
      ensures translate ==>
        && s.value.PerLocale?
        && s.value.values.Keys == (set id | id in locales)
        && (forall id :: id in s.value.values ==> s.value.values[id] == None)
    {
      if translate {
        var values: map<string, Option<string>> := map[];
        var n := 0;
        while n < |locales|
          invariant 0 <= n <= |locales|
          invariant values.Keys == set id | id in locales[..n]
          invariant forall id :: id in values ==> values[id] == None
        {
          values := values[locales[n] := None];
          assert locales[..n + 1] == locales[..n] + [locales[n]];
          n := n + 1;
        }
        assert locales[..n] == locales;
        s := ValueStructure(t, PerLocale(values));
      } else {
        s := ValueStructure(t, Null);
      }
    }
  }

  function GetSimpleStructure(t: string): Structure {
    ValueStructure(t, Null)
  }

  function GetFileStructure(t: string): Structure {
    FileStructure(t, [])
  }

  /** The simple and the file structure of a type are the empty content of
      the two kinds, and tell the two kinds apart. */
  lemma EmptyStructures(t: string)
    ensures GetSimpleStructure(t).structureType == t && GetSimpleStructure(t).value == Null
    ensures GetFileStructure(t).structureType == t && GetFileStructure(t).files == []
    ensures GetSimpleStructure(t) != GetFileStructure(t)
  {
  }
}
