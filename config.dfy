/** The CMS configuration (`Config`): the url prefix of the admin panel and
    the registry of node types by name. */
module Configuration {
  import opened Errors
  import opened Strings

  /** A registered node type; the `Type` class is not part of this model
      beyond its name and its class. */
  datatype NodeType = NodeType(name: string, className: string)

  const DefaultPanelPath := "panel"
  const MaxPanelPathLength := 32

  predicate IsAlphanumeric(c: char) {
    IsAsciiLetter(c) || IsDigit(c)
  }

  /** `[A-Za-z0-9]{1,32}` matching the whole string. */
  predicate IsPanelPath(u: string) {
    1 <= |u| <= MaxPanelPathLength && forall i :: 0 <= i < |u| ==> IsAlphanumeric(u[i])
  }

  /** What `preg_match('/^[A-Za-z0-9]{1,32}$/', u)` accepts as written: PCRE's
      `$` without the D modifier also matches just before a final "\n", so a
      panel path followed by one newline passes. */
  predicate MatchesAsWritten(u: string) {
    IsPanelPath(u) || (|u| >= 1 && u[|u| - 1] == '\n' && IsPanelPath(u[..|u| - 1]))
  }

  /** The check as written lets a trailing newline into the panel path. */
  lemma AsWrittenAcceptsTrailingNewline(u: string)
    requires u == "panel\n"
    ensures MatchesAsWritten(u) && !IsPanelPath(u)
  {
    assert u[..|u| - 1] == "panel";
    assert !IsAlphanumeric(u[5]);
  }

  /** The as-written check and the intended one differ only on that newline. */
  lemma AsWrittenDiffersOnlyByNewline(u: string)
    ensures MatchesAsWritten(u) && !IsPanelPath(u) <==>
      |u| >= 2 && u[|u| - 1] == '\n' && IsPanelPath(u[..|u| - 1])
  {
    if |u| >= 1 && u[|u| - 1] == '\n' {
      assert !IsAlphanumeric(u[|u| - 1]);
    }
  }

  const PanelPathMessage :=
    "The panel url prefix be a nonempty string which consist only of letters"
    + " and numbers. Its length must not be longer than 32 characters."

  class Config {
    var panelPath: string
    var types: map<string, NodeType>

    /** Every type is registered under its own name. */
    predicate Valid()
      reads this
    {
      forall n :: n in types ==> types[n].name == n
    }

    /** The panel path is 'panel' and no type is registered. */
    constructor ()
      ensures Valid()
      ensures panelPath == DefaultPanelPath && types == map[]
    {
      panelPath := DefaultPanelPath;
      types := map[];
    }

    /** `setPanelPath(u)`: accepts exactly 1 to 32 ASCII letters and digits;
        anything else is a ValueError and leaves the panel path as it was. */
    method SetPanelPath(u: string) returns (o: Outcome)
      requires Valid()
      modifies this
      ensures Valid()
      ensures o.Pass? <==> IsPanelPath(u)
      ensures o.Pass? ==> panelPath == u
      ensures o.Fail? ==> o.error == ValueError(PanelPathMessage) && panelPath == old(panelPath)
      ensures types == old(types)
    {
      if IsPanelPath(u) {
        panelPath := u;
        return Pass;
      }
      return Fail(ValueError(PanelPathMessage));
    }

    /** `addType(t)`: a name already registered throws and changes nothing;
        a new name adds exactly that entry. */
    method AddType(t: NodeType) returns (o: Outcome)
      requires Valid()
      modifies this
      ensures Valid()
      ensures o.Fail? <==> t.name in old(types)
      ensures o.Fail? ==> o.error.GenericException? && types == old(types)
      ensures o.Pass? ==> types == old(types)[t.name := t] && TypeOf(t.name) == Ok(t)
      ensures panelPath == old(panelPath)
    {
      if t.name in types {
        return Fail(GenericException("Type '" + t.name + "' already exists. Instance of '" + t.className + "'"));
      }
      types := types[t.name := t];
      return Pass;
    }

    /** `types()`: the registry, in which every type is filed under its name. */
    function Types(): (r: map<string, NodeType>)
      reads this
      ensures Valid() ==> forall n :: n in r ==> r[n].name == n
      ensures r.Keys == types.Keys
    {
      types
    }

    /** `type(name)`: the registered type; an unknown name makes the function
        return null where a `Type` is declared, a TypeError. */
    function TypeOf(name: string): (r: Result<NodeType>)
      reads this
      ensures r.Ok? <==> name in types
      ensures r.Ok? ==> r.value == types[name]
      ensures r.Err? ==> r.error.TypeError?
      ensures Valid() && r.Ok? ==> r.value.name == name
    {
      if name in types then Ok(types[name])
      else Err(TypeError("Conia\\Config::type(): Return value must be of type Conia\\Type, null returned"))
    }
  }
}
