/** The static naming of a node class and the lookups of a node instance
    (`Node`): its grid width, class name, name, template, url path along the
    locale fallback chain, and field values. */
module Node {
  import opened Errors
  import opened Strings

  /** The static properties a node class declares (or inherits). */
  datatype NodeClass = NodeClass(
    /** `static::class`, the fully qualified class name. */
    qualifiedName: string,
    /** `static::$name`, '' by default. */
    name: string,
    /** `static::$template`, '' by default. */
    template: string,
    /** `static::$columns`, 12 by default. */
    columns: int)

  const MinColumns := 12
  const MaxColumns := 25

  /** `columns()`: the declared columns when within 12..25, else a ValueError. */
  function Columns(c: NodeClass): (r: Result<int>)
    ensures r.Ok? <==> MinColumns <= c.columns <= MaxColumns
    ensures r.Ok? ==> r.value == c.columns
    ensures r.Err? ==> r.error == ValueError("The value of $columns must be >= 12 and <= 25")
  {
    if c.columns < MinColumns || c.columns > MaxColumns then
      Err(ValueError("The value of $columns must be >= 12 and <= 25"))
    else
      Ok(c.columns)
  }

  /** The part of `s` after its last backslash. */
  function LastSegment(s: string): (r: string)
    ensures '\\' !in r
    ensures |r| <= |s| && r == s[|s| - |r|..]
    ensures |r| < |s| ==> s[|s| - |r| - 1] == '\\'
  {
    if s == [] || s[|s| - 1] == '\\' then ""
    else LastSegment(s[..|s| - 1]) + [s[|s| - 1]]
  }

  /** `className()`: `basename` of the class name with '\' read as '/'. */
  function ClassName(c: NodeClass): string {
    LastSegment(c.qualifiedName)
  }

  /** `name()`: the declared name, or else the lower-cased class name. */
  function Name(c: NodeClass): string {
    if Truthy(c.name) then c.name else ToLower(ClassName(c))
  }

  /** `template()`: the declared template, or else the name. */
  function Template(c: NodeClass): string {
    if Truthy(c.template) then c.template else Name(c)
  }

  /** The class name is the longest ending of the qualified name without a
      backslash. */
  lemma ClassNameIsLastSegment(c: NodeClass, pre: string, seg: string)
    requires c.qualifiedName == pre + "\\" + seg && '\\' !in seg
    ensures ClassName(c) == seg
  {
    var s := c.qualifiedName;
    assert s[|pre|] == '\\' && s[|pre| + 1..] == seg;
  }

  /** Without a declared name, a node's name is its class name in lower case:
      of the same length and without upper-case ASCII letters. */
  lemma DefaultName(c: NodeClass)
    requires !Truthy(c.name)
    ensures |Name(c)| == |ClassName(c)|
    ensures forall i :: 0 <= i < |Name(c)| ==> !('A' <= Name(c)[i] <= 'Z')
    ensures EqualsIgnoreCase(Name(c), ClassName(c))
  {
    var n := Name(c);
    var cn := ClassName(c);
    assert ToLower(n) == ToLower(cn) by {
      forall i | 0 <= i < |n|
        ensures ToLower(n)[i] == ToLower(cn)[i]
      {
        assert LowerChar(LowerChar(cn[i])) == LowerChar(cn[i]);
      }
    }
  }

  /** Without a declared template the template is the name, and a declared
      name or template is used as written. */
  lemma TemplateFallsBackToName(c: NodeClass)
    ensures Truthy(c.template) ==> Template(c) == c.template
    ensures !Truthy(c.template) && Truthy(c.name) ==> Template(c) == c.name
    ensures !Truthy(c.template) && !Truthy(c.name) ==> Template(c) == ToLower(ClassName(c))
  {
  }

  /** The url path along the fallback chain: the first locale with a path. */
  function PathOf(paths: map<string, string>, chain: seq<string>): (r: Result<string>)
    ensures r.Err? ==> r.error == RuntimeError("No url path found")
  {
    if chain == [] then Err(RuntimeError("No url path found"))
    else if chain[0] in paths then Ok(paths[chain[0]])
    else PathOf(paths, chain[1..])
  }

  /** A path is found exactly when some locale of the chain has one, and it
      is the path of the first such locale. */
  lemma {:induction false} PathOfMeaning(paths: map<string, string>, chain: seq<string>)
    ensures PathOf(paths, chain).Ok? <==> exists k :: 0 <= k < |chain| && chain[k] in paths
    ensures forall k ::
      (0 <= k < |chain| && chain[k] in paths && (forall m :: 0 <= m < k ==> chain[m] !in paths))
      ==> PathOf(paths, chain) == Ok(paths[chain[k]])
  {
    if chain != [] {
      PathOfMeaning(paths, chain[1..]);
      if chain[0] !in paths {
        forall k | 0 <= k < |chain| && chain[k] in paths
          ensures 0 <= k - 1 < |chain[1..]| && chain[1..][k - 1] in paths
        {
        }
        forall k | 0 <= k < |chain| && chain[k] in paths && (forall m :: 0 <= m < k ==> chain[m] !in paths)
          ensures PathOf(paths, chain) == Ok(paths[chain[k]])
        {
          assert forall m :: 0 <= m < k - 1 ==> chain[1..][m] == chain[m + 1];
        }
      }
    }
  }

  /** `path(locale)`: walks the locale's fallback chain and gives the first
      path stored for one of its locales; an exhausted chain is a RuntimeException. */
  method Path(paths: map<string, string>, chain: seq<string>) returns (r: Result<string>)
    ensures r == PathOf(paths, chain)
  {
    var n := 0;
    while n < |chain|
      invariant 0 <= n <= |chain|
      invariant PathOf(paths, chain[n..]) == PathOf(paths, chain)
    {
      if chain[n] in paths {
        return Ok(paths[chain[n]]);
      }
      assert chain[n..][1..] == chain[n + 1..];
      n := n + 1;
    }
    return Err(RuntimeError("No url path found"));
  }

  /** The node's own instance properties (`Node.php:38-46` and the promoted
      constructor parameters), each of which is set once a node exists. */
  const NodeProperties: set<string> := {"request", "config", "db", "registry", "list", "find", "data"}

  /** The declared class of each object-typed node property. */
  function PropertyClass(name: string): string
  {
    match name
    case "request" => "Conia\\Chuck\\Request"
    case "config" => "Conia\\Core\\Config"
    case "db" => "Conia\\Quma\\Database"
    case "registry" => "Conia\\Chuck\\Registry"
    case _ => "Conia\\Core\\Finder"
  }

  /** The Error PHP throws when `value()` is called on a node property:
      `list` and `data` are arrays, the others objects without `value()`. */
  function PropertyCallError(name: string): (e: Error)
    requires name in NodeProperties
    ensures e.PhpError?
    ensures name in {"list", "data"} <==> e.message == "Call to a member function value() on array"
  {
    if name == "list" || name == "data" then PhpError("Call to a member function value() on array")
    else PhpError("Call to undefined method " + PropertyClass(name) + "::value()")
  }

  /** `getValue(name)`: `isset($this->{$fieldName})` holds for a field the
      node has and for the node's own properties. A property goes on to the
      `value()` call, which PHP rejects with an Error; a missing field is
      NoSuchField; a field gives its value when it is set, and null when it
      is not. `fields` holds the node's field properties. */
  function GetValue<V>(fields: map<string, V>, isset: V -> bool, c: NodeClass, fieldName: string): (r: Result<Option<V>>)
    ensures fieldName in NodeProperties ==> r == Err(PropertyCallError(fieldName))
    ensures fieldName !in NodeProperties ==> (r.Err? <==> fieldName !in fields)
    ensures fieldName !in NodeProperties && r.Err? ==> r.error.NoSuchField?
    ensures r.Ok? && r.value.Some? <==> fieldName !in NodeProperties && fieldName in fields && isset(fields[fieldName])
    ensures r.Ok? && r.value.Some? ==> r.value.value == fields[fieldName]
  {
    if fieldName in NodeProperties then
      Err(PropertyCallError(fieldName))
    else if fieldName !in fields then
      Err(NoSuchField("The field '" + fieldName + "' does not exist on node with type '" + c.qualifiedName + "'."))
    else if isset(fields[fieldName]) then Ok(Some(fields[fieldName]))
    else Ok(None)
  }
}
