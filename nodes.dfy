/** The node finder's query builder (`Finder\Nodes`): it collects a filter,
    a type restriction, an order, a limit and the published/deleted flags,
    and assembles from them the parameters of the node query. */
module Finder {
  import opened Errors
  import opened Strings
  import OrderCompiler

  /** The columns a finder filter or order may name directly. */
  const NodeBuiltins: map<string, string> := map[
    "changed" := "n.changed",
    "classname" := "t.classname",
    "created" := "n.created",
    "creator" := "uc.uid",
    "editor" := "ue.uid",
    "deleted" := "n.deleted",
    "id" := "n.uid",
    "locked" := "n.locked",
    "published" := "n.published",
    "type" := "t.name",
    "uid" := "n.uid",
    "kind" := "t.kind"
  ]

  /** The collaborators the builder reaches through its context: the filter
      compiler over `NodeBuiltins` (`QueryCompiler`), the database's string
      quoting, the test "is a class that extends Node", and the JSON accessor
      compiler. */
  datatype Context = Context(
    compileFilter: string -> Result<string>,
    quote: string -> string,
    isNodeClass: string -> bool,
    jsonAccessor: (string, string) -> string)

  /** The parameters `fetchResult` passes to the node query; `order` is
      absent when no order was set. */
  datatype FindParams = FindParams(
    condition: string,
    deleted: Option<bool>,
    published: Option<bool>,
    limit: Option<int>,
    order: Option<string>)

  /** The condition for one type: node classes by class name, anything else by type name. */
  function TypeTest(ctx: Context, t: string): string {
    (if ctx.isNodeClass(t) then "t.classname = " else "t.name = ") + ctx.quote(t)
  }

  /** One condition per type, in order. */
  function TypeTests(ctx: Context, types: seq<string>): (tests: seq<string>)
    ensures |tests| == |types| && forall n :: 0 <= n < |types| ==> tests[n] == TypeTest(ctx, types[n])
  {
    seq(|types|, n requires 0 <= n < |types| => TypeTest(ctx, types[n]))
  }

  const OrOpen := "    (\n        "
  const OrSeparator := "\n        OR "
  const OrClose := "\n    )"

  /** The layout of the type conditions by their number. */
  function TypesLayout(tests: seq<string>): string {
    if |tests| == 0 then ""
    else if |tests| == 1 then "    " + tests[0]
    else OrOpen + Join(OrSeparator, tests) + OrClose
  }

  /** `s` occurs in `t` as a contiguous part. */
  ghost predicate Occurs(s: string, t: string) {
    exists a :: OccursAt(s, t, a)
  }

  /** `s` occurs in `t` starting at index `a`. */
  predicate OccursAt(s: string, t: string, a: int) {
    0 <= a <= |t| - |s| && t[a..a + |s|] == s
  }

  /** `p` is a prefix of `s`. */
  predicate StartsWith(s: string, p: string) {
    |p| <= |s| && s[..|p|] == p
  }

  /** Every part of a join occurs in it. */
  lemma {:induction false} JoinedPartsOccur(sep: string, parts: seq<string>, n: nat)
    requires n < |parts|
    ensures Occurs(parts[n], Join(sep, parts))
  {
    var j := Join(sep, parts);
    if |parts| == 1 {
      assert OccursAt(parts[0], j, 0);
    } else if n == 0 {
      assert j == parts[0] + (sep + Join(sep, parts[1..]));
      assert OccursAt(parts[0], j, 0);
    } else {
      JoinedPartsOccur(sep, parts[1..], n - 1);
      var rest := Join(sep, parts[1..]);
      var a :| OccursAt(parts[n], rest, a);
      var off := |parts[0]| + |sep|;
      assert j == (parts[0] + sep) + rest;
      assert j[off + a..off + a + |parts[n]|] == rest[a..a + |parts[n]|];
      assert OccursAt(parts[n], j, off + a);
    }
  }

  /** A part occurs in any text that has it between a prefix and a suffix. */
  lemma OccursInside(s: string, pre: string, t: string, post: string)
    requires Occurs(s, t)
    ensures Occurs(s, pre + t + post)
  {
    var a :| OccursAt(s, t, a);
    var whole := pre + t + post;
    assert whole[|pre| + a..|pre| + a + |s|] == t[a..a + |s|];
    assert OccursAt(s, whole, |pre| + a);
  }

  /** The type condition tests every type it is given, each by class name
      exactly when the type is a node class; with no types it is empty. */
  lemma {:induction false} TypesLayoutTestsEveryType(ctx: Context, types: seq<string>)
    ensures TypesLayout(TypeTests(ctx, types)) == "" <==> types == []
    ensures forall n :: 0 <= n < |types| ==> Occurs(TypeTest(ctx, types[n]), TypesLayout(TypeTests(ctx, types)))
  {
    var tests := TypeTests(ctx, types);
    var cond := TypesLayout(tests);
    if |types| == 1 {
      assert OccursAt(tests[0], tests[0], 0);
      OccursInside(tests[0], "    ", tests[0], "");
      assert "    " + tests[0] + "" == cond;
    } else if |types| >= 2 {
      forall n | 0 <= n < |types|
        ensures Occurs(TypeTest(ctx, types[n]), cond)
      {
        JoinedPartsOccur(OrSeparator, tests, n);
        OccursInside(tests[n], OrOpen, Join(OrSeparator, tests), OrClose);
      }
    }
  }

  /** A type's condition compares the class name exactly when the type is a
      node class, and the type name otherwise. */
  lemma TypeTestColumn(ctx: Context, t: string)
    ensures StartsWith(TypeTest(ctx, t), "t.classname = ") <==> ctx.isNodeClass(t)
    ensures StartsWith(TypeTest(ctx, t), "t.name = ") <==> !ctx.isNodeClass(t)
  {
    if ctx.isNodeClass(t) {
      assert TypeTest(ctx, t)[2] == 'c';
    } else {
      assert TypeTest(ctx, t)[2] == 'n';
    }
  }

  /** `array_filter` with `!empty(...)`: the truthy parts, in order. */
  function NonEmpty(parts: seq<string>): (r: seq<string>)
    ensures forall p :: p in r <==> p in parts && Truthy(p)
    ensures |r| <= |parts|
    ensures (forall i :: 0 <= i < |parts| ==> Truthy(parts[i])) ==> r == parts
  {
    if parts == [] then []
    else (if Truthy(parts[0]) then [parts[0]] else []) + NonEmpty(parts[1..])
  }

  /** Filtering keeps order: the filter of two runs of parts is the filter
      of the first followed by the filter of the second. */
  lemma {:induction false} NonEmptyKeepsOrder(a: seq<string>, b: seq<string>)
    ensures NonEmpty(a + b) == NonEmpty(a) + NonEmpty(b)
  {
    if a == [] {
      assert a + b == b;
    } else {
      assert (a + b)[0] == a[0];
      assert (a + b)[1..] == a[1..] + b;
      NonEmptyKeepsOrder(a[1..], b);
    }
  }

  /** `types` and `type` both replace the type condition; `type(t)` sets
      what `types(t)` sets. */
  lemma SingleType(ctx: Context, t: string)
    ensures TypesLayout(TypeTests(ctx, [t])) == "    " + TypeTest(ctx, t)
  {
  }

  /** Calling `order` without arguments fails as an empty order by clause. */
  lemma OrderWithoutArguments(accessor: (string, string) -> string)
    ensures OrderCompiler.Compiled(NodeBuiltins, accessor, Join(",", [])).Err?
    ensures OrderCompiler.Compiled(NodeBuiltins, accessor, Join(",", [])).error == ParserError(EmptyOrderBy)
  {
    assert Trim("") == "";
  }

  /** `order` arguments without commas become one clause each, in order. */
  lemma OrderArgumentsAreClauses(orders: seq<string>)
    requires |orders| >= 1 && forall n :: 0 <= n < |orders| ==> ',' !in orders[n]
    ensures Split(Join(",", orders), ',') == orders
  {
    SplitJoin(orders, ',');
  }

  class Nodes {
    const ctx: Context
    var whereFields: string
    var whereTypes: string
    var order: string
    var limit: Option<int>
    var deleted: Option<bool>
    var published: Option<bool>

    /** The order is either unset or an ORDER BY fragment. */
    predicate Valid()
      reads this
    {
      order == "" || (|order| >= |OrderCompiler.Header| && order[..|OrderCompiler.Header|] == OrderCompiler.Header)
    }

    /** A fresh builder: no filter, no types, no order, no limit, only
        published and not deleted nodes. */
    constructor (ctx: Context)
      ensures Valid()
      ensures this.ctx == ctx
      ensures whereFields == "" && whereTypes == "" && order == ""
      ensures limit == None && deleted == Some(false) && published == Some(true)
    {
      this.ctx := ctx;
      whereFields := "";
      whereTypes := "";
      order := "";
      limit := None;
      deleted := Some(false);
      published := Some(true);
    }

    /** `filter`: the compiled query becomes the field condition; a parser
        error leaves the builder as it was. */
    method Filter(query: string) returns (o: Outcome)
      requires Valid()
      modifies this
      ensures Valid()
      ensures ctx.compileFilter(query).Ok? ==>
        o == Pass && whereFields == ctx.compileFilter(query).value
      ensures ctx.compileFilter(query).Err? ==>
        o == Fail(ctx.compileFilter(query).error) && whereFields == old(whereFields)
      ensures whereTypes == old(whereTypes) && order == old(order) && limit == old(limit)
      ensures deleted == old(deleted) && published == old(published)
    {
      var r := ctx.compileFilter(query);
      if r.Err? {
        return Fail(r.error);
      }
      whereFields := r.value;
      return Pass;
    }

    /** `typesCondition`: one condition per type, laid out by their number. */
    method TypesCondition(types: seq<string>) returns (cond: string)
      ensures cond == TypesLayout(TypeTests(ctx, types))
    {
      var result: seq<string> := [];
      var n := 0;
      while n < |types|
        invariant 0 <= n <= |types|
        invariant result == TypeTests(ctx, types)[..n]
      {
        if ctx.isNodeClass(types[n]) {
          result := result + ["t.classname = " + ctx.quote(types[n])];
        } else {
          result := result + ["t.name = " + ctx.quote(types[n])];
        }
        n := n + 1;
      }
      assert result == TypeTests(ctx, types);
      if |result| == 0 {
        cond := "";
      } else if |result| == 1 {
        cond := "    " + result[0];
      } else {
        cond := OrOpen + Join(OrSeparator, result) + OrClose;
      }
    }

    /** `types`: replaces the type condition. */
    method Types(types: seq<string>)
      requires Valid()
      modifies this
      ensures Valid()
      ensures whereTypes == TypesLayout(TypeTests(ctx, types))
      ensures whereFields == old(whereFields) && order == old(order) && limit == old(limit)
      ensures deleted == old(deleted) && published == old(published)
    {
      whereTypes := TypesCondition(types);
    }

    /** `type`: replaces the type condition with the one for a single type. */
    method Type(t: string)
      requires Valid()
      modifies this
      ensures Valid()
      ensures whereTypes == TypesLayout(TypeTests(ctx, [t]))
      ensures whereFields == old(whereFields) && order == old(order) && limit == old(limit)
      ensures deleted == old(deleted) && published == old(published)
    {
      whereTypes := TypesCondition([t]);
    }

    /** `order`: the arguments joined with ',' and compiled; a parser error
        leaves the builder as it was. */
    method Order(orders: seq<string>) returns (o: Outcome)
      requires Valid()
      modifies this
      ensures Valid()
      ensures var r := OrderCompiler.Compiled(NodeBuiltins, ctx.jsonAccessor, Join(",", orders));
        && (r.Ok? ==> o == Pass && order == r.value)
        && (r.Err? ==> o == Fail(r.error) && order == old(order))
      ensures whereFields == old(whereFields) && whereTypes == old(whereTypes) && limit == old(limit)
      ensures deleted == old(deleted) && published == old(published)
    {
      var compiler := new OrderCompiler.Compiler(NodeBuiltins, ctx.jsonAccessor);
      var statement := Join(",", orders);
      var r := compiler.Compile(statement);
      OrderCompiler.CompiledIsOrderBy(NodeBuiltins, ctx.jsonAccessor, statement);
      if r.Err? {
        return Fail(r.error);
      }
      order := r.value;
      return Pass;
    }

    method Limit(n: int)
      requires Valid()
      modifies this
      ensures Valid()
      ensures limit == Some(n)
      ensures whereFields == old(whereFields) && whereTypes == old(whereTypes) && order == old(order)
      ensures deleted == old(deleted) && published == old(published)
    {
      limit := Some(n);
    }

    /** `published(null)` drops the published restriction. */
    method Published(p: Option<bool>)
      requires Valid()
      modifies this
      ensures Valid()
      ensures published == p
      ensures whereFields == old(whereFields) && whereTypes == old(whereTypes) && order == old(order)
      ensures limit == old(limit) && deleted == old(deleted)
    {
      published := p;
    }

    /** `deleted(null)` drops the deleted restriction. */
    method Deleted(d: Option<bool>)
      requires Valid()
      modifies this
      ensures Valid()
      ensures deleted == d
      ensures whereFields == old(whereFields) && whereTypes == old(whereTypes) && order == old(order)
      ensures limit == old(limit) && published == old(published)
    {
      deleted := d;
    }

    /** The parameters `fetchResult` builds: the trimmed field and type
        conditions that are not empty, joined with " AND ", the flags, the
        limit, and the order only when one is set. */
    function Params(): (p: FindParams)
      reads this
      ensures p.deleted == deleted && p.published == published && p.limit == limit
      ensures p.order.Some? <==> Truthy(order)
      ensures p.order.Some? ==> p.order.value == order
      ensures Truthy(Trim(whereFields)) && Truthy(Trim(whereTypes)) ==>
        p.condition == Trim(whereFields) + " AND " + Trim(whereTypes)
      ensures Truthy(Trim(whereFields)) && !Truthy(Trim(whereTypes)) ==> p.condition == Trim(whereFields)
      ensures !Truthy(Trim(whereFields)) && Truthy(Trim(whereTypes)) ==> p.condition == Trim(whereTypes)
      ensures !Truthy(Trim(whereFields)) && !Truthy(Trim(whereTypes)) ==> p.condition == ""
    {
      ConditionParts(whereFields, whereTypes);
      FindParams(Join(" AND ", NonEmpty([Trim(whereFields), Trim(whereTypes)])),
                 deleted, published, limit,
                 if Truthy(order) then Some(order) else None)
    }
  }

  /** The condition of the node query by which parts are set: both joined
      with " AND ", one alone, or nothing. */
  lemma {:induction false} ConditionParts(fields: string, types: string)
    ensures var c := Join(" AND ", NonEmpty([Trim(fields), Trim(types)]));
      && (Truthy(Trim(fields)) && Truthy(Trim(types)) ==> c == Trim(fields) + " AND " + Trim(types))
      && (Truthy(Trim(fields)) && !Truthy(Trim(types)) ==> c == Trim(fields))
      && (!Truthy(Trim(fields)) && Truthy(Trim(types)) ==> c == Trim(types))
      && (!Truthy(Trim(fields)) && !Truthy(Trim(types)) ==> c == "")
  {
    var parts := [Trim(fields), Trim(types)];
    assert parts[1..] == [Trim(types)];
    assert parts[1..][1..] == [];
  }

  /** A set order always starts the ORDER BY fragment. */
  lemma OrderParamIsOrderBy(b: Nodes)
    requires b.Valid()
    ensures b.Params().order.Some? ==>
      b.Params().order.value[..|OrderCompiler.Header|] == OrderCompiler.Header
  {
  }
}
