/** The compiler of the finder's order-by statements (`Finder\OrderCompiler`):
    a statement such as "title, changed desc" becomes the SQL fragment
    "\nORDER BY\n    <expr> ASC,\n    n.changed DESC". */
module OrderCompiler {
  import opened Errors
  import opened Strings

  /** One parsed clause: the field name as written and "ASC" or "DESC". */
  datatype Clause = Clause(field: string, direction: string)

  /** The characters of `[a-zA-Z0-9._]`. */
  predicate IsNameChar(c: char) {
    IsAsciiLetter(c) || IsDigit(c) || c == '.' || c == '_'
  }

  /** A field name: `[a-zA-Z][a-zA-Z0-9._]*`. */
  predicate IsName(w: string) {
    w != [] && IsAsciiLetter(w[0]) && forall m :: 0 < m < |w| ==> IsNameChar(w[m])
  }

  /** "asc" in any letter case. */
  predicate IsAsc(d: string) {
    |d| == 3 && LowerChar(d[0]) == 'a' && LowerChar(d[1]) == 's' && LowerChar(d[2]) == 'c'
  }

  /** "desc" in any letter case. */
  predicate IsDesc(d: string) {
    |d| == 4 && LowerChar(d[0]) == 'd' && LowerChar(d[1]) == 'e' && LowerChar(d[2]) == 's'
    && LowerChar(d[3]) == 'c'
  }

  /** `asc|desc` under the pattern's case-insensitive flag. */
  predicate IsDirectionWord(d: string) {
    IsAsc(d) || IsDesc(d)
  }

  /** `strtoupper($matches[2] ?? null ?: 'ASC')`: an absent direction is "ASC". */
  function DirectionOf(d: string): string {
    if d == "" then "ASC" else ToUpper(d)
  }

  /** The pattern `/^\s*([a-zA-Z][a-zA-Z0-9._]*)\s*(asc|desc)?\s*$/i` matches
      all of `s` with the name at [i, j) and the direction word (possibly
      empty) at [k, l). */
  predicate MatchesAt(s: string, i: int, j: int, k: int, l: int) {
    && 0 <= i < j <= k <= l <= |s|
    && AllRegexSpace(s[..i])
    && IsName(s[i..j])
    && AllRegexSpace(s[j..k])
    && (k == l || IsDirectionWord(s[k..l]))
    && AllRegexSpace(s[l..])
  }

  /** The first index at or after `i` that does not hold a `\s` character. */
  function SkipSpaces(s: string, i: nat): (r: nat)
    requires i <= |s|
    ensures i <= r <= |s| && AllRegexSpace(s[i..r])
    ensures r == |s| || !IsRegexSpace(s[r])
    decreases |s| - i
  {
    if i < |s| && IsRegexSpace(s[i]) then SkipSpaces(s, i + 1) else i
  }

  /** The first index at or after `i` that does not hold a name character. */
  function NameEnd(s: string, i: nat): (r: nat)
    requires i <= |s|
    ensures i <= r <= |s| && forall m :: i <= m < r ==> IsNameChar(s[m])
    ensures r == |s| || !IsNameChar(s[r])
    decreases |s| - i
  {
    if i < |s| && IsNameChar(s[i]) then NameEnd(s, i + 1) else i
  }

  /** What the remainder after the name and its spaces says about the
      direction: nothing more ("ASC"), a direction word followed by spaces,
      or something the pattern rejects. */
  function DirectionAt(rest: string): Option<string> {
    if AllRegexSpace(rest) then Some("ASC")
    else if |rest| >= 3 && IsAsc(rest[..3]) && AllRegexSpace(rest[3..]) then Some("ASC")
    else if |rest| >= 4 && IsDesc(rest[..4]) && AllRegexSpace(rest[4..]) then Some("DESC")
    else None
  }

  /** `preg_match` of the order pattern against one clause, as PCRE's
      backtracking finds it: the greedy name, then the optional direction. */
  function MatchClause(s: string): Option<Clause> {
    var i := SkipSpaces(s, 0);
    if i < |s| && IsAsciiLetter(s[i]) then
      var j := NameEnd(s, i + 1);
      var k := SkipSpaces(s, j);
      match DirectionAt(s[k..])
      case Some(d) => Some(Clause(s[i..j], d))
      case None => None
    else None
  }

  /** Two runs of `\s` characters that both stop at a non-space start together. */
  lemma SkipSpacesUnique(s: string, i: nat, x: nat)
    requires i <= x <= |s| && AllRegexSpace(s[i..x])
    requires x == |s| || !IsRegexSpace(s[x])
    ensures SkipSpaces(s, i) == x
    decreases |s| - i
  {
    if i < x {
      assert s[i..x][0] == s[i];
      assert s[i + 1..x] == s[i..x][1..];
      SkipSpacesUnique(s, i + 1, x);
    }
  }

  /** Two runs of name characters that both stop at a non-name character end together. */
  lemma NameEndUnique(s: string, i: nat, x: nat)
    requires i <= x <= |s| && forall m :: i <= m < x ==> IsNameChar(s[m])
    requires x == |s| || !IsNameChar(s[x])
    ensures NameEnd(s, i) == x
    decreases |s| - i
  {
    if i < x {
      NameEndUnique(s, i + 1, x);
    }
  }

  /** A direction word is three or four letters. */
  lemma DirectionWordLetters(d: string)
    requires IsDirectionWord(d)
    ensures |d| == 3 || |d| == 4
    ensures forall m :: 0 <= m < |d| ==> IsAsciiLetter(d[m])
  {
  }

  /** `strtoupper` of a direction word. */
  lemma UpperOfDirection(d: string)
    requires IsDirectionWord(d)
    ensures ToUpper(d) == if IsAsc(d) then "ASC" else "DESC"
  {
    if IsAsc(d) {
      assert ToUpper(d) == [UpperChar(d[0]), UpperChar(d[1]), UpperChar(d[2])];
    } else {
      assert ToUpper(d) == [UpperChar(d[0]), UpperChar(d[1]), UpperChar(d[2]), UpperChar(d[3])];
    }
  }

  /** The match found by `MatchClause` is a match of the pattern, its name
      is the longest one (the pattern's star is greedy), and its direction
      is the upper-cased direction word or "ASC" when there is none. */
  lemma {:induction false} MatchClauseSound(s: string)
    requires MatchClause(s).Some?
    ensures exists i, j, k, l ::
      && MatchesAt(s, i, j, k, l)
      && (j == |s| || !IsNameChar(s[j]))
      && MatchClause(s).value == Clause(s[i..j], DirectionOf(s[k..l]))
  {
    var i := SkipSpaces(s, 0);
    var j := NameEnd(s, i + 1);
    var k := SkipSpaces(s, j);
    var rest := s[k..];
    assert s[i..j][0] == s[i];
    assert forall m :: 0 < m < j - i ==> s[i..j][m] == s[i + m];
    assert IsName(s[i..j]);
    assert s[..i] == s[0..i];
    if AllRegexSpace(rest) {
      assert MatchesAt(s, i, j, k, k);
      assert DirectionOf(s[k..k]) == "ASC";
    } else if |rest| >= 3 && IsAsc(rest[..3]) && AllRegexSpace(rest[3..]) {
      assert rest[..3] == s[k..k + 3] && rest[3..] == s[k + 3..];
      UpperOfDirection(s[k..k + 3]);
      assert MatchesAt(s, i, j, k, k + 3);
    } else {
      assert |rest| >= 4 && IsDesc(rest[..4]) && AllRegexSpace(rest[4..]);
      assert rest[..4] == s[k..k + 4] && rest[4..] == s[k + 4..];
      UpperOfDirection(s[k..k + 4]);
      assert MatchesAt(s, i, j, k, k + 4);
    }
  }

  /** A match of the pattern, stated on the characters of `s`. */
  lemma MatchCharacters(s: string, i: int, j: int, k: int, l: int)
    requires MatchesAt(s, i, j, k, l)
    ensures forall m :: 0 <= m < i ==> IsRegexSpace(s[m])
    ensures IsAsciiLetter(s[i]) && forall m :: i + 1 <= m < j ==> IsNameChar(s[m])
    ensures forall m :: j <= m < k ==> IsRegexSpace(s[m])
    ensures forall m :: k <= m < l ==> IsAsciiLetter(s[m])
    ensures forall m :: l <= m < |s| ==> IsRegexSpace(s[m])
  {
    assert forall m :: 0 <= m < i ==> s[..i][m] == s[m];
    assert forall m :: 0 <= m < j - i ==> s[i..j][m] == s[i + m];
    assert forall m :: j <= m < k ==> s[j..k][m - j] == s[m];
    assert forall m :: l <= m < |s| ==> s[l..][m - l] == s[m];
    if k < l {
      DirectionWordLetters(s[k..l]);
      assert forall m :: 0 <= m < l - k ==> s[k..l][m] == s[k + m];
    }
  }

  /** `MatchClause` succeeds once its three scans leave a remainder that
      `DirectionAt` accepts. */
  lemma MatchClauseAt(s: string, i: nat, j: nat, k: nat)
    requires i == SkipSpaces(s, 0) && i < |s| && IsAsciiLetter(s[i])
    requires j == NameEnd(s, i + 1) && k == SkipSpaces(s, j)
    requires DirectionAt(s[k..]).Some?
    ensures MatchClause(s).Some?
  {
  }

  /** Completeness when the longest name ends where the pattern's name ends. */
  lemma CompleteAtNameEnd(s: string, i: int, j: int, k: int, l: int)
    requires MatchesAt(s, i, j, k, l) && SkipSpaces(s, 0) == i && NameEnd(s, i + 1) == j
    requires forall m :: j <= m < k ==> IsRegexSpace(s[m])
    requires forall m :: k <= m < l ==> IsAsciiLetter(s[m])
    requires forall m :: l <= m < |s| ==> IsRegexSpace(s[m])
    ensures MatchClause(s).Some?
  {
    var k0 := SkipSpaces(s, j);
    if k < l {
      SkipSpacesUnique(s, j, k);
      var rest := s[k..];
      assert rest[..l - k] == s[k..l] && rest[l - k..] == s[l..];
      assert DirectionAt(rest).Some?;
    } else {
      assert AllRegexSpace(s[k0..]);
    }
    MatchClauseAt(s, i, j, k0);
  }

  /** Completeness when the longest name runs on through the direction word
      (as in "nameasc"): the greedy match then has no direction word. */
  lemma CompleteRunOn(s: string, i: int, j: int, k: int, l: int)
    requires MatchesAt(s, i, j, k, l) && SkipSpaces(s, 0) == i && NameEnd(s, i + 1) > j
    requires IsAsciiLetter(s[i]) && forall m :: i + 1 <= m < j ==> IsNameChar(s[m])
    requires forall m :: j <= m < k ==> IsRegexSpace(s[m])
    requires forall m :: k <= m < l ==> IsAsciiLetter(s[m])
    requires forall m :: l <= m < |s| ==> IsRegexSpace(s[m])
    ensures MatchClause(s).Some?
  {
    assert IsNameChar(s[j]) && !IsRegexSpace(s[j]);
    assert k == j;
    assert l == |s| || !IsNameChar(s[l]);
    NameEndUnique(s, i + 1, l);
    var k0 := SkipSpaces(s, l);
    assert AllRegexSpace(s[k0..]);
    MatchClauseAt(s, i, l, k0);
  }

  /** Whenever the pattern matches at all, `MatchClause` finds a match. */
  lemma {:induction false} MatchClauseComplete(s: string, i: int, j: int, k: int, l: int)
    requires MatchesAt(s, i, j, k, l)
    ensures MatchClause(s).Some?
  {
    MatchCharacters(s, i, j, k, l);
    assert AllRegexSpace(s[0..i]);
    SkipSpacesUnique(s, 0, i);
    if NameEnd(s, i + 1) == j {
      CompleteAtNameEnd(s, i, j, k, l);
    } else {
      CompleteRunOn(s, i, j, k, l);
    }
  }

  /** The pattern matches exactly when `MatchClause` finds a match. */
  lemma MatchClauseCorrect(s: string)
    ensures MatchClause(s).Some? <==> exists i, j, k, l :: MatchesAt(s, i, j, k, l)
  {
    if MatchClause(s).Some? {
      MatchClauseSound(s);
    } else if exists i, j, k, l :: MatchesAt(s, i, j, k, l) {
      var i, j, k, l :| MatchesAt(s, i, j, k, l);
      MatchClauseComplete(s, i, j, k, l);
    }
  }

  /** The match of each trimmed piece of an exploded statement. */
  function Matches(fields: seq<string>): (ms: seq<Option<Clause>>)
    ensures |ms| == |fields| && forall n {:trigger ms[n]} :: 0 <= n < |fields| ==> ms[n] == MatchClause(Trim(fields[n]))
  {
    seq(|fields|, n requires 0 <= n < |fields| => MatchClause(Trim(fields[n])))
  }

  /** The parse of a statement from the matches of its pieces: the clauses
      in order, or "Invalid query" when one piece does not match. */
  function Collect(ms: seq<Option<Clause>>): (r: Result<seq<Clause>>)
    ensures r.Ok? <==> forall n :: 0 <= n < |ms| ==> ms[n].Some?
    ensures r.Ok? ==> |r.value| == |ms| && forall n {:trigger ms[n]} :: 0 <= n < |ms| ==> ms[n] == Some(r.value[n])
    ensures r.Err? ==> r.error == ParserError(InvalidQuery)
  {
    if ms == [] then Ok([])
    else
      var init := Collect(ms[..|ms| - 1]);
      if init.Err? then init
      else if ms[|ms| - 1].None? then Err(ParserError(InvalidQuery))
      else Ok(init.value + [ms[|ms| - 1].value])
  }

  /** What `parse` returns for a statement. */
  function ParseResult(statement: string): Result<seq<Clause>> {
    Collect(Matches(Split(statement, ',')))
  }

  /** The pattern matches the trimmed piece `f` of a statement. */
  ghost predicate PieceMatches(f: string) {
    exists i, j, k, l :: MatchesAt(Trim(f), i, j, k, l)
  }

  /** The pattern matches every trimmed piece. */
  ghost predicate AllPiecesMatch(fields: seq<string>) {
    forall n :: 0 <= n < |fields| ==> PieceMatches(fields[n])
  }

  /** A piece's match is found exactly when the pattern matches the trimmed piece. */
  lemma MatchesMeaning(fields: seq<string>, ms: seq<Option<Clause>>)
    requires ms == Matches(fields)
    ensures forall n :: 0 <= n < |fields| ==> (ms[n].Some? <==> PieceMatches(fields[n]))
  {
    forall n | 0 <= n < |fields|
      ensures ms[n].Some? <==> PieceMatches(fields[n])
    {
      MatchClauseCorrect(Trim(fields[n]));
    }
  }

  /** Collecting the matches succeeds exactly when every piece matches. */
  lemma CollectMeaning(fields: seq<string>, ms: seq<Option<Clause>>, r: Result<seq<Clause>>)
    requires |ms| == |fields| && r == Collect(ms)
    requires forall n :: 0 <= n < |fields| ==> (ms[n].Some? <==> PieceMatches(fields[n]))
    ensures r.Ok? <==> AllPiecesMatch(fields)
    ensures r.Ok? ==> |r.value| == |fields|
    ensures r.Err? ==> r.error == ParserError(InvalidQuery)
  {
  }

  /** `parse` accepts a statement exactly when the pattern matches every
      trimmed piece; it then yields one clause per piece (so never none),
      and otherwise fails with "Invalid query". */
  lemma {:induction false} ParseResultMeaning(statement: string)
    ensures ParseResult(statement).Ok? <==> AllPiecesMatch(Split(statement, ','))
    ensures ParseResult(statement).Ok? ==> |ParseResult(statement).value| == |Split(statement, ',')| >= 1
    ensures ParseResult(statement).Err? ==> ParseResult(statement).error == ParserError(InvalidQuery)
  {
    var fields := Split(statement, ',');
    var ms := Matches(fields);
    MatchesMeaning(fields, ms);
    CollectMeaning(fields, ms, ParseResult(statement));
  }

  /** A piece with nothing but blanks (as in "title,", ",title" or "a,,b")
      makes the statement invalid. */
  lemma EmptyClauseRejected(statement: string, n: int)
    requires 0 <= n < |Split(statement, ',')| && Trim(Split(statement, ',')[n]) == ""
    ensures ParseResult(statement) == Err(ParserError(InvalidQuery))
  {
    assert Matches(Split(statement, ','))[n].None?;
  }

  /** The SQL expression a field orders by: a truthy builtin column, else the
      JSON accessor of the field in the node's content. */
  function Expression(field: string, builtins: map<string, string>,
                      accessor: (string, string) -> string): string
  {
    if field in builtins && Truthy(builtins[field]) then builtins[field]
    else accessor(field, "p.content")
  }

  const Header := "\nORDER BY\n    "
  const Separator := ",\n    "

  /** One entry of the ORDER BY list. */
  function Entry(builtins: map<string, string>, accessor: (string, string) -> string, c: Clause): string {
    Expression(c.field, builtins, accessor) + " " + c.direction
  }

  /** The ORDER BY list of some clauses, one entry each, in order. */
  function Entries(builtins: map<string, string>, accessor: (string, string) -> string,
                   clauses: seq<Clause>): (es: seq<string>)
    ensures |es| == |clauses|
    ensures forall n :: 0 <= n < |clauses| ==> es[n] == Entry(builtins, accessor, clauses[n])
  {
    seq(|clauses|, n requires 0 <= n < |clauses| => Entry(builtins, accessor, clauses[n]))
  }

  /** What `compile` returns for a statement. */
  function Compiled(builtins: map<string, string>, accessor: (string, string) -> string,
                    statement: string): Result<string>
  {
    if !Truthy(Trim(statement)) then Err(ParserError(EmptyOrderBy))
    else match ParseResult(statement)
      case Err(e) => Err(e)
      case Ok(clauses) => Ok(Header + Join(Separator, Entries(builtins, accessor, clauses)))
  }

  /** An order-by compiler over a fixed table of builtin columns. The JSON
      accessor (`CompilesJsonAccessor`) is a collaborator given as a function. */
  class Compiler {
    const builtins: map<string, string>
    const accessor: (string, string) -> string

    constructor (builtins: map<string, string> := map[], accessor: (string, string) -> string)
      ensures this.builtins == builtins && this.accessor == accessor
    {
      this.builtins := builtins;
      this.accessor := accessor;
    }

    /** `parse`: explode the statement on ',' and match each trimmed piece. */
    method Parse(statement: string) returns (r: Result<seq<Clause>>)
      ensures r == ParseResult(statement)
    {
      var fields := Split(statement, ',');
      var result: seq<Clause> := [];
      var n := 0;
      while n < |fields|
        invariant 0 <= n <= |fields|
        invariant Collect(Matches(fields)[..n]) == Ok(result)
      {
        assert Matches(fields)[..n + 1][..n] == Matches(fields)[..n];
        var m := MatchClause(Trim(fields[n]));
        assert Matches(fields)[n] == m;
        if m.None? {
          return Err(ParserError(InvalidQuery));
        }
        result := result + [m.value];
        n := n + 1;
      }
      assert Matches(fields)[..n] == Matches(fields);
      return Ok(result);
    }

    /** The loop of `compile` over the parsed clauses: the expression of
        each clause followed by its direction. */
    method Expressions(clauses: seq<Clause>) returns (expressions: seq<string>)
      ensures expressions == Entries(builtins, accessor, clauses)
    {
      expressions := [];
      var n := 0;
      while n < |clauses|
        invariant 0 <= n <= |clauses|
        invariant expressions == Entries(builtins, accessor, clauses)[..n]
      {
        expressions := expressions + [Entry(builtins, accessor, clauses[n])];
        n := n + 1;
      }
    }

    /** `compile`. */
    method Compile(statement: string) returns (r: Result<string>)
      ensures r == Compiled(builtins, accessor, statement)
    {
      if !Truthy(Trim(statement)) {
        return Err(ParserError(EmptyOrderBy));
      }
      var parsed := Parse(statement);
      if parsed.Err? {
        return Err(parsed.error);
      }
      // `count($parsed) === 0` cannot hold: explode yields at least one piece.
      assert |parsed.value| >= 1;
      var expressions := Expressions(parsed.value);
      return Ok(Header + Join(Separator, expressions));
    }
  }

  /** `compile` fails with "Empty order by clause" on a blank statement (or
      "0", which PHP's `empty` also takes for empty), then with "Invalid
      query" unless the pattern matches every trimmed piece. */
  lemma {:induction false} CompiledErrors(builtins: map<string, string>, accessor: (string, string) -> string, statement: string)
    ensures !Truthy(Trim(statement)) ==> Compiled(builtins, accessor, statement) == Err(ParserError(EmptyOrderBy))
    ensures Truthy(Trim(statement)) ==>
      (Compiled(builtins, accessor, statement).Ok? <==> AllPiecesMatch(Split(statement, ',')))
    ensures Truthy(Trim(statement)) && Compiled(builtins, accessor, statement).Err? ==>
      Compiled(builtins, accessor, statement) == Err(ParserError(InvalidQuery))
  {
    ParseResultMeaning(statement);
  }

  /** A compiled statement is never empty: it is the ORDER BY header followed
      by one entry per piece, in order, each the expression of the piece's
      greedy name and its direction. */
  lemma {:induction false} CompiledEntries(builtins: map<string, string>, accessor: (string, string) -> string, statement: string)
    requires Compiled(builtins, accessor, statement).Ok?
    ensures var fields := Split(statement, ',');
      var clauses := ParseResult(statement).value;
      && |clauses| == |fields| >= 1
      && (forall n :: 0 <= n < |fields| ==> MatchClause(Trim(fields[n])) == Some(clauses[n]))
      && Compiled(builtins, accessor, statement).value == Header + Join(Separator, Entries(builtins, accessor, clauses))
      && Compiled(builtins, accessor, statement).value[..|Header|] == Header
  {
    var fields := Split(statement, ',');
    var ms := Matches(fields);
    assert ParseResult(statement) == Collect(ms);
    assert forall n :: 0 <= n < |fields| ==> MatchClause(Trim(fields[n])) == ms[n];
  }

  /** A compiled order is an ORDER BY fragment. */
  lemma CompiledIsOrderBy(builtins: map<string, string>, accessor: (string, string) -> string, statement: string)
    ensures var r := Compiled(builtins, accessor, statement);
      r.Ok? ==> |r.value| >= |Header| && r.value[..|Header|] == Header
  {
    if Compiled(builtins, accessor, statement).Ok? {
      CompiledEntries(builtins, accessor, statement);
    }
  }
}
