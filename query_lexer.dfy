/** The query lexer of the node finder: it turns filter text such as
    `published = true & (title ~~ "%launch%" | tags ~ "news")` into a
    sequence of typed tokens, or fails with one of four parser messages.

    The scanner for one token is the function `ScanAt`; `Lex` runs it from
    the start of the text to the end; the method `Tokens` is the lexer's
    position loop, proved equal to `Lex`. */
module QueryLexer {
  import opened Errors
  import opened Strings

  /** The closed set of fine-grained token types. */
  datatype TokenType =
    | LeftParen | RightParen
    | Field | Builtin | Path | String | Number | Boolean | Null | Keyword
    | Equal | Unequal | Less | Greater | LessEqual | GreaterEqual
    | Like | Unlike | ILike | IUnlike
    | And | Or

  /** The coarse classification of the token types. */
  datatype TokenGroup = LeftParenGroup | RightParenGroup | Operand | Operator | BooleanOperator

  /** A token: its type, its lexeme (for strings the unescaped content),
      its group and the offset of its first character in the input. */
  datatype Token = Token(kind: TokenType, lexeme: string, group: TokenGroup, position: nat)

  /** The group of a token type: determined by the type alone. */
  function GroupOf(t: TokenType): TokenGroup {
    match t
    case LeftParen => LeftParenGroup
    case RightParen => RightParenGroup
    case Field | Builtin | Path | String | Number | Boolean | Null | Keyword => Operand
    case Equal | Unequal | Less | Greater | LessEqual | GreaterEqual
      | Like | Unlike | ILike | IUnlike => Operator
    case And | Or => BooleanOperator
  }

  function MakeToken(kind: TokenType, lexeme: string, position: nat): Token {
    Token(kind, lexeme, GroupOf(kind), position)
  }

  predicate WellGrouped(tokens: seq<Token>) {
    forall k :: 0 <= k < |tokens| ==> tokens[k].group == GroupOf(tokens[k].kind)
  }

  /** Characters skipped between tokens. */
  predicate IsBlank(c: char) {
    c == ' ' || c == '\t' || c == '\n' || c == '\r'
  }

  /** Characters that may continue an identifier (dotted paths, locale codes). */
  predicate IsIdentChar(c: char) {
    IsAsciiLetter(c) || IsDigit(c) || c == '.' || c == '-'
  }

  predicate IsQuote(c: char) {
    c == '"' || c == '\''
  }

  /** Identifier classification, in priority order. */
  function Classify(word: string, builtins: seq<string>): TokenType {
    if word == "true" || word == "false" then Boolean
    else if word == "null" then Null
    else if word == "now" then Keyword
    else if word in builtins then Builtin
    else if word == "path" || (|word| >= 5 && word[..5] == "path.") then Path
    else Field
  }

  /** The end of the run of identifier characters starting at `j`. */
  function IdentEnd(text: string, j: nat): (k: nat)
    requires j <= |text|
    ensures j <= k <= |text|
    ensures forall m :: j <= m < k ==> IsIdentChar(text[m])
    ensures k < |text| ==> !IsIdentChar(text[k])
    decreases |text| - j
  {
    if j < |text| && IsIdentChar(text[j]) then IdentEnd(text, j + 1) else j
  }

  /** The end of the run of digits starting at `j`. */
  function DigitsEnd(text: string, j: nat): (k: nat)
    requires j <= |text|
    ensures j <= k <= |text|
    ensures forall m :: j <= m < k ==> IsDigit(text[m])
    ensures k < |text| ==> !IsDigit(text[k])
    decreases |text| - j
  {
    if j < |text| && IsDigit(text[j]) then DigitsEnd(text, j + 1) else j
  }

  /** The index of the quote `q` that closes a string whose content starts
      at `j`, skipping every backslash-escaped `q`; `Unclosed` if the text ends first. */
  function StringEnd(text: string, j: nat, q: char): (k: Closing)
    requires j <= |text|
    ensures k.ClosedAt? ==> j <= k.index < |text| && text[k.index] == q
    decreases |text| - j
  {
    if j >= |text| then Unclosed
    else if text[j] == q then ClosedAt(j)
    else if text[j] == '\\' && j + 1 < |text| && text[j + 1] == q then StringEnd(text, j + 2, q)
    else StringEnd(text, j + 1, q)
  }

  datatype Closing = Unclosed | ClosedAt(index: nat)

  /** The content of a string literal with every backslash-escaped `q` replaced by `q`. */
  function Unescape(s: string, q: char): string {
    if |s| >= 2 && s[0] == '\\' && s[1] == q then [q] + Unescape(s[2..], q)
    else if |s| == 0 then []
    else [s[0]] + Unescape(s[1..], q)
  }

  /** What one step of the scanner does at a position. */
  datatype Scan = Skip(next: nat) | Emit(token: Token, next: nat) | Reject(error: ParserMessage)

  /** The token an operator character starts, looking one or two characters ahead. */
  function ScanOperator(text: string, i: nat): (s: Scan)
    requires i < |text|
    ensures s.Emit? ==> (i < s.next <= |text| && s.token.position == i
      && s.token.group == GroupOf(s.token.kind) && s.token.lexeme == text[i..s.next])
  {
    var c := text[i];
    var next := if i + 1 < |text| then text[i + 1] else '\0';
    if c == '(' then Emit(MakeToken(LeftParen, "(", i), i + 1)
    else if c == ')' then Emit(MakeToken(RightParen, ")", i), i + 1)
    else if c == '&' then Emit(MakeToken(And, "&", i), i + 1)
    else if c == '|' then Emit(MakeToken(Or, "|", i), i + 1)
    else if c == '=' then Emit(MakeToken(Equal, "=", i), i + 1)
    else if c == '<' then
      if next == '=' then Emit(MakeToken(LessEqual, "<=", i), i + 2)
      else Emit(MakeToken(Less, "<", i), i + 1)
    else if c == '>' then
      if next == '=' then Emit(MakeToken(GreaterEqual, ">=", i), i + 2)
      else Emit(MakeToken(Greater, ">", i), i + 1)
    else if c == '~' then
      if next == '~' then Emit(MakeToken(Like, "~~", i), i + 2)
      else Emit(MakeToken(ILike, "~", i), i + 1)
    else if c == '!' then
      if next == '=' then Emit(MakeToken(Unequal, "!=", i), i + 2)
      else if next == '~' then
        if i + 2 < |text| && text[i + 2] == '~' then Emit(MakeToken(Unlike, "!~~", i), i + 3)
        else Emit(MakeToken(IUnlike, "!~", i), i + 2)
      else Reject(InvalidOperator)
    else Reject(SyntaxError)
  }

  /** A string literal opened by the quote at `i`. */
  function ScanString(text: string, i: nat): (s: Scan)
    requires i < |text| && IsQuote(text[i])
    ensures s.Emit? ==> (i < s.next <= |text| && s.token.position == i
      && s.token.group == GroupOf(s.token.kind) && s.token.kind == String)
  {
    var q := text[i];
    match StringEnd(text, i + 1, q)
    case Unclosed => Reject(UnterminatedString)
    case ClosedAt(k) => Emit(MakeToken(String, Unescape(text[i + 1..k], q), i), k + 1)
  }

  /** A number starting at `i` with a digit or a minus sign: an optional `-`,
      digits, and optionally `.` followed by digits. */
  function ScanNumber(text: string, i: nat): (s: Scan)
    requires i < |text| && (IsDigit(text[i]) || text[i] == '-')
    ensures s.Emit? ==> (i < s.next <= |text| && s.token.position == i
      && s.token.group == GroupOf(s.token.kind) && s.token.lexeme == text[i..s.next])
  {
    var j := if text[i] == '-' then i + 1 else i;
    if j >= |text| || !IsDigit(text[j]) then Reject(SyntaxError)
    else
      var k := DigitsEnd(text, j);
      if k < |text| && text[k] == '.' then
        if k + 1 < |text| && IsDigit(text[k + 1]) then
          var m := DigitsEnd(text, k + 1);
          Emit(MakeToken(Number, text[i..m], i), m)
        else Reject(InvalidNumber)
      else Emit(MakeToken(Number, text[i..k], i), k)
  }

  /** An identifier starting with the letter at `i`, classified. */
  function ScanWord(text: string, i: nat, builtins: seq<string>): (s: Scan)
    requires i < |text| && IsAsciiLetter(text[i])
    ensures s.Emit? && i < s.next <= |text| && s.token.position == i
      && s.token.group == GroupOf(s.token.kind) && s.token.lexeme == text[i..s.next]
  {
    var k := IdentEnd(text, i + 1);
    Emit(MakeToken(Classify(text[i..k], builtins), text[i..k], i), k)
  }

  /** One step of the scanner at position `i`. */
  function ScanAt(text: string, i: nat, builtins: seq<string>): (s: Scan)
    requires i < |text|
    ensures s.Skip? ==> s.next == i + 1
    ensures s.Emit? ==> (i < s.next <= |text| && s.token.position == i
      && s.token.group == GroupOf(s.token.kind))
    ensures s.Emit? && s.token.kind != String ==> s.token.lexeme == text[i..s.next]
  {
    var c := text[i];
    if IsBlank(c) then Skip(i + 1)
    else if IsQuote(c) then ScanString(text, i)
    else if IsDigit(c) || c == '-' then ScanNumber(text, i)
    else if IsAsciiLetter(c) then ScanWord(text, i, builtins)
    else ScanOperator(text, i)
  }

  /** `tokens` followed by the tokens of `r`, or the error of `r`. */
  function Prepend(tokens: seq<Token>, r: Result<seq<Token>>): Result<seq<Token>> {
    match r
    case Ok(ts) => Ok(tokens + ts)
    case Err(e) => Err(e)
  }

  /** The tokens of `text` from position `i` on, stopping at the first error. */
  function LexFrom(text: string, i: nat, builtins: seq<string>): Result<seq<Token>>
    requires i <= |text|
    decreases |text| - i
  {
    if i == |text| then Ok([])
    else match ScanAt(text, i, builtins)
      case Reject(e) => Err(ParserError(e))
      case Skip(n) => LexFrom(text, n, builtins)
      case Emit(t, n) => Prepend([t], LexFrom(text, n, builtins))
  }

  /** The token sequence of a whole query. */
  function Lex(text: string, builtins: seq<string>): Result<seq<Token>> {
    LexFrom(text, 0, builtins)
  }

  /** The token types of a successful lexing, for stating test vectors. */
  function Kinds(tokens: seq<Token>): (r: seq<TokenType>)
    ensures |r| == |tokens|
  {
    if |tokens| == 0 then [] else [tokens[0].kind] + Kinds(tokens[1..])
  }

  function Lexemes(tokens: seq<Token>): (r: seq<string>)
    ensures |r| == |tokens|
  {
    if |tokens| == 0 then [] else [tokens[0].lexeme] + Lexemes(tokens[1..])
  }

  function Groups(tokens: seq<Token>): (r: seq<TokenGroup>)
    ensures |r| == |tokens|
  {
    if |tokens| == 0 then [] else [tokens[0].group] + Groups(tokens[1..])
  }

  /** `QueryLexer::tokens`: scan from the first character to the last,
      appending each token and stopping at the first error. */
  method Tokens(text: string, builtins: seq<string>) returns (r: Result<seq<Token>>)
    ensures r == Lex(text, builtins)
    ensures r.Ok? ==> WellGrouped(r.value)
  {
    var tokens: seq<Token> := [];
    var current := 0;
    assert Prepend([], Lex(text, builtins)) == Lex(text, builtins) by {
      if Lex(text, builtins).Ok? { assert [] + Lex(text, builtins).value == Lex(text, builtins).value; }
    }
    while current < |text|
      invariant current <= |text|
      invariant Lex(text, builtins) == Prepend(tokens, LexFrom(text, current, builtins))
      invariant WellGrouped(tokens)
      decreases |text| - current
    {
      var step := ScanAt(text, current, builtins);
      match step
      case Reject(e) =>
        return Err(ParserError(e));
      case Skip(n) =>
        current := n;
      case Emit(t, n) =>
        PrependTwice(tokens, [t], LexFrom(text, n, builtins));
        tokens := tokens + [t];
        current := n;
    }
    assert tokens + [] == tokens;
    return Ok(tokens);
  }

  lemma PrependTwice(a: seq<Token>, b: seq<Token>, r: Result<seq<Token>>)
    ensures Prepend(a, Prepend(b, r)) == Prepend(a + b, r)
  {
    if r.Ok? {
      assert a + (b + r.value) == (a + b) + r.value;
    }
  }
}
