/** Properties of the query lexer over all inputs.

    The central one is a round trip: a query written out from a list of
    lexical pieces (words, numbers, quoted strings, operators, blanks) lexes
    back to exactly the tokens of those pieces, provided no piece runs into
    the next one. The test vectors of the lexer are instances of it. */
module QueryLexerLemmas {
  import opened Errors
  import opened Strings
  import opened QueryLexer

  /** A piece of query text the lexer recognises as one unit. */
  datatype Piece =
    | Blank(c: char)
    | Word(w: string)
    | Num(minus: bool, whole: string, fraction: string)
    | Str(quote: char, content: string)
    | Op(kind: TokenType)

  predicate AllDigits(s: string) {
    forall m :: 0 <= m < |s| ==> IsDigit(s[m])
  }

  /** The token types written as punctuation: parentheses, comparison,
      pattern-match and boolean operators. */
  predicate IsSymbolKind(kind: TokenType) {
    !(kind.Field? || kind.Builtin? || kind.Path? || kind.String? || kind.Number?
      || kind.Boolean? || kind.Null? || kind.Keyword?)
  }

  /** The operator table: the text of each punctuation token type. */
  function Symbol(kind: TokenType): (r: string)
    requires IsSymbolKind(kind)
    ensures 1 <= |r| <= 3
  {
    match kind
    case LeftParen => "("
    case RightParen => ")"
    case And => "&"
    case Or => "|"
    case Equal => "="
    case Unequal => "!="
    case Less => "<"
    case Greater => ">"
    case LessEqual => "<="
    case GreaterEqual => ">="
    case ILike => "~"
    case IUnlike => "!~"
    case Like => "~~"
    case Unlike => "!~~"
  }

  /** `s` written as the content of a literal quoted with `q`: every `q` gets a backslash. */
  function Escape(s: string, q: char): (e: string)
    ensures |e| >= |s|
  {
    if |s| == 0 then [] else (if s[0] == q then ['\\', q] else [s[0]]) + Escape(s[1..], q)
  }

  predicate WellFormed(p: Piece) {
    match p
    case Blank(c) => IsBlank(c)
    case Word(w) => w != [] && IsAsciiLetter(w[0]) && forall m :: 0 <= m < |w| ==> IsIdentChar(w[m])
    case Num(_, whole, fraction) => whole != [] && AllDigits(whole) && AllDigits(fraction)
    case Str(q, s) => IsQuote(q) && (s == [] || s[|s| - 1] != '\\')
    case Op(kind) => IsSymbolKind(kind)
  }

  function Render(p: Piece): (r: string)
    ensures WellFormed(p) ==> r != []
  {
    match p
    case Blank(c) => [c]
    case Word(w) => w
    case Num(minus, whole, fraction) =>
      (if minus then "-" else "") + whole + (if fraction == [] then "" else "." + fraction)
    case Str(q, s) => [q] + Escape(s, q) + [q]
    case Op(kind) => if IsSymbolKind(kind) then Symbol(kind) else ""
  }

  function RenderAll(ps: seq<Piece>): string {
    if |ps| == 0 then "" else Render(ps[0]) + RenderAll(ps[1..])
  }

  /** Whether a piece would absorb the character `c` written right after it. */
  predicate Glues(p: Piece, c: char) {
    match p
    case Word(_) => IsIdentChar(c)
    case Num(_, _, _) => IsDigit(c) || c == '.'
    case Op(kind) => ((kind == Less || kind == Greater) && c == '=') || ((kind == ILike || kind == IUnlike) && c == '~')
    case _ => false
  }

  predicate NotGlued(p: Piece, rest: string) {
    rest == [] || !Glues(p, rest[0])
  }

  /** Every piece is well formed and none runs into the text after it. */
  predicate Fits(ps: seq<Piece>, after: string)
    decreases |ps|
  {
    |ps| == 0 ||
      (WellFormed(ps[0]) && NotGlued(ps[0], RenderAll(ps[1..]) + after) && Fits(ps[1..], after))
  }

  /** The first character a well-formed piece is written with. */
  function First(p: Piece): char
    requires WellFormed(p)
  {
    match p
    case Blank(c) => c
    case Word(w) => w[0]
    case Num(minus, whole, _) => if minus then '-' else whole[0]
    case Str(q, _) => q
    case Op(kind) => Symbol(kind)[0]
  }

  lemma FirstRender(p: Piece)
    requires WellFormed(p)
    ensures Render(p) != [] && Render(p)[0] == First(p)
  {
    if p.Str? {
      assert Render(p) == [p.quote] + (Escape(p.content, p.quote) + [p.quote]);
    } else if p.Num? {
      var sign := if p.minus then "-" else "";
      var frac := if p.fraction == [] then "" else "." + p.fraction;
      assert Render(p) == sign + (p.whole + frac);
    }
  }

  /** `Fits` checked neighbour by neighbour: each piece is well formed and does not
      glue to the first character of the next piece (or of `after`, for the last one). */
  predicate FitsLocally(ps: seq<Piece>, after: string)
    decreases |ps|
  {
    |ps| == 0 ||
      (WellFormed(ps[0])
       && (if |ps| == 1 then NotGlued(ps[0], after) else WellFormed(ps[1]) && !Glues(ps[0], First(ps[1])))
       && FitsLocally(ps[1..], after))
  }

  lemma {:induction false} FitsLocallyFits(ps: seq<Piece>, after: string)
    requires FitsLocally(ps, after)
    ensures Fits(ps, after)
    decreases |ps|
  {
    if ps != [] {
      FitsLocallyFits(ps[1..], after);
      if |ps| > 1 {
        var rest := ps[1..];
        FirstRender(rest[0]);
        assert RenderAll(rest) == Render(rest[0]) + RenderAll(rest[1..]);
        assert (RenderAll(rest) + after)[0] == First(ps[1]);
      } else {
        assert RenderAll(ps[1..]) + after == after;
      }
    }
  }

  /** The token a (non-blank) piece stands for. */
  function PieceToken(p: Piece, position: nat, builtins: seq<string>): Token
    requires !p.Blank? && WellFormed(p)
  {
    match p
    case Word(w) => MakeToken(Classify(w, builtins), w, position)
    case Num(_, _, _) => MakeToken(Number, Render(p), position)
    case Str(_, s) => MakeToken(String, s, position)
    case Op(kind) => MakeToken(kind, Symbol(kind), position)
  }

  /** The tokens a piece stands for: none for a blank, one otherwise. */
  function HeadTokens(p: Piece, position: nat, builtins: seq<string>): seq<Token>
    requires WellFormed(p)
  {
    if p.Blank? then [] else [PieceToken(p, position, builtins)]
  }

  function TokensOf(ps: seq<Piece>, position: nat, builtins: seq<string>): seq<Token>
    requires forall k :: 0 <= k < |ps| ==> WellFormed(ps[k])
  {
    if |ps| == 0 then []
    else HeadTokens(ps[0], position, builtins) + TokensOf(ps[1..], position + |Render(ps[0])|, builtins)
  }

  /** The token type a (non-blank) piece stands for, wherever it is written. */
  function PieceKind(p: Piece, builtins: seq<string>): TokenType
    requires !p.Blank?
  {
    match p
    case Word(w) => Classify(w, builtins)
    case Num(_, _, _) => Number
    case Str(_, _) => String
    case Op(kind) => kind
  }

  function PieceKinds(ps: seq<Piece>, builtins: seq<string>): seq<TokenType> {
    if |ps| == 0 then []
    else (if ps[0].Blank? then [] else [PieceKind(ps[0], builtins)]) + PieceKinds(ps[1..], builtins)
  }

  /** The lexeme a (non-blank) piece stands for: strings lose their quotes and escapes. */
  function PieceLexeme(p: Piece): string
    requires !p.Blank? && WellFormed(p)
  {
    match p
    case Str(_, s) => s
    case _ => Render(p)
  }

  function PieceLexemes(ps: seq<Piece>): seq<string>
    requires forall k :: 0 <= k < |ps| ==> WellFormed(ps[k])
  {
    if |ps| == 0 then []
    else (if ps[0].Blank? then [] else [PieceLexeme(ps[0])]) + PieceLexemes(ps[1..])
  }

  /** The group of each type, in order. */
  function GroupsOf(kinds: seq<TokenType>): seq<TokenGroup> {
    if |kinds| == 0 then [] else [GroupOf(kinds[0])] + GroupsOf(kinds[1..])
  }

  /** Concatenation is associative (stated once, so that proofs need not rediscover it). */
  lemma Assoc<T>(x: seq<T>, y: seq<T>, z: seq<T>)
    ensures x + (y + z) == (x + y) + z
  {
  }

  lemma ConsAppend<T>(a: seq<T>, b: seq<T>)
    requires a != []
    ensures (a + b)[0] == a[0] && (a + b)[1..] == a[1..] + b
  {
  }

  lemma {:induction false} KindsAppend(a: seq<Token>, b: seq<Token>)
    ensures Kinds(a + b) == Kinds(a) + Kinds(b)
  {
    if a == [] {
      assert a + b == b;
    } else {
      ConsAppend(a, b);
      KindsAppend(a[1..], b);
      Assoc([a[0].kind], Kinds(a[1..]), Kinds(b));
    }
  }

  /** `GroupsOf` maps each type to its group. */
  lemma {:induction false} GroupsOfIndex(kinds: seq<TokenType>)
    ensures |GroupsOf(kinds)| == |kinds|
    ensures forall k :: 0 <= k < |kinds| ==> GroupsOf(kinds)[k] == GroupOf(kinds[k])
  {
    if kinds != [] {
      GroupsOfIndex(kinds[1..]);
      assert forall k :: 1 <= k < |kinds| ==> kinds[1..][k - 1] == kinds[k];
    }
  }

  /** The groups of eight consecutive chunks of token types, chunk by chunk. */
  lemma GroupsOfChunks(k1: seq<TokenType>, k2: seq<TokenType>, k3: seq<TokenType>, k4: seq<TokenType>,
                       k5: seq<TokenType>, k6: seq<TokenType>, k7: seq<TokenType>, k8: seq<TokenType>)
    ensures GroupsOf(k1 + k2 + k3 + k4 + k5 + k6 + k7 + k8) ==
      GroupsOf(k1) + GroupsOf(k2) + GroupsOf(k3) + GroupsOf(k4) + GroupsOf(k5) + GroupsOf(k6) + GroupsOf(k7) + GroupsOf(k8)
  {
    GroupsOfAppend(k1 + k2 + k3 + k4 + k5 + k6 + k7, k8);
    GroupsOfAppend(k1 + k2 + k3 + k4 + k5 + k6, k7);
    GroupsOfAppend(k1 + k2 + k3 + k4 + k5, k6);
    GroupsOfAppend(k1 + k2 + k3 + k4, k5);
    GroupsOfAppend(k1 + k2 + k3, k4);
    GroupsOfAppend(k1 + k2, k3);
    GroupsOfAppend(k1, k2);
  }

  lemma {:induction false} GroupsOfAppend(a: seq<TokenType>, b: seq<TokenType>)
    ensures GroupsOf(a + b) == GroupsOf(a) + GroupsOf(b)
  {
    if a == [] {
      assert a + b == b;
    } else {
      ConsAppend(a, b);
      GroupsOfAppend(a[1..], b);
      Assoc([GroupOf(a[0])], GroupsOf(a[1..]), GroupsOf(b));
    }
  }

  lemma TokensOfCons(ps: seq<Piece>, i: nat, builtins: seq<string>)
    requires ps != [] && forall k :: 0 <= k < |ps| ==> WellFormed(ps[k])
    ensures TokensOf(ps, i, builtins)
      == HeadTokens(ps[0], i, builtins) + TokensOf(ps[1..], i + |Render(ps[0])|, builtins)
  {
  }

  lemma PieceKindsCons(ps: seq<Piece>, builtins: seq<string>)
    requires ps != []
    ensures PieceKinds(ps, builtins)
      == (if ps[0].Blank? then [] else [PieceKind(ps[0], builtins)]) + PieceKinds(ps[1..], builtins)
  {
  }

  /** The token a piece stands for has the piece's type and the group of that type. */
  lemma HeadKinds(p: Piece, i: nat, builtins: seq<string>)
    requires WellFormed(p)
    ensures Kinds(HeadTokens(p, i, builtins)) == (if p.Blank? then [] else [PieceKind(p, builtins)])
    ensures Groups(HeadTokens(p, i, builtins)) == GroupsOf(if p.Blank? then [] else [PieceKind(p, builtins)])
  {
    if !p.Blank? {
      var t := PieceToken(p, i, builtins);
      assert t.kind == PieceKind(p, builtins) && t.group == GroupOf(t.kind) by {
        match p
        case Word(w) =>
        case Num(_, _, _) =>
        case Str(_, _) =>
        case Op(_) =>
      }
      assert GroupsOf([t.kind]) == [GroupOf(t.kind)] + GroupsOf([]);
    }
  }

  /** The types of the tokens of a run of pieces do not depend on where it is written. */
  lemma {:induction false} KindsOfPieces(ps: seq<Piece>, i: nat, builtins: seq<string>)
    requires forall k :: 0 <= k < |ps| ==> WellFormed(ps[k])
    ensures Kinds(TokensOf(ps, i, builtins)) == PieceKinds(ps, builtins)
  {
    if ps != [] {
      var p := ps[0];
      var head := HeadTokens(p, i, builtins);
      var rest := TokensOf(ps[1..], i + |Render(p)|, builtins);
      TokensOfCons(ps, i, builtins);
      PieceKindsCons(ps, builtins);
      KindsOfPieces(ps[1..], i + |Render(p)|, builtins);
      KindsAppend(head, rest);
      HeadKinds(p, i, builtins);
    }
  }

  lemma {:induction false} LexemesAppend(a: seq<Token>, b: seq<Token>)
    ensures Lexemes(a + b) == Lexemes(a) + Lexemes(b)
  {
    if a == [] {
      assert a + b == b;
    } else {
      ConsAppend(a, b);
      LexemesAppend(a[1..], b);
      Assoc([a[0].lexeme], Lexemes(a[1..]), Lexemes(b));
    }
  }

  lemma PieceLexemesCons(ps: seq<Piece>)
    requires ps != [] && forall k :: 0 <= k < |ps| ==> WellFormed(ps[k])
    ensures PieceLexemes(ps)
      == (if ps[0].Blank? then [] else [PieceLexeme(ps[0])]) + PieceLexemes(ps[1..])
  {
  }

  /** The lexemes of the tokens of a run of pieces: their texts, strings unescaped. */
  lemma {:induction false} LexemesOfPieces(ps: seq<Piece>, i: nat, builtins: seq<string>)
    requires forall k :: 0 <= k < |ps| ==> WellFormed(ps[k])
    ensures Lexemes(TokensOf(ps, i, builtins)) == PieceLexemes(ps)
  {
    if ps != [] {
      var p := ps[0];
      var head := HeadTokens(p, i, builtins);
      var rest := TokensOf(ps[1..], i + |Render(p)|, builtins);
      TokensOfCons(ps, i, builtins);
      PieceLexemesCons(ps);
      LexemesOfPieces(ps[1..], i + |Render(p)|, builtins);
      LexemesAppend(head, rest);
    }
  }

  /** `Kinds` and `Groups` read one field of each token. */
  lemma {:induction false} KindsIndex(ts: seq<Token>)
    ensures forall k :: 0 <= k < |ts| ==> Kinds(ts)[k] == ts[k].kind
  {
    if ts != [] {
      KindsIndex(ts[1..]);
      assert forall k :: 1 <= k < |ts| ==> ts[1..][k - 1] == ts[k];
    }
  }

  lemma {:induction false} LexemesIndex(ts: seq<Token>)
    ensures forall k :: 0 <= k < |ts| ==> Lexemes(ts)[k] == ts[k].lexeme
  {
    if ts != [] {
      LexemesIndex(ts[1..]);
      assert forall k :: 1 <= k < |ts| ==> ts[1..][k - 1] == ts[k];
    }
  }

  lemma {:induction false} GroupsIndex(ts: seq<Token>)
    ensures forall k :: 0 <= k < |ts| ==> Groups(ts)[k] == ts[k].group
  {
    if ts != [] {
      GroupsIndex(ts[1..]);
      assert forall k :: 1 <= k < |ts| ==> ts[1..][k - 1] == ts[k];
    }
  }

  /** The groups of well-grouped tokens are the groups of their types. */
  lemma GroupsByKinds(ts: seq<Token>)
    requires WellGrouped(ts)
    ensures Groups(ts) == GroupsOf(Kinds(ts))
  {
    KindsIndex(ts);
    GroupsIndex(ts);
    GroupsOfIndex(Kinds(ts));
  }

  /** Every token the lexer emits carries the group of its type. */
  lemma {:induction false} LexGrouped(text: string, i: nat, builtins: seq<string>)
    requires i <= |text| && LexFrom(text, i, builtins).Ok?
    ensures WellGrouped(LexFrom(text, i, builtins).value)
    decreases |text| - i
  {
    if i < |text| {
      match ScanAt(text, i, builtins)
      case Skip(n) =>
        LexSkip(text, i, builtins);
        LexGrouped(text, n, builtins);
      case Emit(t, n) =>
        LexEmit(text, i, builtins, t, n);
        LexGrouped(text, n, builtins);
        GroupedCons(t, LexFrom(text, n, builtins).value);
    }
  }

  lemma GroupedCons(t: Token, rest: seq<Token>)
    requires t.group == GroupOf(t.kind) && WellGrouped(rest)
    ensures WellGrouped([t] + rest)
  {
    assert forall k :: 1 <= k < |[t] + rest| ==> ([t] + rest)[k] == rest[k - 1];
  }

  lemma {:induction false} FitsWellFormed(ps: seq<Piece>, after: string)
    requires Fits(ps, after)
    ensures forall k :: 0 <= k < |ps| ==> WellFormed(ps[k])
  {
    if ps != [] {
      FitsWellFormed(ps[1..], after);
      forall k | 0 <= k < |ps| ensures WellFormed(ps[k]) {
        if k > 0 { assert ps[k] == ps[1..][k - 1]; }
      }
    }
  }

  // ---- the scanners' loops, over runs of known characters ----

  lemma {:induction false} IdentEndAt(text: string, j: nat, k: nat)
    requires j <= k <= |text|
    requires forall m :: j <= m < k ==> IsIdentChar(text[m])
    requires k == |text| || !IsIdentChar(text[k])
    ensures IdentEnd(text, j) == k
    decreases k - j
  {
    if j < k { IdentEndAt(text, j + 1, k); }
  }

  lemma {:induction false} DigitsEndAt(text: string, j: nat, k: nat)
    requires j <= k <= |text|
    requires forall m :: j <= m < k ==> IsDigit(text[m])
    requires k == |text| || !IsDigit(text[k])
    ensures DigitsEnd(text, j) == k
    decreases k - j
  {
    if j < k { DigitsEndAt(text, j + 1, k); }
  }

  /** An escaped content never starts with a bare quote. */
  lemma EscapeHead(s: string, q: char)
    requires s != [] && q != '\\'
    ensures Escape(s, q)[0] != q
  {
    var h := if s[0] == q then ['\\', q] else [s[0]];
    assert Escape(s, q) == h + Escape(s[1..], q);
    assert Escape(s, q)[0] == h[0];
  }

  /** Unescaping undoes escaping, for every content. */
  lemma {:induction false} UnescapeEscape(s: string, q: char)
    requires q != '\\'
    ensures Unescape(Escape(s, q), q) == s
  {
    if s != [] {
      var e := Escape(s[1..], q);
      UnescapeEscape(s[1..], q);
      if s[0] == q {
        assert Escape(s, q) == ['\\', q] + e;
        assert (['\\', q] + e)[2..] == e;
      } else {
        assert Escape(s, q) == [s[0]] + e;
        assert ([s[0]] + e)[1..] == e;
        if s[0] == '\\' && e != [] {
          EscapeHead(s[1..], q);
        }
      }
    }
  }

  /** The closing quote of an escaped content is the first unescaped quote. */
  lemma UnescapeSlice(text: string, j: nat, k: nat, s: string, q: char)
    requires q != '\\' && j <= k <= |text| && text[j..k] == Escape(s, q)
    ensures Unescape(text[j..k], q) == s
  {
    UnescapeEscape(s, q);
  }

  lemma {:induction false} StringEndEscaped(text: string, j: nat, k: nat, s: string, q: char)
    requires IsQuote(q)
    requires s == [] || s[|s| - 1] != '\\'
    requires k == j + |Escape(s, q)| && k < |text|
    requires text[j..k] == Escape(s, q) && text[k] == q
    ensures StringEnd(text, j, q) == ClosedAt(k)
    decreases |s|
  {
    if s != [] {
      var tail := s[1..];
      var e := Escape(tail, q);
      var h := if s[0] == q then ['\\', q] else [s[0]];
      var m := j + |h|;
      assert Escape(s, q) == h + e;
      SplitSlice(text, j, m, k, h, e);
      assert tail == [] || tail[|tail| - 1] == s[|s| - 1];
      var next := if tail == [] then q else e[0];
      if tail != [] {
        EscapeHead(tail, q);
        assert text[m..k][0] == text[m];
      }
      StringEndSkip(text, j, q, h, next);
      StringEndEscaped(text, m, k, tail, q);
    }
  }

  /** The closing search steps over one escaped unit `h`, followed by `next`. */
  lemma StringEndSkip(text: string, j: nat, q: char, h: string, next: char)
    requires IsQuote(q) && (h == ['\\', q] || (|h| == 1 && h[0] != q))
    requires j + |h| < |text| && text[j..j + |h|] == h && text[j + |h|] == next
    requires h == ['\\'] ==> next != q
    ensures StringEnd(text, j, q) == StringEnd(text, j + |h|, q)
  {
    assert text[j..j + |h|][0] == text[j];
    if |h| == 2 {
      assert text[j..j + |h|][1] == text[j + 1];
    }
  }

  /** With no quote `q` left, a string never closes. */
  lemma {:induction false} StringEndMissing(text: string, j: nat, q: char)
    requires j <= |text|
    requires forall m :: j <= m < |text| ==> text[m] != q
    ensures StringEnd(text, j, q) == Unclosed
    decreases |text| - j
  {
    if j < |text| {
      if text[j] == '\\' && j + 1 < |text| && text[j + 1] == q {
      } else {
        StringEndMissing(text, j + 1, q);
      }
    }
  }

  lemma SliceAt(text: string, i: nat, a: string, b: string)
    requires i + |a + b| <= |text| && text[i..i + |a + b|] == a + b
    ensures text[i..i + |a|] == a && text[i + |a|..i + |a| + |b|] == b
  {
    assert text[i..i + |a|] == text[i..i + |a + b|][..|a|];
    assert text[i + |a|..i + |a| + |b|] == text[i..i + |a + b|][|a|..];
  }

  lemma SliceChars(text: string, i: nat, a: string)
    requires i + |a| <= |text| && text[i..i + |a|] == a
    ensures forall m :: 0 <= m < |a| ==> text[i + m] == a[m]
  {
    forall m | 0 <= m < |a| ensures text[i + m] == a[m] {
      assert text[i..i + |a|][m] == text[i + m];
    }
  }

  /** The characters an operator symbol starts with. */
  predicate OperatorStart(c: char) {
    c == '(' || c == ')' || c == '&' || c == '|' || c == '=' || c == '<' || c == '>' || c == '~' || c == '!'
  }

  lemma ScanAtPunctuation(text: string, i: nat, builtins: seq<string>)
    requires i < |text| && OperatorStart(text[i])
    ensures ScanAt(text, i, builtins) == ScanOperator(text, i)
  {
  }

  /** One scanner step over an operator symbol written at `i`. */
  lemma ScanOpPiece(text: string, i: nat, kind: TokenType, builtins: seq<string>)
    requires IsSymbolKind(kind)
    requires i + |Symbol(kind)| <= |text| && text[i..i + |Symbol(kind)|] == Symbol(kind)
    requires NotGlued(Op(kind), text[i + |Symbol(kind)|..])
    ensures ScanAt(text, i, builtins) == Emit(MakeToken(kind, Symbol(kind), i), i + |Symbol(kind)|)
  {
    var symbol := Symbol(kind);
    var n := |symbol|;
    SliceChars(text, i, symbol);
    assert i + n < |text| ==> text[i + n..][0] == text[i + n];
    ScanOperatorSymbol(text, i, kind);
    ScanAtPunctuation(text, i, builtins);
  }

  /** The operator scanner reads back each symbol of the operator table. */
  lemma ScanOperatorSymbol(text: string, i: nat, kind: TokenType)
    requires IsSymbolKind(kind) && i + |Symbol(kind)| <= |text|
    requires forall m :: 0 <= m < |Symbol(kind)| ==> text[i + m] == Symbol(kind)[m]
    requires i + |Symbol(kind)| < |text| ==> !Glues(Op(kind), text[i + |Symbol(kind)|])
    ensures OperatorStart(text[i])
    ensures ScanOperator(text, i) == Emit(MakeToken(kind, Symbol(kind), i), i + |Symbol(kind)|)
  {
    var symbol := Symbol(kind);
    assert text[i] == symbol[0];
    assert |symbol| > 1 ==> text[i + 1] == symbol[1];
    assert |symbol| > 2 ==> text[i + 2] == symbol[2];
    match kind
    case LeftParen =>
    case RightParen =>
    case And =>
    case Or =>
    case Equal =>
    case Unequal =>
    case Less =>
    case Greater =>
    case LessEqual =>
    case GreaterEqual =>
    case ILike =>
    case IUnlike =>
    case Like =>
    case Unlike =>
  }

  lemma ScanWordPiece(text: string, i: nat, w: string, builtins: seq<string>)
    requires WellFormed(Word(w))
    requires i + |w| <= |text| && text[i..i + |w|] == w
    requires NotGlued(Word(w), text[i + |w|..])
    ensures ScanAt(text, i, builtins) == Emit(MakeToken(Classify(w, builtins), w, i), i + |w|)
  {
    SliceChars(text, i, w);
    forall m | i + 1 <= m < i + |w| ensures IsIdentChar(text[m]) {
      assert text[m] == w[m - i];
    }
    assert i + |w| < |text| ==> text[i + |w|..][0] == text[i + |w|];
    IdentEndAt(text, i + 1, i + |w|);
  }

  lemma ScanAtNumberStart(text: string, i: nat, builtins: seq<string>)
    requires i < |text| && (IsDigit(text[i]) || text[i] == '-')
    ensures ScanAt(text, i, builtins) == ScanNumber(text, i)
  {
  }

  lemma NumberWhole(text: string, i: nat, j: nat, k: nat)
    requires i < |text| && j == (if text[i] == '-' then i + 1 else i) && j < k <= |text|
    requires forall m :: j <= m < k ==> IsDigit(text[m])
    requires k == |text| || (text[k] != '.' && !IsDigit(text[k]))
    ensures ScanNumber(text, i) == Emit(MakeToken(Number, text[i..k], i), k)
  {
    DigitsEndAt(text, j, k);
  }

  lemma NumberFraction(text: string, i: nat, j: nat, k: nat, end: nat)
    requires i < |text| && j == (if text[i] == '-' then i + 1 else i) && j < k && k + 1 < end <= |text|
    requires forall m :: j <= m < k ==> IsDigit(text[m])
    requires text[k] == '.'
    requires forall m :: k + 1 <= m < end ==> IsDigit(text[m])
    requires end == |text| || !IsDigit(text[end])
    ensures ScanNumber(text, i) == Emit(MakeToken(Number, text[i..end], i), end)
  {
    DigitsEndAt(text, j, k);
    DigitsEndAt(text, k + 1, end);
  }

  lemma ScanNumPiece(text: string, i: nat, minus: bool, whole: string, fraction: string, builtins: seq<string>)
    requires whole != [] && AllDigits(whole) && AllDigits(fraction)
    requires var r := Render(Num(minus, whole, fraction));
      i + |r| <= |text| && text[i..i + |r|] == r
    requires NotGlued(Num(minus, whole, fraction), text[i + |Render(Num(minus, whole, fraction))|..])
    ensures var r := Render(Num(minus, whole, fraction));
      ScanAt(text, i, builtins) == Emit(MakeToken(Number, r, i), i + |r|)
  {
    var sign := if minus then "-" else "";
    var r := Render(Num(minus, whole, fraction));
    var end := i + |r|;
    assert end < |text| ==> text[end..][0] == text[end];
    if fraction == [] {
      assert r == sign + whole;
      WholeNumber(text, i, sign, whole);
    } else {
      assert r == (sign + whole) + ("." + fraction);
      FractionNumber(text, i, sign, whole, fraction);
    }
    ScanAtNumberStart(text, i, builtins);
  }

  lemma FractionNumber(text: string, i: nat, sign: string, whole: string, fraction: string)
    requires sign == "-" || sign == ""
    requires whole != [] && AllDigits(whole) && fraction != [] && AllDigits(fraction)
    requires var r := (sign + whole) + ("." + fraction);
      i + |r| <= |text| && text[i..i + |r|] == r
    requires var end := i + |sign| + |whole| + 1 + |fraction|; end == |text| || !IsDigit(text[end])
    ensures i < |text| && (IsDigit(text[i]) || text[i] == '-')
    ensures var r := (sign + whole) + ("." + fraction);
      ScanNumber(text, i) == Emit(MakeToken(Number, r, i), i + |r|)
  {
    var j := i + |sign|;
    var k := j + |whole|;
    FractionParts(text, i, sign, whole, fraction);
    WholeDigits(text, i, j, sign, whole);
    DigitRun(text, k + 1, fraction);
    NumberFraction(text, i, j, k, k + 1 + |fraction|);
  }

  /** The text of a number with a fraction: sign, whole part, point, fraction. */
  lemma FractionParts(text: string, i: nat, sign: string, whole: string, fraction: string)
    requires var r := (sign + whole) + ("." + fraction);
      i + |r| <= |text| && text[i..i + |r|] == r
    ensures var j := i + |sign|; var k := j + |whole|;
      && text[i..j] == sign && text[j..k] == whole && text[k] == '.'
      && text[k + 1..k + 1 + |fraction|] == fraction
  {
    var k := i + |sign| + |whole|;
    SliceAt(text, i, sign + whole, "." + fraction);
    SliceAt(text, i, sign, whole);
    SliceAt(text, k, ".", fraction);
    assert text[k..k + 1] == ".";
    assert text[k..k + 1][0] == text[k];
  }

  lemma WholeNumber(text: string, i: nat, sign: string, whole: string)
    requires sign == "-" || sign == ""
    requires whole != [] && AllDigits(whole)
    requires i + |sign + whole| <= |text| && text[i..i + |sign + whole|] == sign + whole
    requires var k := i + |sign + whole|; k == |text| || (text[k] != '.' && !IsDigit(text[k]))
    ensures i < |text| && (IsDigit(text[i]) || text[i] == '-')
    ensures ScanNumber(text, i) == Emit(MakeToken(Number, sign + whole, i), i + |sign + whole|)
  {
    SliceAt(text, i, sign, whole);
    var j := i + |sign|;
    WholeDigits(text, i, j, sign, whole);
    NumberWhole(text, i, j, j + |whole|);
  }

  lemma DigitRun(text: string, j: nat, s: string)
    requires j + |s| <= |text| && text[j..j + |s|] == s && AllDigits(s)
    ensures forall m :: j <= m < j + |s| ==> IsDigit(text[m])
  {
    forall m | j <= m < j + |s| ensures IsDigit(text[m]) {
      assert text[j..j + |s|][m - j] == text[m];
    }
  }

  lemma WholeDigits(text: string, i: nat, j: nat, sign: string, whole: string)
    requires sign == "-" || sign == ""
    requires j == i + |sign| && j + |whole| <= |text|
    requires text[i..j] == sign && text[j..j + |whole|] == whole
    requires whole != [] && AllDigits(whole)
    ensures text[i] == (if sign == "-" then '-' else whole[0])
    ensures j == (if text[i] == '-' then i + 1 else i)
    ensures forall m :: j <= m < j + |whole| ==> IsDigit(text[m])
  {
    DigitRun(text, j, whole);
    if sign == "-" { assert text[i..j][0] == text[i]; }
    else { assert text[j..j + |whole|][0] == text[i]; }
  }

  lemma ScanStrPiece(text: string, i: nat, q: char, s: string)
    requires WellFormed(Str(q, s))
    requires i + |Render(Str(q, s))| <= |text| && text[i..i + |Render(Str(q, s))|] == Render(Str(q, s))
    ensures i < |text| && IsQuote(text[i])
    ensures ScanString(text, i) == Emit(MakeToken(String, s, i), i + |Render(Str(q, s))|)
  {
    var e := Escape(s, q);
    assert Render(Str(q, s)) == ([q] + e) + [q];
    QuotedSlices(text, i, q, e);
    ScanEscaped(text, i, i + 1 + |e|, q, s);
  }

  /** The scanner reads an escaped content between two quotes back as the content. */
  lemma ScanEscaped(text: string, i: nat, k: nat, q: char, s: string)
    requires IsQuote(q) && (s == [] || s[|s| - 1] != '\\')
    requires k == i + 1 + |Escape(s, q)| && k < |text|
    requires text[i] == q && text[i + 1..k] == Escape(s, q) && text[k] == q
    ensures ScanString(text, i) == Emit(MakeToken(String, s, i), k + 1)
  {
    StringEndEscaped(text, i + 1, k, s, q);
    UnescapeSlice(text, i + 1, k, s, q);
    ScanStringClosed(text, i, k, q, s);
  }

  /** The text of a quoted literal: the quote, the content, the quote. */
  lemma QuotedSlices(text: string, i: nat, q: char, e: string)
    requires i + |e| + 2 <= |text| && text[i..i + |e| + 2] == ([q] + e) + [q]
    ensures text[i] == q && text[i + 1..i + 1 + |e|] == e && text[i + 1 + |e|] == q
  {
    SliceAt(text, i, [q] + e, [q]);
    SliceAt(text, i, [q], e);
    assert text[i..i + |e| + 2][0] == text[i];
    assert text[i..i + |e| + 2][|e| + 1] == text[i + 1 + |e|];
  }

  lemma ScanAtQuote(text: string, i: nat, builtins: seq<string>)
    requires i < |text| && IsQuote(text[i])
    ensures ScanAt(text, i, builtins) == ScanString(text, i)
  {
  }

  /** A string literal closed at `k` yields its unescaped content. */
  lemma ScanStringClosed(text: string, i: nat, k: nat, q: char, content: string)
    requires i < k < |text| && text[i] == q && IsQuote(q)
    requires StringEnd(text, i + 1, q) == ClosedAt(k)
    requires Unescape(text[i + 1..k], q) == content
    ensures ScanString(text, i) == Emit(MakeToken(String, content, i), k + 1)
  {
  }

  /** One scanner step over a piece written at `i` and not glued to what follows. */
  lemma ScanPiece(text: string, i: nat, p: Piece, builtins: seq<string>)
    requires WellFormed(p)
    requires i + |Render(p)| <= |text| && text[i..i + |Render(p)|] == Render(p)
    requires NotGlued(p, text[i + |Render(p)|..])
    ensures p.Blank? ==> ScanAt(text, i, builtins) == Skip(i + 1)
    ensures !p.Blank? ==> ScanAt(text, i, builtins) == Emit(PieceToken(p, i, builtins), i + |Render(p)|)
  {
    match p
    case Blank(c) => assert text[i] == c;
    case Op(kind) => ScanOpPiece(text, i, kind, builtins);
    case Word(w) => ScanWordPiece(text, i, w, builtins);
    case Num(minus, whole, fraction) => ScanNumPiece(text, i, minus, whole, fraction, builtins);
    case Str(q, s) =>
      ScanStrPiece(text, i, q, s);
      ScanAtQuote(text, i, builtins);
  }

  /** One step of the lexing loop over a piece written at `i` and ending before `next`. */
  lemma LexStep(text: string, i: nat, next: nat, p: Piece, builtins: seq<string>)
    requires WellFormed(p) && next == i + |Render(p)|
    requires next <= |text| && text[i..next] == Render(p)
    requires NotGlued(p, text[next..])
    ensures LexFrom(text, i, builtins) == Prepend(HeadTokens(p, i, builtins), LexFrom(text, next, builtins))
  {
    ScanPiece(text, i, p, builtins);
    if p.Blank? {
      LexSkip(text, i, builtins);
      PrependNothing(LexFrom(text, next, builtins));
    } else {
      LexEmit(text, i, builtins, PieceToken(p, i, builtins), next);
    }
  }

  /** A skipped character contributes nothing. */
  lemma LexSkip(text: string, i: nat, builtins: seq<string>)
    requires i < |text| && ScanAt(text, i, builtins) == Skip(i + 1)
    ensures LexFrom(text, i, builtins) == LexFrom(text, i + 1, builtins)
  {
  }

  /** An emitted token comes first. */
  lemma LexEmit(text: string, i: nat, builtins: seq<string>, t: Token, n: nat)
    requires i < n <= |text| && ScanAt(text, i, builtins) == Emit(t, n)
    ensures LexFrom(text, i, builtins) == Prepend([t], LexFrom(text, n, builtins))
  {
  }

  /** The text of a run of pieces splits into its first piece and the rest. */
  lemma SplitRun(text: string, i: nat, mid: nat, end: nat, ps: seq<Piece>)
    requires ps != [] && mid == i + |Render(ps[0])| && end == i + |RenderAll(ps)|
    requires end <= |text| && text[i..end] == RenderAll(ps)
    ensures end == mid + |RenderAll(ps[1..])|
    ensures text[i..mid] == Render(ps[0]) && text[mid..end] == RenderAll(ps[1..])
    ensures text[mid..] == RenderAll(ps[1..]) + text[end..]
  {
    SplitSlice(text, i, mid, end, Render(ps[0]), RenderAll(ps[1..]));
  }

  /** A slice holding `a + b` splits at the end of `a`. */
  lemma SplitSlice(text: string, i: nat, mid: nat, end: nat, a: string, b: string)
    requires mid == i + |a| && end == mid + |b| && end <= |text| && text[i..end] == a + b
    ensures text[i..mid] == a && text[mid..end] == b
    ensures text[mid..] == b + text[end..]
  {
    SliceAt(text, i, a, b);
    assert text[mid..] == text[mid..end] + text[end..];
  }

  /** The inductive step of `LexPieces`: the first piece, then the rest. */
  lemma LexPiecesCons(text: string, i: nat, mid: nat, end: nat, ps: seq<Piece>, builtins: seq<string>)
    requires ps != [] && mid == i + |Render(ps[0])| && mid <= end <= |text|
    requires forall k :: 0 <= k < |ps| ==> WellFormed(ps[k])
    requires text[i..mid] == Render(ps[0]) && NotGlued(ps[0], text[mid..])
    requires LexFrom(text, mid, builtins) == Prepend(TokensOf(ps[1..], mid, builtins), LexFrom(text, end, builtins))
    ensures LexFrom(text, i, builtins) == Prepend(TokensOf(ps, i, builtins), LexFrom(text, end, builtins))
  {
    LexStep(text, i, mid, ps[0], builtins);
    PrependPieces(ps, i, builtins, LexFrom(text, end, builtins));
  }

  /** The tokens of a run of pieces, put in front of a result: the first
      piece's, then the rest's. */
  lemma PrependPieces(ps: seq<Piece>, i: nat, builtins: seq<string>, r: Result<seq<Token>>)
    requires |ps| > 0 && forall k :: 0 <= k < |ps| ==> WellFormed(ps[k])
    ensures Prepend(TokensOf(ps, i, builtins), r)
      == Prepend(HeadTokens(ps[0], i, builtins), Prepend(TokensOf(ps[1..], i + |Render(ps[0])|, builtins), r))
  {
    if r.Ok? {
      Assoc(HeadTokens(ps[0], i, builtins), TokensOf(ps[1..], i + |Render(ps[0])|, builtins), r.value);
    }
  }

  /** Lexing a run of pieces written from `i` to `end` yields their tokens, then goes on at `end`. */
  lemma {:induction false} LexPieces(text: string, i: nat, end: nat, ps: seq<Piece>, builtins: seq<string>)
    requires end == i + |RenderAll(ps)| && end <= |text| && text[i..end] == RenderAll(ps)
    requires Fits(ps, text[end..])
    ensures forall k :: 0 <= k < |ps| ==> WellFormed(ps[k])
    ensures LexFrom(text, i, builtins) == Prepend(TokensOf(ps, i, builtins), LexFrom(text, end, builtins))
    decreases |ps|
  {
    FitsWellFormed(ps, text[end..]);
    if ps == [] {
      PrependNothing(LexFrom(text, i, builtins));
    } else {
      var mid := i + |Render(ps[0])|;
      SplitRun(text, i, mid, end, ps);
      LexPieces(text, mid, end, ps[1..], builtins);
      LexPiecesCons(text, i, mid, end, ps, builtins);
    }
  }

  lemma PrependNothing(r: Result<seq<Token>>)
    ensures Prepend([], r) == r
  {
    if r.Ok? { assert [] + r.value == r.value; }
  }

  /** Round trip: a query written out from fitting pieces lexes to exactly their tokens. */
  lemma LexRendered(ps: seq<Piece>, builtins: seq<string>)
    requires Fits(ps, "")
    ensures forall k :: 0 <= k < |ps| ==> WellFormed(ps[k])
    ensures Lex(RenderAll(ps), builtins) == Ok(TokensOf(ps, 0, builtins))
  {
    var text := RenderAll(ps);
    assert text[0..|text|] == text && text[|text|..] == "";
    LexPieces(text, 0, |text|, ps, builtins);
    assert TokensOf(ps, 0, builtins) + [] == TokensOf(ps, 0, builtins);
  }

  // ---- describing a query by its pieces, part by part ----

  /** `ps` writes out `text`, fits before `after`, and stands for tokens of types `kinds`. */
  predicate Describes(ps: seq<Piece>, text: string, after: string, builtins: seq<string>, kinds: seq<TokenType>) {
    RenderAll(ps) == text && FitsLocally(ps, after) && PieceKinds(ps, builtins) == kinds
  }

  lemma {:induction false} RenderAllAppend(a: seq<Piece>, b: seq<Piece>)
    ensures RenderAll(a + b) == RenderAll(a) + RenderAll(b)
  {
    if a == [] {
      assert a + b == b;
    } else {
      ConsAppend(a, b);
      RenderAllAppend(a[1..], b);
      Assoc(Render(a[0]), RenderAll(a[1..]), RenderAll(b));
    }
  }

  lemma {:induction false} PieceKindsAppend(a: seq<Piece>, b: seq<Piece>, builtins: seq<string>)
    ensures PieceKinds(a + b, builtins) == PieceKinds(a, builtins) + PieceKinds(b, builtins)
  {
    if a == [] {
      assert a + b == b;
    } else {
      ConsAppend(a, b);
      PieceKindsAppend(a[1..], b, builtins);
      var h := if a[0].Blank? then [] else [PieceKind(a[0], builtins)];
      Assoc(h, PieceKinds(a[1..], builtins), PieceKinds(b, builtins));
    }
  }

  lemma {:induction false} PieceLexemesAppend(a: seq<Piece>, b: seq<Piece>)
    requires forall k :: 0 <= k < |a| ==> WellFormed(a[k])
    requires forall k :: 0 <= k < |b| ==> WellFormed(b[k])
    ensures PieceLexemes(a + b) == PieceLexemes(a) + PieceLexemes(b)
  {
    if a == [] {
      assert a + b == b;
    } else {
      ConsAppend(a, b);
      PieceLexemesAppend(a[1..], b);
      var h := if a[0].Blank? then [] else [PieceLexeme(a[0])];
      Assoc(h, PieceLexemes(a[1..]), PieceLexemes(b));
    }
  }

  /** There is one lexeme per token type. */
  lemma {:induction false} PieceLexemesLength(ps: seq<Piece>, builtins: seq<string>)
    requires forall k :: 0 <= k < |ps| ==> WellFormed(ps[k])
    ensures |PieceLexemes(ps)| == |PieceKinds(ps, builtins)|
  {
    if ps != [] {
      PieceLexemesLength(ps[1..], builtins);
    }
  }

  lemma {:induction false} FitsLocallyAppend(a: seq<Piece>, b: seq<Piece>, after: string)
    requires b != [] && WellFormed(b[0]) && FitsLocally(a, [First(b[0])]) && FitsLocally(b, after)
    ensures FitsLocally(a + b, after)
    decreases |a|
  {
    var ab := a + b;
    if a == [] {
      assert ab == b;
    } else {
      ConsAppend(a, b);
      if |a| == 1 {
        assert a[1..] + b == b;
        assert (a + b)[1] == b[0];
      } else {
        FitsLocallyAppend(a[1..], b, after);
        assert (a + b)[1] == a[1];
      }
      FitsLocallyCons(ab, after);
    }
  }

  lemma FitsLocallyCons(x: seq<Piece>, after: string)
    requires |x| >= 2 && WellFormed(x[0]) && WellFormed(x[1]) && !Glues(x[0], First(x[1]))
    requires FitsLocally(x[1..], after)
    ensures FitsLocally(x, after)
  {
  }

  /** Two described runs written one after the other describe their concatenation. */
  lemma DescribesAppend(a: seq<Piece>, b: seq<Piece>, ta: string, tb: string, after: string,
                        builtins: seq<string>, ka: seq<TokenType>, kb: seq<TokenType>)
    requires b != [] && WellFormed(b[0])
    requires Describes(a, ta, [First(b[0])], builtins, ka) && Describes(b, tb, after, builtins, kb)
    ensures Describes(a + b, ta + tb, after, builtins, ka + kb)
  {
    RenderAllAppend(a, b);
    PieceKindsAppend(a, b, builtins);
    FitsLocallyAppend(a, b, after);
  }

  /** A string literal whose content holds no quote of its kind, on its own. */
  lemma DescribesQuoted(q: char, s: string, text: string, after: string, builtins: seq<string>)
    requires IsQuote(q) && q !in s && (s == [] || s[|s| - 1] != '\\')
    requires text == [q] + s + [q]
    ensures Describes([Str(q, s)], text, after, builtins, [String])
  {
    EscapeNoQuote(s, q);
    assert RenderAll([Str(q, s)]) == Render(Str(q, s)) + RenderAll([]);
  }

  /** A word followed by one blank. */
  lemma DescribesWordBlank(w: string, c: char, text: string, after: string, builtins: seq<string>, kind: TokenType)
    requires WellFormed(Word(w)) && IsBlank(c) && !IsIdentChar(c)
    requires text == w + [c] && kind == Classify(w, builtins)
    ensures Describes([Word(w), Blank(c)], text, after, builtins, [kind])
  {
    var ps := [Word(w), Blank(c)];
    assert ps[1..] == [Blank(c)] && ps[1..][1..] == [];
    assert RenderAll(ps) == w + ([c] + RenderAll([]));
    assert PieceKinds(ps, builtins) == [kind] + ([] + PieceKinds([], builtins));
  }

  /** The token types of a query described by fitting pieces. */
  lemma LexKinds(text: string, ps: seq<Piece>, builtins: seq<string>, kinds: seq<TokenType>)
    requires Describes(ps, text, "", builtins, kinds)
    ensures Lex(text, builtins).Ok? && Kinds(Lex(text, builtins).value) == kinds
    ensures Groups(Lex(text, builtins).value) == GroupsOf(kinds)
    ensures forall k :: 0 <= k < |ps| ==> WellFormed(ps[k])
    ensures Lexemes(Lex(text, builtins).value) == PieceLexemes(ps)
  {
    FitsLocallyFits(ps, "");
    LexRendered(ps, builtins);
    KindsOfPieces(ps, 0, builtins);
    LexGrouped(text, 0, builtins);
    GroupsByKinds(Lex(text, builtins).value);
    LexemesOfPieces(ps, 0, builtins);
  }

  /** The pieces a query is described by are well-formed. */
  lemma DescribesWellFormed(ps: seq<Piece>, text: string, after: string, builtins: seq<string>, kinds: seq<TokenType>)
    requires Describes(ps, text, after, builtins, kinds)
    ensures forall k :: 0 <= k < |ps| ==> WellFormed(ps[k])
  {
    FitsLocallyFits(ps, after);
    FitsWellFormed(ps, after);
  }

  /** The lexeme of the `k`-th token of a described query: the `k`-th piece lexeme. */
  lemma LexemeAt(text: string, ps: seq<Piece>, builtins: seq<string>, kinds: seq<TokenType>, k: nat)
    requires Describes(ps, text, "", builtins, kinds) && k < |kinds|
    ensures Lex(text, builtins).Ok? && k < |Lex(text, builtins).value|
    ensures forall m :: 0 <= m < |ps| ==> WellFormed(ps[m])
    ensures k < |PieceLexemes(ps)| && Lex(text, builtins).value[k].lexeme == PieceLexemes(ps)[k]
  {
    LexKinds(text, ps, builtins, kinds);
    PieceLexemesLength(ps, builtins);
    LexemesIndex(Lex(text, builtins).value);
  }

  /** A word not starting with 'p' is not a path. */
  lemma NotPathPrefix(w: string)
    requires w != [] && w[0] != 'p'
    ensures !(|w| >= 5 && w[..5] == "path.")
  {
    if |w| >= 5 { assert w[..5][0] == w[0]; }
  }

  lemma {:induction false} EscapeAppend(a: string, b: string, q: char)
    ensures Escape(a + b, q) == Escape(a, q) + Escape(b, q)
  {
    if a == [] {
      assert a + b == b;
    } else {
      ConsAppend(a, b);
      EscapeAppend(a[1..], b, q);
      var h := if a[0] == q then ['\\', q] else [a[0]];
      Assoc(h, Escape(a[1..], q), Escape(b, q));
    }
  }

  /** Escaping a content with two quotes in it puts a backslash before each. */
  lemma EscapeTwoQuotes(a: string, b: string, c: string, q: char)
    requires q !in a && q !in b && q !in c
    ensures Escape(a + ([q] + (b + ([q] + c))), q) == a + (['\\', q] + (b + (['\\', q] + c)))
  {
    EscapeAppend(a, [q] + (b + ([q] + c)), q);
    EscapeAppend([q], b + ([q] + c), q);
    EscapeAppend(b, [q] + c, q);
    EscapeAppend([q], c, q);
    EscapeNoQuote(a, q);
    EscapeNoQuote(b, q);
    EscapeNoQuote(c, q);
    assert Escape([q], q) == ['\\', q] + Escape([], q);
  }

  /** Content without the quote character is written as it is. */
  lemma {:induction false} EscapeNoQuote(s: string, q: char)
    requires q !in s
    ensures Escape(s, q) == s
  {
    if s != [] {
      EscapeNoQuote(s[1..], q);
    }
  }

  /** Fail-fast: after fitting pieces, the first rejecting step is the result of the whole lexing. */
  lemma LexRejectsAfter(text: string, ps: seq<Piece>, builtins: seq<string>, e: ParserMessage)
    requires |RenderAll(ps)| < |text| && text[..|RenderAll(ps)|] == RenderAll(ps)
    requires Fits(ps, text[|RenderAll(ps)|..])
    requires ScanAt(text, |RenderAll(ps)|, builtins) == Reject(e)
    ensures Lex(text, builtins) == Err(ParserError(e))
  {
    var n := |RenderAll(ps)|;
    assert text[0..n] == text[..n];
    LexPieces(text, 0, n, ps, builtins);
  }

  /** Every token of a successful lexing has the group of its type, lies inside the
      text after the previous one, and, unless it is a string, is the text at its position. */
  lemma {:induction false} LexTokensInText(text: string, i: nat, builtins: seq<string>)
    requires i <= |text| && LexFrom(text, i, builtins).Ok?
    ensures InText(text, i, LexFrom(text, i, builtins).value)
    decreases |text| - i
  {
    if i < |text| {
      match ScanAt(text, i, builtins)
      case Skip(n) =>
        LexSkip(text, i, builtins);
        LexTokensInText(text, n, builtins);
      case Emit(t, n) =>
        LexEmit(text, i, builtins, t, n);
        LexTokensInText(text, n, builtins);
        InTextCons(text, i, n, t, LexFrom(text, n, builtins).value);
    }
  }

  /** Tokens lying in `text` from `i` on, in order, well grouped, and each
      (but a string's) spelled as written. */
  predicate InText(text: string, i: nat, ts: seq<Token>) {
    && WellGrouped(ts)
    && (forall k :: 0 <= k < |ts| ==> i <= ts[k].position < |text|)
    && (forall k, l :: 0 <= k < l < |ts| ==> ts[k].position < ts[l].position)
    && (forall k :: 0 <= k < |ts| && ts[k].kind != String ==>
          ts[k].position + |ts[k].lexeme| <= |text|
          && text[ts[k].position..ts[k].position + |ts[k].lexeme|] == ts[k].lexeme)
  }

  lemma InTextCons(text: string, i: nat, n: nat, t: Token, rest: seq<Token>)
    requires i < n <= |text| && t.position == i && t.group == GroupOf(t.kind)
    requires t.kind != String ==> t.lexeme == text[i..n]
    requires InText(text, n, rest)
    ensures InText(text, i, [t] + rest)
  {
    GroupedCons(t, rest);
    PositionsCons(text, i, n, t, rest);
    OrderedCons(t, rest);
    SpelledCons(text, i, n, t, rest);
  }

  lemma PositionsCons(text: string, i: nat, n: nat, t: Token, rest: seq<Token>)
    requires i < n <= |text| && t.position == i
    requires forall k :: 0 <= k < |rest| ==> n <= rest[k].position < |text|
    ensures var ts := [t] + rest;
      forall k :: 0 <= k < |ts| ==> i <= ts[k].position < |text|
  {
    var ts := [t] + rest;
    assert forall k :: 1 <= k < |ts| ==> ts[k] == rest[k - 1];
  }

  lemma OrderedCons(t: Token, rest: seq<Token>)
    requires forall k :: 0 <= k < |rest| ==> t.position < rest[k].position
    requires forall k, l :: 0 <= k < l < |rest| ==> rest[k].position < rest[l].position
    ensures var ts := [t] + rest;
      forall k, l :: 0 <= k < l < |ts| ==> ts[k].position < ts[l].position
  {
    var ts := [t] + rest;
    assert forall k :: 1 <= k < |ts| ==> ts[k] == rest[k - 1];
  }

  lemma SpelledCons(text: string, i: nat, n: nat, t: Token, rest: seq<Token>)
    requires i < n <= |text| && t.position == i
    requires t.kind != String ==> t.lexeme == text[i..n]
    requires forall k :: 0 <= k < |rest| && rest[k].kind != String ==>
      rest[k].position + |rest[k].lexeme| <= |text|
      && text[rest[k].position..rest[k].position + |rest[k].lexeme|] == rest[k].lexeme
    ensures var ts := [t] + rest;
      forall k :: 0 <= k < |ts| && ts[k].kind != String ==>
        ts[k].position + |ts[k].lexeme| <= |text|
        && text[ts[k].position..ts[k].position + |ts[k].lexeme|] == ts[k].lexeme
  {
    var ts := [t] + rest;
    assert forall k :: 1 <= k < |ts| ==> ts[k] == rest[k - 1];
  }
}
