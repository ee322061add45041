# fiveorbs/cms: the node finder, its lexer and order compiler, fields, values, nodes and configuration

This project is a Dafny model of the core of the fiveorbs/cms content
management system, written in PHP. It covers these parts:

- **Order compiler** (`OrderCompiler`). It turns a comma-separated order
  statement such as `title desc, changed` into an SQL `ORDER BY` fragment.
  A builtin name maps to its column. Any other name is compiled by a JSON
  accessor into an expression over the node's content.
- **Query lexer** (`QueryLexer`). It splits a finder filter into typed
  tokens, each with a lexeme, a position and a group: fields, paths,
  builtins, keywords, literals, comparison and boolean operators, and
  parentheses. Its errors are unterminated strings, invalid operators,
  invalid numbers and syntax errors. The lexer's own source is not part of
  this model. Its behaviour is designed from the lexer's test file, and
  every test vector of that file is a lemma.
- **Node query builder** (`Finder\Nodes`). It collects a compiled filter, a
  type condition, an order, a limit and the published or deleted
  restrictions. From these it builds the parameters of the node query.
- **Fields** (`Field\Field`): a field's fluent setters, its checked getters,
  its validators, its array form and its value structures.
- **Text values** (`Value\Text`): a text resolved once along the locale
  fallback chain and then remembered.
- **Nodes** (`Node`): a node class's grid width, class name, name and
  template; a node's url path along the locale chain; its field lookup.
- **Configuration** (`Config`): the admin panel's url prefix and the
  registry of node types.
- **The plugin** (`Cms`): the registration of sections, collections, node
  classes and renderers, and the directories of the database connection.

Operations that change an object in place are class methods with
`modifies` clauses. Loops in the source are `while` loops with invariants.
Each method is proved against a specification function, and the
properties the source promises are lemmas about those functions.
Collaborators of the source become function-typed parameters. These are
the QueryCompiler for filters, the JSON accessor, `db->quote`, the
`class_exists`/`is_subclass_of` test, a class's `handle()` and the
`Renderer` interface test.

Modules: `Errors` (results and error kinds), `Strings` (PHP string helpers
as used), `OrderCompiler`, `QueryLexer`, `QueryLexerLemmas`,
`QueryLexerTests`, `Finder`, `Fields`, `Values`, `Node`, `Configuration`,
`CmsPlugin`.

## Model

| member | source | states |
|---|---|---|
| OrderCompiler.SkipSpaces | src/Finder/OrderCompiler.php:52 | the end of the run of `\s` characters starting at i: everything skipped is a regex space and the next character is not |
| OrderCompiler.NameEnd | src/Finder/OrderCompiler.php:52 | the end of the longest run of `[a-zA-Z0-9._]` characters from i |
| OrderCompiler.SkipSpacesUnique | src/Finder/OrderCompiler.php:52 | any end with those two properties is the one SkipSpaces finds, so the greedy `\s*` has a unique meaning |
| OrderCompiler.NameEndUnique | src/Finder/OrderCompiler.php:52 | any end with those two properties is the one NameEnd finds |
| OrderCompiler.DirectionWordLetters | src/Finder/OrderCompiler.php:52 | a direction word matched case-insensitively (`asc`/`desc`) is 3 or 4 ASCII letters |
| OrderCompiler.UpperOfDirection | src/Finder/OrderCompiler.php:59 | upper-casing a matched direction word gives exactly "ASC" or "DESC" |
| OrderCompiler.MatchClauseSound | src/Finder/OrderCompiler.php:52-60 | a clause recognised by the scanner has a split of the text into spaces, name, spaces, optional direction and spaces that the pattern describes; the captured name and the upper-cased direction (ASC when absent) are the clause |
| OrderCompiler.MatchCharacters | src/Finder/OrderCompiler.php:52 | every character of a pattern match lies in the class its part of the pattern demands |
| OrderCompiler.MatchClauseAt | src/Finder/OrderCompiler.php:52-56 | a letter after the leading spaces and a direction (or nothing) after the name is a match |
| OrderCompiler.CompleteAtNameEnd | src/Finder/OrderCompiler.php:52 | a pattern match whose name ends where the greedy name ends is recognised |
| OrderCompiler.CompleteRunOn | src/Finder/OrderCompiler.php:52 | a pattern match whose name stops before the greedy name end is recognised too, because the rest of the name run is then all direction letters |
| OrderCompiler.MatchClauseComplete | src/Finder/OrderCompiler.php:52-56 | every text the anchored pattern `^\s*([a-zA-Z][a-zA-Z0-9._]*)\s*(asc\|desc)?\s*$` matches is recognised |
| OrderCompiler.MatchClauseCorrect | src/Finder/OrderCompiler.php:52-56 | a clause is recognised if and only if the pattern matches it |
| OrderCompiler.Matches | src/Finder/OrderCompiler.php:51-56 | one match attempt per comma-separated piece, in order, each on the trimmed piece |
| OrderCompiler.Collect | src/Finder/OrderCompiler.php:55-66 | the clauses in order when every piece matched; otherwise the "Invalid query" parser error |
| OrderCompiler.MatchesMeaning | src/Finder/OrderCompiler.php:55-56 | a piece's match succeeds exactly when the pattern matches the trimmed piece |
| OrderCompiler.CollectMeaning | src/Finder/OrderCompiler.php:55-66 | collecting succeeds exactly when every piece matches the pattern, with one clause per piece |
| OrderCompiler.ParseResultMeaning | src/Finder/OrderCompiler.php:49-67 | `parse` succeeds if and only if every comma-separated piece matches the pattern; it then gives one clause per piece, at least one; otherwise it is "Invalid query" |
| OrderCompiler.EmptyClauseRejected | src/Finder/OrderCompiler.php:51-63 | an empty piece, as in `a,,b` or a trailing comma, makes the whole statement "Invalid query" |
| OrderCompiler.Entries | src/Finder/OrderCompiler.php:31-40 | one expression per clause, in order: the builtin's column, or the JSON accessor on `p.content`, followed by the direction |
| OrderCompiler.Compiler.constructor | src/Finder/OrderCompiler.php:13-15 | the compiler keeps the builtins and the accessor it is given; the builtins default to none |
| OrderCompiler.Compiler.Parse | src/Finder/OrderCompiler.php:49-67 | the loop over the pieces gives exactly the parse result that ParseResultMeaning characterises |
| OrderCompiler.Compiler.Expressions | src/Finder/OrderCompiler.php:29-40 | the loop over the clauses gives exactly their expressions |
| OrderCompiler.Compiler.Compile | src/Finder/OrderCompiler.php:17-47 | `compile` gives the specified result: an error, or the ORDER BY fragment |
| OrderCompiler.CompiledErrors | src/Finder/OrderCompiler.php:17-27 | a blank statement (after trimming, "" or "0") is "Empty order by clause"; otherwise compiling succeeds if and only if every piece matches; every other failure is "Invalid query" |
| OrderCompiler.CompiledEntries | src/Finder/OrderCompiler.php:31-46 | a successful result is the header "\nORDER BY\n    " followed by one entry per comma-separated piece, joined by ",\n    " |
| OrderCompiler.CompiledIsOrderBy | src/Finder/OrderCompiler.php:25-27 | a successful result is never empty and always starts with the ORDER BY header |
| QueryLexer.IdentEnd | tests/QueryLexerTest.php:15-22 | the end of the run of identifier characters from j |
| QueryLexer.DigitsEnd | tests/QueryLexerTest.php:77-80 | the end of the run of digits from j |
| QueryLexer.StringEnd | tests/QueryLexerTest.php:42-65 | the closing quote's index, which holds the quote, or that the string is unclosed |
| QueryLexer.ScanOperator | tests/QueryLexerTest.php:67-70 | an emitted operator token starts at i, carries the group of its kind and spells text[i..next] |
| QueryLexer.ScanString | tests/QueryLexerTest.php:24-65 | an emitted token is a String token that starts at the opening quote and carries the group of its kind |
| QueryLexer.ScanNumber | tests/QueryLexerTest.php:77-80 | an emitted number token starts at i and spells text[i..next] |
| QueryLexer.ScanWord | tests/QueryLexerTest.php:15-22 | a word is always emitted, covers text[i..next] and is its own lexeme |
| QueryLexer.ScanAt | tests/QueryLexerTest.php:15-87 | a blank is skipped one character at a time; an emitted token starts at i; every token except a string has its text as its lexeme |
| QueryLexer.Tokens | tests/QueryLexerTest.php:15-240 | the scanning loop gives the lexer's result, and every token's group is that of its kind |
| QueryLexer.PrependTwice | tests/QueryLexerTest.php:15-22 | prepending two token runs to a result is prepending their concatenation |
| QueryLexerLemmas.UnescapeEscape | tests/QueryLexerTest.php:42-60 | unescaping an escaped string gives the string back (round trip) |
| QueryLexerLemmas.StringEndMissing | tests/QueryLexerTest.php:62-65 | without a closing quote the string is unclosed |
| QueryLexerLemmas.EscapeTwoQuotes | tests/QueryLexerTest.php:42-60 | escaping a string with two quotes inserts exactly two backslashes |
| QueryLexerLemmas.ScanPiece | tests/QueryLexerTest.php:15-60 | scanning where a well-formed piece is rendered emits that piece's token and resumes after it |
| QueryLexerLemmas.LexPieces | tests/QueryLexerTest.php:15-60 | lexing text rendered from pieces gives exactly the pieces' tokens, the blanks dropped |
| QueryLexerLemmas.LexRendered | tests/QueryLexerTest.php:15-60 | lexing rendered text gives the tokens of the pieces (round trip) |
| QueryLexerLemmas.LexKinds | tests/QueryLexerTest.php:15-60 | text described by pieces lexes, with the pieces' kinds, lexemes and groups |
| QueryLexerLemmas.LexRejectsAfter | tests/QueryLexerTest.php:62-87 | text that lexes up to a character the scanner rejects fails with that error |
| QueryLexerLemmas.LexTokensInText | tests/QueryLexerTest.php:15-60 | every token lies inside the text, tokens come in order of position, and every token other than a string spells its text |
| QueryLexerLemmas.LexGrouped | tests/QueryLexerTest.php:144-191 | every token produced carries the group of its kind |
| QueryLexerLemmas.GroupsByKinds | tests/QueryLexerTest.php:144-191 | on well-grouped tokens the groups follow from the kinds |
| QueryLexerTests.SimpleQuery | tests/QueryLexerTest.php:15-22 | `field = test` lexes to Field, Equal, Field |
| QueryLexerTests.SingleQuotedQuery | tests/QueryLexerTest.php:24-31 | a single-quoted string is one String token |
| QueryLexerTests.DoubleQuotedQuery | tests/QueryLexerTest.php:33-40 | a double-quoted string is one String token |
| QueryLexerTests.SingleQuotedEscapeQuery | tests/QueryLexerTest.php:42-50 | escaped single quotes are kept unescaped in the lexeme; double quotes inside are literal |
| QueryLexerTests.DoubleQuotedEscapeQuery | tests/QueryLexerTest.php:52-60 | escaped double quotes are kept unescaped in the lexeme; single quotes inside are literal |
| QueryLexerTests.UnterminatedStringQuery | tests/QueryLexerTest.php:62-65 | an unclosed string is "Unterminated string" |
| QueryLexerTests.InvalidOperatorQuery | tests/QueryLexerTest.php:67-70 | `field !- test`, a `!` followed by neither `=` nor `~`, is "Invalid operator" |
| QueryLexerTests.SyntaxErrorQuery | tests/QueryLexerTest.php:72-75 | a stray character is "Syntax error" |
| QueryLexerTests.InvalidNumberQuery | tests/QueryLexerTest.php:77-80 | `field = 10.`, a number whose dot has no digits after it, is "Invalid number" |
| QueryLexerTests.MinusQuery | tests/QueryLexerTest.php:82-87 | a minus not followed by a digit is "Syntax error" |
| QueryLexerTests.GroupedOrQuery | tests/QueryLexerTest.php:89-112 | the query with a parenthesised `\|` lexes to the test's 13 kinds |
| QueryLexerTests.NestedQuery | tests/QueryLexerTest.php:114-142 | the nested query lexes to the test's 17 kinds |
| QueryLexerTests.AllElementsQuery | tests/QueryLexerTest.php:144-240 | the query with every element lexes to the test's 43 kinds, with the test's groups |
| Finder.TypeTests | src/Finder/Nodes.php:160-166 | one condition per type, in order |
| Finder.JoinedPartsOccur | src/Finder/Nodes.php:171-173 | every part of a joined list occurs in the join |
| Finder.OccursInside | src/Finder/Nodes.php:170-173 | a condition that occurs in a list still occurs when the layout's prefix and suffix are added |
| Finder.TypesLayoutTestsEveryType | src/Finder/Nodes.php:156-175 | the type condition is empty exactly when no type is given, and it contains the test for every type given |
| Finder.TypeTestColumn | src/Finder/Nodes.php:161-165 | a type is compared on `t.classname` exactly when it is a node class, and on `t.name` otherwise |
| Finder.NonEmpty | src/Finder/Nodes.php:137-140 | `array_filter` keeps exactly the non-empty parts, and keeps parts that are all non-empty unchanged |
| Finder.NonEmptyKeepsOrder | src/Finder/Nodes.php:137-140 | filtering keeps order: the filter of two runs of parts is the first run's filter followed by the second's |
| Finder.SingleType | src/Finder/Nodes.php:59-64 | `type(t)` lays out the single condition as "    " followed by its test |
| Finder.OrderWithoutArguments | src/Finder/Nodes.php:66-69 | `order()` with no arguments fails as an empty order by clause |
| Finder.OrderArgumentsAreClauses | src/Finder/Nodes.php:69 | arguments without commas are split back into exactly themselves, so each one is a clause |
| Finder.ConditionParts | src/Finder/Nodes.php:137-140 | the query condition is both trimmed parts joined by " AND " when both are set, the one that is set alone, and "" when neither is |
| Finder.OrderParamIsOrderBy | src/Finder/Nodes.php:149-151 | a set order parameter is an ORDER BY fragment |
| Finder.Nodes.constructor | src/Finder/Nodes.php:15-42 | a new builder has no conditions, no order and no limit; it shows only published, undeleted nodes |
| Finder.Nodes.Filter | src/Finder/Nodes.php:44-50 | the compiled filter becomes the field condition; a compile error is passed on and changes nothing; the rest of the state is unchanged |
| Finder.Nodes.TypesCondition | src/Finder/Nodes.php:156-175 | the loop gives the type tests laid out by their number: nothing, one indented test, or the tests joined by OR inside parentheses |
| Finder.Nodes.Types | src/Finder/Nodes.php:52-57 | replaces the type condition and nothing else |
| Finder.Nodes.Type | src/Finder/Nodes.php:59-64 | replaces the type condition with the one for a single type |
| Finder.Nodes.Order | src/Finder/Nodes.php:66-72 | the arguments joined by ',' are compiled into the order; a compile error is passed on and leaves the order as it was |
| Finder.Nodes.Limit | src/Finder/Nodes.php:74-79 | sets the limit and nothing else |
| Finder.Nodes.Published | src/Finder/Nodes.php:81-86 | sets or drops the published restriction and nothing else |
| Finder.Nodes.Deleted | src/Finder/Nodes.php:88-93 | sets or drops the deleted restriction and nothing else |
| Finder.Nodes.Params | src/Finder/Nodes.php:137-151 | the condition is the trimmed field and type conditions joined by " AND " when both are set, the one that is set, or ""; the restrictions and the limit are the builder's; the order is present exactly when it is set |
| Fields.FirstIndex | src/Field/Field.php:89 | the first position of an element |
| Fields.Unique | src/Field/Field.php:89 | `array_values(array_unique(...))`: no duplicates, the same elements, never longer |
| Fields.FirstIndexSnoc | src/Field/Field.php:89 | appending leaves the first positions of the elements already present unchanged |
| Fields.UniqueKeepsFirstOccurrenceOrder | src/Field/Field.php:89 | the unique validators come in the order of their first occurrence |
| Fields.Field.constructor | src/Field/Field.php:14-29 | a new field has no label, description, width, rows or weight, is not translated and has no validators |
| Fields.Field.Label | src/Field/Field.php:44-49 | sets the label and nothing else |
| Fields.Field.Description | src/Field/Field.php:56-61 | sets the description and nothing else |
| Fields.Field.Required | src/Field/Field.php:68-78 | appends `required` to the validators, so the field is required afterwards |
| Fields.Field.Validate | src/Field/Field.php:80-85 | appends the validators in order; a required field stays required |
| Fields.Field.Validators | src/Field/Field.php:87-90 | the validators without duplicates, none lost; `required` is among them exactly when the field is required |
| Fields.Field.Translate | src/Field/Field.php:92-97 | sets the translate flag, `true` when no argument is given, and nothing else |
| Fields.Field.Fulltext | src/Field/Field.php:104-109 | sets the fulltext weight and nothing else |
| Fields.Field.Width | src/Field/Field.php:116-121 | sets the width, which `getWidth` then gives |
| Fields.Field.GetWidth | src/Field/Field.php:123-126 | the width when set, a TypeError otherwise |
| Fields.Field.Rows | src/Field/Field.php:128-133 | sets the rows, which `getRows` then gives |
| Fields.Field.GetRows | src/Field/Field.php:135-138 | the rows when set, a TypeError otherwise |
| Fields.Field.AsArray | src/Field/Field.php:140-153 | the array form holds the field's state; `required` holds exactly when the validators contain `required` |
| Fields.Field.TranslatableStructure | src/Field/Field.php:165-179 | an untranslated field's value is null; a translated one has a null slot for every locale and for no other key |
| Fields.EmptyStructures | src/Field/Field.php:155-163 | the file and simple structures carry their type with no files and a null value, and they differ |
| Values.ResolveMeaning | src/Value/Text.php:22-39 | the translated value is that of the first locale in the chain with a truthy value, and "" exactly when no locale has one |
| Values.Text.constructor | src/Value/Text.php:9 | a new text has nothing remembered |
| Values.Text.Unwrap | src/Value/Text.php:16-46 | the remembered value if there is one, otherwise the resolved value (the fallback chain, or the default locale's value), which is then remembered; later calls give the same |
| Values.Text.Isset | src/Value/Text.php:64-67 | the value is truthy |
| Values.Text.Json | src/Value/Text.php:59-62 | the value itself |
| Node.Columns | src/Node.php:118-125 | the declared columns when between 12 and 25, otherwise the ValueError |
| Node.LastSegment | src/Node.php:127-130 | the part of the class name after its last backslash: a suffix without backslashes, preceded by one |
| Node.ClassNameIsLastSegment | src/Node.php:127-130 | the class name of `A\B\Name` is `Name` |
| Node.DefaultName | src/Node.php:132-139 | without a declared name, the name is the class name in lower case: as long, with no upper-case letters, and equal up to case |
| Node.TemplateFallsBackToName | src/Node.php:167-174 | the declared template, else the declared name, else the lower-cased class name |
| Node.PathOf | src/Node.php:146-165 | every failure is "No url path found" |
| Node.PathOfMeaning | src/Node.php:146-165 | a path is found exactly when some locale of the chain has one; it is the path of the first such locale |
| Node.Path | src/Node.php:146-165 | the loop along the chain gives PathOf |
| Node.PropertyCallError | src/Node.php:38-52 | calling `value()` on a node property is PHP's Error; for the array properties `list` and `data` it is "Call to a member function value() on array" |
| Node.GetValue | src/Node.php:77-93 | a node's own property passes the `isset` test and then fails with PHP's Error; otherwise NoSuchField exactly for a missing field; the value when it is set, otherwise null |
| Configuration.AsWrittenAcceptsTrailingNewline | src/Config.php:45 | the pattern as written accepts "panel\n", which is not a valid panel path |
| Configuration.AsWrittenDiffersOnlyByNewline | src/Config.php:45 | the pattern as written and the intended check disagree exactly on a valid path followed by one newline |
| Configuration.Config.constructor | src/Config.php:15-18 | the panel path is `panel` and no type is registered |
| Configuration.Config.SetPanelPath | src/Config.php:43-53 | accepts exactly 1 to 32 ASCII letters and digits; anything else is the ValueError and leaves the path as it was |
| Configuration.Config.AddType | src/Config.php:55-64 | a name already registered throws and changes nothing; a new name adds exactly that type, which `type(name)` then finds |
| Configuration.Config.Types | src/Config.php:66-69 | the registry, in which each type is filed under its own name |
| Configuration.Config.TypeOf | src/Config.php:71-74 | the registered type under that name; an unknown name is a TypeError |
| CmsPlugin.Extra | src/Cms.php:112-119 | the caller's directories: none when not given, a single string as a one-element list, or the list itself |
| CmsPlugin.DirList | src/Cms.php:112-119 | the package's directory first, then the caller's directories |
| CmsPlugin.Cms.constructor | src/Cms.php:38-40 | a new plugin has nothing registered and no connection; sessions are disabled unless enabled |
| CmsPlugin.Cms.AddSection | src/Cms.php:78-81 | registers the section under its name, replacing what was there, and changes nothing else |
| CmsPlugin.Cms.AddCollection | src/Cms.php:83-92 | a handle already taken is the RuntimeException and changes nothing; otherwise the class is added under its handle |
| CmsPlugin.Cms.AddNode | src/Cms.php:94-103 | a handle already taken is the RuntimeException and changes nothing; otherwise exactly handle to class is added |
| CmsPlugin.Cms.AddRenderer | src/Cms.php:147-157 | a `Renderer` class is appended and its entry returned; any other class is the RuntimeException and changes nothing |
| CmsPlugin.Cms.Database | src/Cms.php:105-131 | the first call sets the sql and migration directories to the package's own directory followed by the caller's (none by default); because `$connection` is declared readonly (src/Cms.php:30), every later call is PHP's Error "Cannot modify readonly property" and keeps the first directories |

## Left out

- The query compiler for filters (`QueryCompiler`) and the JSON accessor (`CompilesJsonAccessor`) are not part of this model. They are parameters of the context and of the order compiler.
- `db->quote`, `class_exists`/`is_subclass_of`, `$class::handle()` and the `Renderer` interface test are foreign calls. They are uninterpreted function parameters.
- The query lexer's own source is not part of this model. The lexer is designed from the lexer's test file. Backslash escapes only the matching quote; every other backslash is literal. Number forms beyond digits with one optional fraction, and a leading minus, follow the tests only.
- The iteration of `Finder\Nodes` (`rewind`, `current`, `key`, `next`, `valid`) is left out, and so is the database call in `fetchResult`. Both are database I/O. Params models the parameters passed to it.
- `Cms::load`, `collect`, `synchronizeNodes` and `catchallRoute` are application wiring, routing and database synchronisation; they are left out. The `Connection`/`Database` objects built by `database` are left out too: only their directory lists are modelled. The dsn, options and print flag are passed through unchanged.
- The `Config` constructor's calls into the base configuration are left out: the connection, the session settings and the scripts directory. The theme is left out too; it has no setter here. Its declaration `protected string $theme = null;` (src/Config.php:16) gives a non-nullable typed property a null default, which PHP 7.4 and later reject when the class is compiled (not executed).
- `Field`'s plain getters (`getLabel`, `getDescription`, `isTranslatable`, `getFulltextWeight`) read a field and are covered by `Fields.Field.State`. `__toString` and `isset` depend on the abstract `value()` and are left out; so is the abstract `structure()`.
- `Text::__toString` and `Text::strip` apply `htmlspecialchars` and `strip_tags`. These HTML functions are not modelled.
- `Node::__get`, `__isset`, `init`, `title`, `form`, `uid`, `response`, `initFields` and rendering depend on requests, templates or abstract members and are left out. The request's locale as the default for `path` is a parameter: the chain.
- `FulltextWeight` is used by name only.
- Node.LastSegment: a class name ending in a backslash gives "" here, while PHP's `basename` would drop the trailing separator first; PHP class names never end in one.
- PHP integers are 64 bits; the limit, width, rows and columns are unbounded integers here, because the source never computes with them.
- Order names follow the code's pattern `[a-zA-Z][a-zA-Z0-9._]*`: a `-` (as in a locale-qualified path such as `title.de-DE`) is rejected, and a dotted name is passed to the JSON accessor as a whole with no special path handling.
- Node.PathOf: its ensures only fixes the error; what it returns is stated by Node.PathOfMeaning.
- Node.Path: the `error_log(print_r($this->data, true))` before the exception is logging I/O and is not modelled.
- Node.GetValue: `fields` holds the node's field properties only. The object-typed properties (`request`, `config`, `db`, `registry`, `find`) are taken to be instances of their declared classes without a `value()` method; `Request`, `Database`, `Registry` and `Finder` are not part of this model.
- CmsPlugin.Cms.AddRenderer: `Entry` is a value here. PHP returns the same `Entry` object it appends, so a caller's later configuration of the returned entry is what `collect()` registers; that aliasing is not captured.

## Findings

| source | as written | input that shows it | evidently intended | confidence | as-written member | corrected member |
|---|---|---|---|---|---|---|
| src/Config.php:45 | `preg_match('/^[A-Za-z0-9]{1,32}$/', $url)` without the `D` modifier, so `$` also matches before a final newline | "panel\n" | accept only 1 to 32 ASCII letters and digits, with nothing after them | not executed | Configuration.AsWrittenAcceptsTrailingNewline | Configuration.Config.SetPanelPath |
