/** The PHP string built-ins the modelled code relies on: truthiness, `trim`,
    `explode`, `implode`, `strtoupper`/`strtolower`, and the character classes
    of the regular expressions it uses. */
module Strings {

  /** PHP's boolean conversion of a string (`if ($s)`, `empty($s)`, `?:`,
      `array_filter`): only "" and "0" are falsy. */
  predicate Truthy(s: string) {
    s != "" && s != "0"
  }

  predicate IsAsciiLetter(c: char) {
    'a' <= c <= 'z' || 'A' <= c <= 'Z'
  }

  predicate IsDigit(c: char) {
    '0' <= c <= '9'
  }

  /** The characters PHP's `trim` strips by default: " \t\n\r\0\x0B". */
  predicate IsTrimChar(c: char) {
    c == ' ' || c == '\t' || c == '\n' || c == '\r' || c == '\0' || c as int == 11
  }

  /** The PCRE class `\s`: space, \t, \n, \x0B, \f and \r. */
  predicate IsRegexSpace(c: char) {
    c == ' ' || 9 <= c as int <= 13
  }

  predicate AllRegexSpace(s: string) {
    forall i :: 0 <= i < |s| ==> IsRegexSpace(s[i])
  }

  function TrimLeft(s: string): (r: string)
    ensures |r| <= |s| && r == s[|s| - |r|..]
    ensures r != [] ==> !IsTrimChar(r[0])
    ensures forall i :: 0 <= i < |s| - |r| ==> IsTrimChar(s[i])
  {
    if s != [] && IsTrimChar(s[0]) then TrimLeft(s[1..]) else s
  }

  function TrimRight(s: string): (r: string)
    ensures |r| <= |s| && r == s[..|r|]
    ensures r != [] ==> !IsTrimChar(r[|r| - 1])
    ensures forall i :: |r| <= i < |s| ==> IsTrimChar(s[i])
  {
    if s != [] && IsTrimChar(s[|s| - 1]) then TrimRight(s[..|s| - 1]) else s
  }

  /** PHP `trim($s)`: `s` with its leading and trailing trim characters removed. */
  function Trim(s: string): (r: string)
    ensures var a := |s| - |TrimLeft(s)|;
      && a + |r| <= |s| && r == s[a..a + |r|]
      && (forall i :: 0 <= i < a ==> IsTrimChar(s[i]))
      && (forall i :: a + |r| <= i < |s| ==> IsTrimChar(s[i]))
    ensures r != [] ==> !IsTrimChar(r[0]) && !IsTrimChar(r[|r| - 1])
  {
    var l := TrimLeft(s);
    var r := TrimRight(l);
    TrimSlices(s, l, r);
    r
  }

  /** What `Trim` keeps is one slice of `s`, with only trim characters
      around it and none at its ends. */
  lemma TrimSlices(s: string, l: string, r: string)
    requires |l| <= |s| && l == s[|s| - |l|..] && (l != [] ==> !IsTrimChar(l[0]))
    requires forall i :: 0 <= i < |s| - |l| ==> IsTrimChar(s[i])
    requires |r| <= |l| && r == l[..|r|] && (r != [] ==> !IsTrimChar(r[|r| - 1]))
    requires forall i :: |r| <= i < |l| ==> IsTrimChar(l[i])
    ensures var a := |s| - |l|;
      && a + |r| <= |s| && r == s[a..a + |r|]
      && (forall i :: 0 <= i < a ==> IsTrimChar(s[i]))
      && (forall i :: a + |r| <= i < |s| ==> IsTrimChar(s[i]))
    ensures r != [] ==> !IsTrimChar(r[0]) && !IsTrimChar(r[|r| - 1])
  {
    var a := |s| - |l|;
    assert r == s[a..][..|r|];
    forall i | a + |r| <= i < |s| ensures IsTrimChar(s[i]) {
      assert s[i] == l[i - a];
    }
    if r != [] {
      assert r[0] == l[0];
    }
  }

  /** PHP `strtoupper`/`strtolower` (ASCII only, as in PHP 8.2). */
  function UpperChar(c: char): char {
    if 'a' <= c <= 'z' then (c as int - 32) as char else c
  }

  function LowerChar(c: char): char {
    if 'A' <= c <= 'Z' then (c as int + 32) as char else c
  }

  function ToUpper(s: string): (r: string)
    ensures |r| == |s| && forall i :: 0 <= i < |s| ==> r[i] == UpperChar(s[i])
  {
    seq(|s|, i requires 0 <= i < |s| => UpperChar(s[i]))
  }

  function ToLower(s: string): (r: string)
    ensures |r| == |s| && forall i :: 0 <= i < |s| ==> r[i] == LowerChar(s[i])
  {
    seq(|s|, i requires 0 <= i < |s| => LowerChar(s[i]))
  }

  /** Case-insensitive equality of two ASCII strings. */
  predicate EqualsIgnoreCase(a: string, b: string) {
    ToLower(a) == ToLower(b)
  }

  /** PHP `implode(sep, parts)`. */
  function Join(sep: string, parts: seq<string>): string
  {
    if |parts| == 0 then ""
    else if |parts| == 1 then parts[0]
    else parts[0] + sep + Join(sep, parts[1..])
  }

  /** PHP `explode(d, s)`: the pieces of `s` between the occurrences of `d`;
      there is always at least one piece and no piece contains `d`. */
  function Split(s: string, d: char): (parts: seq<string>)
    ensures |parts| >= 1
    ensures forall k :: 0 <= k < |parts| ==> d !in parts[k]
  {
    if |s| == 0 then [""]
    else
      var rest := Split(s[1..], d);
      if s[0] == d then [""] + rest
      else [[s[0]] + rest[0]] + rest[1..]
  }

  /** Splitting and joining again gives back the input. */
  lemma {:induction false} JoinSplit(s: string, d: char)
    ensures Join([d], Split(s, d)) == s
  {
    if |s| > 0 {
      var rest := Split(s[1..], d);
      JoinSplit(s[1..], d);
      if s[0] == d {
        assert Split(s, d) == [""] + rest;
        assert Join([d], [""] + rest) == "" + [d] + Join([d], rest);
      } else {
        var parts := [[s[0]] + rest[0]] + rest[1..];
        assert Split(s, d) == parts;
        if |rest| == 1 {
          assert Join([d], parts) == [s[0]] + rest[0];
        } else {
          assert parts[1..] == rest[1..];
          assert Join([d], parts) == [s[0]] + rest[0] + [d] + Join([d], rest[1..]);
          assert Join([d], rest) == rest[0] + [d] + Join([d], rest[1..]);
        }
      }
    }
  }

  /** A piece without the delimiter is not split. */
  lemma {:induction false} SplitWhole(p: string, d: char)
    requires d !in p
    ensures Split(p, d) == [p]
  {
    if p != [] {
      SplitWhole(p[1..], d);
      assert [p[0]] + p[1..] == p;
    }
  }

  /** A piece without the delimiter, followed by the delimiter, is split off as a whole. */
  lemma {:induction false} SplitAtDelimiter(p: string, rest: string, d: char)
    requires d !in p
    ensures Split(p + ([d] + rest), d) == [p] + Split(rest, d)
  {
    var s := p + ([d] + rest);
    if p == [] {
      assert s == [d] + rest && s[1..] == rest;
    } else {
      assert s[0] == p[0] && s[1..] == p[1..] + ([d] + rest);
      SplitAtDelimiter(p[1..], rest, d);
      var r := [p[1..]] + Split(rest, d);
      assert r[0] == p[1..] && r[1..] == Split(rest, d);
      assert [p[0]] + p[1..] == p;
    }
  }

  /** Joining pieces that contain no delimiter and splitting again gives back the pieces. */
  lemma {:induction false} SplitJoin(parts: seq<string>, d: char)
    requires |parts| >= 1
    requires forall k :: 0 <= k < |parts| ==> d !in parts[k]
    ensures Split(Join([d], parts), d) == parts
  {
    if |parts| == 1 {
      SplitWhole(parts[0], d);
    } else {
      var rest := Join([d], parts[1..]);
      assert Join([d], parts) == parts[0] + ([d] + rest);
      SplitAtDelimiter(parts[0], rest, d);
      SplitJoin(parts[1..], d);
      assert [parts[0]] + parts[1..] == parts;
    }
  }

  /** An implode with at least one separator between two pieces is not empty. */
  lemma {:induction false} JoinNonEmpty(sep: string, parts: seq<string>)
    requires |parts| >= 1 && parts[0] != ""
    ensures Join(sep, parts) != "" && Join(sep, parts)[..|parts[0]|] == parts[0]
  {
    if |parts| > 1 {
      assert Join(sep, parts) == parts[0] + (sep + Join(sep, parts[1..]));
    }
  }
}
