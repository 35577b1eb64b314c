/** `escapeRegExp`, the alternation pattern the script builds from the
    enabled keywords, and the meaning of that pattern as a `RegExp`.

    The script only ever compiles patterns of one shape: literal strings,
    with every regular-expression syntax character preceded by a backslash,
    joined by `|`. The model gives a meaning to exactly that fragment of
    `RegExp` syntax: such a pattern compiles to the list of its literal
    alternatives, and `test` succeeds iff one of them occurs in the input. */
module RegExps {
  import opened JsValues

  /** The characters `escapeRegExp` escapes: `. * + ? ^ $ { } ( ) | [ ] \`. */
  predicate IsSyntaxChar(c: char) {
    c in ".*+?^${}()|[]\\"
  }

  /** `escapeRegExp(s)`: a backslash before each syntax character, every
      other character copied. */
  function EscapeRegExp(s: string): string {
    if s == [] then []
    else (if IsSyntaxChar(s[0]) then ['\\', s[0]] else [s[0]]) + EscapeRegExp(s[1..])
  }

  function CountSyntaxChars(s: string): nat {
    if s == [] then 0 else (if IsSyntaxChar(s[0]) then 1 else 0) + CountSyntaxChars(s[1..])
  }

  /** Drops the backslash in front of each escaped character. */
  function Unescape(r: string): string
    decreases |r|
  {
    if r == [] then []
    else if r[0] == '\\' && |r| >= 2 then [r[1]] + Unescape(r[2..])
    else [r[0]] + Unescape(r[1..])
  }

  /** `escapeRegExp` adds exactly one character per syntax character, and
      removing the added backslashes gives the input back. */
  lemma {:induction false} EscapeRegExpSpec(s: string)
    ensures |EscapeRegExp(s)| == |s| + CountSyntaxChars(s)
    ensures Unescape(EscapeRegExp(s)) == s
  {
    if s != [] {
      EscapeRegExpSpec(s[1..]);
      var r := EscapeRegExp(s);
      if IsSyntaxChar(s[0]) {
        assert r[0] == '\\' && r[1] == s[0] && r[2..] == EscapeRegExp(s[1..]);
      } else {
        assert r[0] == s[0] && r[1..] == EscapeRegExp(s[1..]);
      }
    }
  }

  /** `keywords.map(escapeRegExp).join('|')`. */
  function Pattern(keywords: seq<string>): string {
    if |keywords| == 0 then ""
    else if |keywords| == 1 then EscapeRegExp(keywords[0])
    else EscapeRegExp(keywords[0]) + "|" + Pattern(keywords[1..])
  }

  /** A compiled regular expression of the literal-alternation fragment. */
  datatype Matcher = Matcher(alternatives: seq<string>)

  /** Reads a pattern of the literal-alternation fragment: `current` is the
      alternative being read, `done` those already closed by a `|`. A
      dangling backslash, an escaped ordinary character or an unescaped
      syntax character other than `|` is outside the fragment (`None`). */
  function ScanAlternatives(p: string, current: string, done: seq<string>): Option<seq<string>>
    decreases |p|
  {
    if p == [] then Some(done + [current])
    else if p[0] == '\\' then
      if |p| >= 2 && IsSyntaxChar(p[1]) then ScanAlternatives(p[2..], current + [p[1]], done) else None
    else if p[0] == '|' then ScanAlternatives(p[1..], "", done + [current])
    else if IsSyntaxChar(p[0]) then None
    else ScanAlternatives(p[1..], current + [p[0]], done)
  }

  /** `new RegExp(p)` for a pattern of the fragment. */
  function CompileRegExp(p: string): Option<Matcher> {
    match ScanAlternatives(p, "", [])
    case None => None
    case Some(alternatives) => Some(Matcher(alternatives))
  }

  predicate OccursAt(name: string, k: string, i: int) {
    0 <= i && i + |k| <= |name| && name[i..i + |k|] == k
  }

  /** `k` is a substring of `name`. */
  predicate Contains(name: string, k: string) {
    exists i :: 0 <= i <= |name| - |k| && OccursAt(name, k, i)
  }

  /** `matcher.test(name)`: some alternative matches at some position. */
  predicate Test(m: Matcher, name: string) {
    exists a :: a in m.alternatives && Contains(name, a)
  }

  // ---------------------------------------------------------------------
  // The escaped alternation denotes exactly its keywords
  // ---------------------------------------------------------------------

  /** An escaped syntax character is read as that character. */
  lemma ScanEscapedChar(c: char, tail: string, current: string, done: seq<string>)
    requires IsSyntaxChar(c)
    ensures ScanAlternatives(['\\', c] + tail, current, done) == ScanAlternatives(tail, current + [c], done)
  {
    var p := ['\\', c] + tail;
    assert p[0] == '\\' && p[1] == c && p[2..] == tail;
  }

  /** Any other character is read as itself. */
  lemma ScanPlainChar(c: char, tail: string, current: string, done: seq<string>)
    requires !IsSyntaxChar(c)
    ensures ScanAlternatives([c] + tail, current, done) == ScanAlternatives(tail, current + [c], done)
  {
    var p := [c] + tail;
    assert c != '\\' && c != '|';
    assert p[0] == c && p[1..] == tail;
  }

  /** Reading an escaped keyword appends the keyword itself to the current
      alternative: no character of it is taken as syntax. */
  lemma {:induction false} ScanEscaped(s: string, rest: string, current: string, done: seq<string>)
    ensures ScanAlternatives(EscapeRegExp(s) + rest, current, done) == ScanAlternatives(rest, current + s, done)
  {
    if s == [] {
      assert EscapeRegExp(s) + rest == rest;
      assert current + s == current;
    } else {
      var tail := EscapeRegExp(s[1..]) + rest;
      if IsSyntaxChar(s[0]) {
        assert EscapeRegExp(s) + rest == ['\\', s[0]] + tail;
        ScanEscapedChar(s[0], tail, current, done);
      } else {
        assert EscapeRegExp(s) + rest == [s[0]] + tail;
        ScanPlainChar(s[0], tail, current, done);
      }
      ScanEscaped(s[1..], rest, current + [s[0]], done);
      assert current + [s[0]] + s[1..] == current + s;
    }
  }

  lemma {:induction false} ScanPattern(keywords: seq<string>, done: seq<string>)
    requires |keywords| > 0
    ensures ScanAlternatives(Pattern(keywords), "", done) == Some(done + keywords)
    decreases |keywords|
  {
    if |keywords| == 1 {
      ScanEscaped(keywords[0], "", "", done);
      assert EscapeRegExp(keywords[0]) + "" == EscapeRegExp(keywords[0]);
      assert "" + keywords[0] == keywords[0];
      assert done + keywords == done + [keywords[0]];
    } else {
      var rest := "|" + Pattern(keywords[1..]);
      assert Pattern(keywords) == EscapeRegExp(keywords[0]) + rest;
      ScanEscaped(keywords[0], rest, "", done);
      assert "" + keywords[0] == keywords[0];
      assert rest[0] == '|' && rest[1..] == Pattern(keywords[1..]);
      ScanPattern(keywords[1..], done + [keywords[0]]);
      assert done + [keywords[0]] + keywords[1..] == done + keywords;
    }
  }

  /** The pattern built from a non-empty keyword list always compiles (the
      `catch` around `new RegExp` is never taken), and its alternatives are
      exactly the keywords, in order. */
  lemma PatternCompiles(keywords: seq<string>)
    requires |keywords| > 0
    ensures CompileRegExp(Pattern(keywords)) == Some(Matcher(keywords))
  {
    ScanPattern(keywords, []);
    assert [] + keywords == keywords;
  }
}
