/**
 * Name search with LIKE. The meaning of patterns is that of section 8.5 of
 * ISO/IEC 9075:1992 with escape character `\`; the escaped search text between two
 * `%` must mean plain containment.
 */
module LikePatterns {
  import opened Common

  // ---- The repository's escaping -----------------------------------------------------

  /** strings.ReplaceAll for a one-character text to replace. */
  function ReplaceAll(s: string, target: char, replacement: string): string {
    if s == [] then []
    else (if s[0] == target then replacement else [s[0]]) + ReplaceAll(s[1..], target, replacement)
  }

  /** Three passes, the backslash first. */
  function Escape(s: string): string {
    ReplaceAll(ReplaceAll(ReplaceAll(s, '\\', "\\\\"), '%', "\\%"), '_', "\\_")
  }

  function SearchPattern(s: string): string {
    "%" + Escape(s) + "%"
  }

  // ---- LIKE --------------------------------------------------------------------------------

  datatype Token = Literal(c: char) | AnyChar | AnyString

  predicate Special(c: char) {
    c == '\\' || c == '%' || c == '_'
  }

  /** None for a pattern with an invalid escape, which LIKE rejects. */
  function Parse(p: string): Option<seq<Token>> {
    if p == [] then Some([])
    else if p[0] == '\\' then
      if |p| >= 2 && Special(p[1]) then Prefix(Literal(p[1]), Parse(p[2..])) else None
    else Prefix(if p[0] == '%' then AnyString else if p[0] == '_' then AnyChar else Literal(p[0]), Parse(p[1..]))
  }

  function Prefix(t: Token, rest: Option<seq<Token>>): Option<seq<Token>> {
    if rest.None? then None else Some([t] + rest.value)
  }

  /** Whether the text can be cut into pieces that the tokens stand for. */
  ghost predicate Matches(tokens: seq<Token>, text: string) {
    if tokens == [] then text == []
    else
      match tokens[0]
      case Literal(c) => text != [] && text[0] == c && Matches(tokens[1..], text[1..])
      case AnyChar => text != [] && Matches(tokens[1..], text[1..])
      case AnyString => exists i | 0 <= i <= |text| :: Matches(tokens[1..], text[i..])
  }

  ghost predicate Like(text: string, pattern: string) {
    Parse(pattern).Some? && Matches(Parse(pattern).value, text)
  }

  ghost predicate Contains(text: string, s: string) {
    exists i | 0 <= i <= |text| :: s <= text[i..]
  }

  // ---- Three passes are one ------------------------------------------------------------------

  function EscapeChar(c: char): string {
    if Special(c) then ['\\', c] else [c]
  }

  function EscapeEach(s: string): string {
    if s == [] then [] else EscapeChar(s[0]) + EscapeEach(s[1..])
  }

  lemma {:induction false} ReplaceAllAppend(a: string, b: string, target: char, replacement: string)
    ensures ReplaceAll(a + b, target, replacement) == ReplaceAll(a, target, replacement) + ReplaceAll(b, target, replacement)
  {
    if a == [] {
      assert a + b == b;
    } else {
      assert (a + b)[1..] == a[1..] + b;
      ReplaceAllAppend(a[1..], b, target, replacement);
    }
  }

  lemma EscapeAppend(a: string, b: string)
    ensures Escape(a + b) == Escape(a) + Escape(b)
  {
    ReplaceAllAppend(a, b, '\\', "\\\\");
    var a1, b1 := ReplaceAll(a, '\\', "\\\\"), ReplaceAll(b, '\\', "\\\\");
    ReplaceAllAppend(a1, b1, '%', "\\%");
    ReplaceAllAppend(ReplaceAll(a1, '%', "\\%"), ReplaceAll(b1, '%', "\\%"), '_', "\\_");
  }

  lemma ReplaceOne(c: char, target: char, replacement: string)
    ensures ReplaceAll([c], target, replacement) == if c == target then replacement else [c]
  {
    assert [c][1..] == [];
    assert ReplaceAll([], target, replacement) == [];
  }

  lemma ReplaceTwo(c: char, d: char, target: char, replacement: string)
    ensures ReplaceAll([c, d], target, replacement) == (if c == target then replacement else [c]) + (if d == target then replacement else [d])
  {
    assert [c, d] == [c] + [d];
    ReplaceAllAppend([c], [d], target, replacement);
    ReplaceOne(c, target, replacement);
    ReplaceOne(d, target, replacement);
  }

  lemma EscapeOne(c: char)
    ensures Escape([c]) == EscapeChar(c)
  {
    ReplaceOne(c, '\\', "\\\\");
    ReplaceOne(c, '%', "\\%");
    ReplaceOne(c, '_', "\\_");
    ReplaceTwo('\\', '\\', '%', "\\%");
    ReplaceTwo('\\', '\\', '_', "\\_");
    ReplaceTwo('\\', '%', '_', "\\_");
  }

  /** Because the backslash goes first, no pass touches what an earlier one inserted. */
  lemma {:induction false} ThreePassesAreOne(s: string)
    ensures Escape(s) == EscapeEach(s)
  {
    if s != [] {
      ThreePassesAreOne(s[1..]);
      assert s == [s[0]] + s[1..];
      EscapeAppend([s[0]], s[1..]);
      EscapeOne(s[0]);
    }
  }

  // ---- The escaped text stands for itself ----------------------------------------------------

  function Literals(s: string): seq<Token> {
    if s == [] then [] else [Literal(s[0])] + Literals(s[1..])
  }

  lemma ParseEscapedChar(c: char, rest: string)
    ensures Parse(EscapeChar(c) + rest) == Prefix(Literal(c), Parse(rest))
  {
    assert (EscapeChar(c) + rest)[|EscapeChar(c)|..] == rest;
  }

  lemma Associative<T>(a: seq<T>, b: seq<T>, c: seq<T>)
    ensures (a + b) + c == a + (b + c)
  {
  }

  /** Whatever follows an escaped text keeps its own meaning: the closing `%` is not swallowed. */
  lemma {:induction false} ParseEscaped(s: string, rest: string)
    requires Parse(rest).Some?
    ensures Parse(EscapeEach(s) + rest) == Some(Literals(s) + Parse(rest).value)
  {
    if s == [] {
      assert EscapeEach(s) + rest == rest;
      assert Literals(s) + Parse(rest).value == Parse(rest).value;
    } else {
      ParseEscaped(s[1..], rest);
      ParseEscapedChar(s[0], EscapeEach(s[1..]) + rest);
      Associative(EscapeChar(s[0]), EscapeEach(s[1..]), rest);
      Associative([Literal(s[0])], Literals(s[1..]), Parse(rest).value);
    }
  }

  lemma ParsePercent()
    ensures Parse("%") == Some([AnyString])
  {
    assert "%"[1..] == [];
    assert Parse([]) == Some([]);
    assert [AnyString] + [] == [AnyString];
  }

  lemma ParseSearchPattern(s: string)
    ensures Parse(SearchPattern(s)) == Some([AnyString] + Literals(s) + [AnyString])
  {
    ParsePercent();
    ParseEscaped(s, "%");
    ThreePassesAreOne(s);
    assert SearchPattern(s)[1..] == Escape(s) + "%";
    assert [AnyString] + (Literals(s) + [AnyString]) == [AnyString] + Literals(s) + [AnyString];
  }

  lemma {:induction false} MatchLiterals(s: string, tokens: seq<Token>, text: string)
    ensures Matches(Literals(s) + tokens, text) <==> s <= text && Matches(tokens, text[|s|..])
  {
    if s == [] {
      assert Literals(s) + tokens == tokens;
      assert text[0..] == text;
    } else {
      assert (Literals(s) + tokens)[1..] == Literals(s[1..]) + tokens;
      if text != [] && text[0] == s[0] {
        MatchLiterals(s[1..], tokens, text[1..]);
        assert s <= text <==> s[1..] <= text[1..] by {
          assert s == [s[0]] + s[1..] && text == [text[0]] + text[1..];
        }
        if s <= text {
          assert text[1..][|s[1..]|..] == text[|s|..];
        }
      }
    }
  }

  lemma MatchAnything(text: string)
    ensures Matches([AnyString], text)
  {
    assert [AnyString][1..] == [];
    assert Matches([], text[|text|..]);
  }

  /** The search is exact: the pattern is never rejected and matches iff the text contains the search text. */
  lemma SearchIsContainment(text: string, s: string)
    ensures Parse(SearchPattern(s)).Some?
    ensures Like(text, SearchPattern(s)) <==> Contains(text, s)
  {
    ParseSearchPattern(s);
    var tokens := [AnyString] + Literals(s) + [AnyString];
    assert tokens[1..] == Literals(s) + [AnyString];
    forall i | 0 <= i <= |text|
      ensures Matches(tokens[1..], text[i..]) <==> s <= text[i..]
    {
      MatchLiterals(s, [AnyString], text[i..]);
      if s <= text[i..] {
        MatchAnything(text[i..][|s|..]);
      }
    }
  }

  // ---- Case-insensitive search ------------------------------------------------------------

  function MapChars(f: char -> char, s: string): string {
    if s == [] then [] else [f(s[0])] + MapChars(f, s[1..])
  }

  /** A case mapping works character by character and neither moves nor creates special characters. */
  ghost predicate CaseMapping(f: char -> char) {
    forall c :: (Special(c) ==> f(c) == c) && (Special(f(c)) ==> Special(c))
  }

  lemma {:induction false} MapAppend(f: char -> char, a: string, b: string)
    ensures MapChars(f, a + b) == MapChars(f, a) + MapChars(f, b)
  {
    if a == [] {
      assert a + b == b;
    } else {
      assert (a + b)[1..] == a[1..] + b;
      MapAppend(f, a[1..], b);
    }
  }

  /** Lower-casing the finished pattern is building the pattern from the lower-cased text. */
  lemma {:induction false} CaseCommutesWithEscape(f: char -> char, s: string)
    requires CaseMapping(f)
    ensures MapChars(f, EscapeEach(s)) == EscapeEach(MapChars(f, s))
  {
    if s != [] {
      var c := s[0];
      CaseCommutesWithEscape(f, s[1..]);
      MapAppend(f, EscapeChar(c), EscapeEach(s[1..]));
      assert Special(f(c)) <==> Special(c);
      assert [c][1..] == [] && ['\\', c][1..] == [c];
      assert MapChars(f, [c]) == [f(c)];
      assert f('\\') == '\\';
      assert MapChars(f, EscapeChar(c)) == EscapeChar(f(c));
    }
  }

  /** LOWER(name) LIKE LOWER(pattern) is containment up to case. */
  lemma CaseInsensitiveSearch(f: char -> char, text: string, s: string)
    requires CaseMapping(f)
    ensures Like(MapChars(f, text), MapChars(f, SearchPattern(s)))
            <==> Contains(MapChars(f, text), MapChars(f, s))
  {
    ThreePassesAreOne(s);
    ThreePassesAreOne(MapChars(f, s));
    CaseCommutesWithEscape(f, s);
    MapAppend(f, "%" + Escape(s), "%");
    MapAppend(f, "%", Escape(s));
    assert "%"[1..] == [] && f('%') == '%';
    assert MapChars(f, "%") == "%";
    SearchIsContainment(MapChars(f, text), MapChars(f, s));
  }

  // ---- Why escaping is needed --------------------------------------------------------------

  predicate Plain(s: string) {
    forall c | c in s :: !Special(c)
  }

  lemma {:induction false} PlainUnchanged(s: string)
    requires Plain(s)
    ensures EscapeEach(s) == s
  {
    if s != [] {
      assert s[0] in s;
      PlainUnchanged(s[1..]);
    }
  }

  /** A shortest text that the tokens match, with `x` for any character. */
  function Shortest(tokens: seq<Token>): string {
    if tokens == [] then []
    else
      match tokens[0]
      case Literal(c) => [c] + Shortest(tokens[1..])
      case AnyChar => ['x'] + Shortest(tokens[1..])
      case AnyString => Shortest(tokens[1..])
  }

  lemma {:induction false} ShortestMatches(tokens: seq<Token>)
    ensures Matches(tokens, Shortest(tokens))
  {
    if tokens != [] {
      ShortestMatches(tokens[1..]);
      assert Shortest(tokens)[0..] == Shortest(tokens);
    }
  }

  /** An unescaped text matches something else of its own length or shorter, unless it is plain. */
  lemma {:induction false} ShortestDiffers(s: string)
    requires Parse(s + "%").Some?
    ensures var t := Shortest(Parse(s + "%").value); |t| <= |s| && (t == s ==> Plain(s))
    decreases |s|
  {
    ParsePercent();
    var p := s + "%";
    if s == [] {
      assert p == "%";
    } else if s[0] == '\\' {
      if |s| == 1 {
        assert p[2..] == [];
      } else {
        assert p[2..] == s[2..] + "%";
        ShortestDiffers(s[2..]);
      }
    } else {
      assert p[1..] == s[1..] + "%";
      ShortestDiffers(s[1..]);
      assert s == [s[0]] + s[1..];
    }
  }

  ghost predicate SearchesFor(pattern: string, s: string) {
    forall text :: Like(text, pattern) <==> Contains(text, s)
  }

  /** Without escaping, the search is exact only for texts that have nothing to escape. */
  lemma UnescapedSearchExactIff(s: string)
    ensures SearchesFor("%" + s + "%", s) <==> Plain(s)
  {
    var pattern := "%" + s + "%";
    if Plain(s) {
      PlainUnchanged(s);
      ThreePassesAreOne(s);
      forall text { SearchIsContainment(text, s); }
    } else {
      assert pattern[1..] == s + "%";
      if Parse(s + "%").None? {
        assert s <= s[0..];
        assert Contains(s, s) && !Like(s, pattern);
      } else {
        var text := Shortest(Parse(s + "%").value);
        ShortestDiffers(s);
        ShortestMatches(Parse(pattern).value);
        assert Like(text, pattern) && !Contains(text, s);
      }
    }
  }

  function Unescape(p: string): string {
    if p == [] then []
    else if p[0] == '\\' && |p| >= 2 then [p[1]] + Unescape(p[2..])
    else [p[0]] + Unescape(p[1..])
  }

  /** The search text can be read back from its escaped form. */
  lemma {:induction false} UnescapeEscape(s: string)
    ensures Unescape(Escape(s)) == s
  {
    ThreePassesAreOne(s);
    if s != [] {
      ThreePassesAreOne(s[1..]);
      UnescapeEscape(s[1..]);
      var p := EscapeEach(s);
      if Special(s[0]) {
        assert p[2..] == EscapeEach(s[1..]);
      } else {
        assert p[1..] == EscapeEach(s[1..]);
      }
    }
  }
}
