/** The string functions the report generator calls (Go's package strings), over sequences of code points. */
module Texts {

  /** unicode.IsSpace. */
  predicate IsSpace(c: char) {
    || c in {'\t', '\n', '\U{B}', '\U{C}', '\r', ' ', '\U{85}', '\U{A0}', '\U{1680}'}
    || '\U{2000}' <= c <= '\U{200A}'
    || c in {'\U{2028}', '\U{2029}', '\U{202F}', '\U{205F}', '\U{3000}'}
  }

  predicate Blank(s: string) {
    forall i | 0 <= i < |s| :: IsSpace(s[i])
  }

  predicate Trimmed(s: string) {
    s == "" || (!IsSpace(s[0]) && !IsSpace(s[|s| - 1]))
  }

  function TrimLeft(s: string): string {
    if s != "" && IsSpace(s[0]) then TrimLeft(s[1..]) else s
  }

  function TrimRight(s: string): string {
    if s != "" && IsSpace(s[|s| - 1]) then TrimRight(s[..|s| - 1]) else s
  }

  function TrimSpace(s: string): string {
    TrimRight(TrimLeft(s))
  }

  lemma {:induction false} TrimLeftBlank(x: string, s: string)
    requires Blank(x) && (s == "" || !IsSpace(s[0]))
    ensures TrimLeft(x + s) == s
  {
    if x == "" {
      assert x + s == s;
    } else {
      assert (x + s)[1..] == x[1..] + s && (x + s)[0] == x[0];
      TrimLeftBlank(x[1..], s);
    }
  }

  lemma {:induction false} TrimRightBlank(s: string, y: string)
    requires Blank(y) && (s == "" || !IsSpace(s[|s| - 1]))
    ensures TrimRight(s + y) == s
  {
    if y == "" {
      assert s + y == s;
    } else {
      assert (s + y)[..|s + y| - 1] == s + y[..|y| - 1];
      TrimRightBlank(s, y[..|y| - 1]);
    }
  }

  /** TrimSpace removes exactly the blanks around a trimmed string. */
  lemma {:induction false} TrimAround(x: string, s: string, y: string)
    requires Blank(x) && Trimmed(s) && Blank(y)
    ensures TrimSpace(x + s + y) == s
  {
    assert x + s + y == x + (s + y);
    if s == "" {
      assert x + s + y == (x + y) + "" && Blank(x + y);
      TrimLeftBlank(x + y, "");
    } else {
      TrimLeftBlank(x, s + y);
      TrimRightBlank(s, y);
    }
  }

  lemma {:induction false} LeadingBlank(s: string) returns (x: string, rest: string)
    ensures s == x + rest && Blank(x) && (rest == "" || !IsSpace(rest[0])) && rest == TrimLeft(s)
  {
    if s != "" && IsSpace(s[0]) {
      var x', rest' := LeadingBlank(s[1..]);
      x, rest := [s[0]] + x', rest';
    } else {
      x, rest := "", s;
    }
  }

  lemma {:induction false} TrailingBlank(s: string) returns (rest: string, y: string)
    ensures s == rest + y && Blank(y) && (rest == "" || !IsSpace(rest[|rest| - 1])) && rest == TrimRight(s)
  {
    if s != "" && IsSpace(s[|s| - 1]) {
      var rest', y' := TrailingBlank(s[..|s| - 1]);
      rest, y := rest', y' + [s[|s| - 1]];
      assert s == s[..|s| - 1] + [s[|s| - 1]];
    } else {
      rest, y := s, "";
    }
  }

  /** Every string is its trimmed form between blanks. */
  lemma {:induction false} TrimSplit(s: string) returns (x: string, y: string)
    ensures s == x + TrimSpace(s) + y && Blank(x) && Blank(y) && Trimmed(TrimSpace(s))
  {
    var rest: string;
    x, rest := LeadingBlank(s);
    var t: string;
    t, y := TrailingBlank(rest);
    assert x + rest == x + t + y;
    assert t != "" ==> t[0] == rest[0];
  }

  /** `m` occurs in `s` at position `i`. */
  predicate At(s: string, m: string, i: int) {
    0 <= i && i + |m| <= |s| && s[i..i + |m|] == m
  }

  lemma NotAt(s: string, m: string, i: int, k: nat)
    requires k < |m| && 0 <= i && (i + k < |s| ==> s[i + k] != m[k])
    ensures !At(s, m, i)
  {
  }

  function IndexFrom(s: string, m: string, i: nat): (r: int)
    requires i <= |s| + 1
    ensures r == -1 || (i <= r && At(s, m, r))
    ensures forall j | i <= j && (r == -1 || j < r) :: !At(s, m, j)
    decreases |s| + 1 - i
  {
    if i > |s| then -1 else if At(s, m, i) then i else IndexFrom(s, m, i + 1)
  }

  /** The first occurrence, or -1. */
  function Index(s: string, m: string): (r: int)
    ensures r == -1 || At(s, m, r)
    ensures forall j | 0 <= j && (r == -1 || j < r) :: !At(s, m, j)
  {
    IndexFrom(s, m, 0)
  }

  function LastIndexTo(s: string, m: string, i: int): (r: int)
    requires -1 <= i
    ensures r == -1 || (0 <= r <= i && At(s, m, r))
    ensures forall j | r < j <= i :: !At(s, m, j)
    decreases i
  {
    if i == -1 then -1 else if At(s, m, i) then i else LastIndexTo(s, m, i - 1)
  }

  /** The last occurrence, or -1. */
  function LastIndex(s: string, m: string): (r: int)
    ensures r == -1 || At(s, m, r)
    ensures forall j | r < j :: !At(s, m, j)
  {
    LastIndexTo(s, m, |s|)
  }

  predicate Contains(s: string, m: string) {
    Index(s, m) != -1
  }

  predicate HasPrefix(s: string, p: string) {
    At(s, p, 0)
  }

  /** The length of a code point in UTF-8. */
  function Width(c: char): nat {
    if c < '\U{80}' then 1 else if c < '\U{800}' then 2 else if c < '\U{10000}' then 3 else 4
  }

  function UpperChar(c: char): char {
    if 'a' <= c <= 'z' then ((c as int) - 32) as char else c
  }

  /** An upper-casing of code points (unicode.ToUpper): on ASCII it is the usual one. */
  type Casing = up: char -> char | forall c: char :: c < '\U{80}' ==> up(c) == UpperChar(c) witness UpperChar

  /** strings.ToUpper. */
  function ToUpper(up: Casing, s: string): (r: string)
    ensures |r| == |s|
  {
    seq(|s|, i requires 0 <= i < |s| => up(s[i]))
  }

  /** Upper-casing moves no byte of the text: every code point keeps its length in UTF-8. */
  predicate Steady(up: Casing, s: string) {
    forall i | 0 <= i < |s| :: Width(up(s[i])) == Width(s[i])
  }

  /** In such a text an upper-cased ASCII character other than a letter was there before. */
  lemma SteadyAt(up: Casing, s: string, i: nat)
    requires Steady(up, s) && i < |s| && ToUpper(up, s)[i] < '\U{80}' && !('A' <= ToUpper(up, s)[i] <= 'Z')
    ensures s[i] == ToUpper(up, s)[i]
  {
    assert Width(up(s[i])) == Width(s[i]);
  }

  /** Split at every newline. */
  function Lines(s: string): (r: seq<string>)
    ensures r != []
    decreases |s|
  {
    if s == "" then [""]
    else
      var r := Lines(s[..|s| - 1]);
      if s[|s| - 1] == '\n' then r + [""] else r[..|r| - 1] + [r[|r| - 1] + [s[|s| - 1]]]
  }

  function Join(lines: seq<string>, separator: string): string {
    if lines == [] then ""
    else if |lines| == 1 then lines[0]
    else Join(lines[..|lines| - 1], separator) + separator + lines[|lines| - 1]
  }

  lemma JoinLast(lines: seq<string>, line: string, separator: string)
    requires lines != []
    ensures Join(lines + [line], separator) == Join(lines, separator) + separator + line
  {
    assert (lines + [line])[..|lines|] == lines;
  }

  /** One more character at the end of the last line. */
  lemma JoinGrow(lines: seq<string>, c: char, separator: string)
    requires lines != []
    ensures Join(lines[..|lines| - 1] + [lines[|lines| - 1] + [c]], separator) == Join(lines, separator) + [c]
  {
    var init, last := lines[..|lines| - 1], lines[|lines| - 1];
    if init == [] {
      assert init + [last + [c]] == [last + [c]];
    } else {
      JoinLast(init, last + [c], separator);
      hide Join;
      assert Join(init, separator) + separator + (last + [c]) == (Join(init, separator) + separator + last) + [c];
      assert lines == init + [last];
      JoinLast(init, last, separator);
    }
  }

  lemma {:induction false} JoinLines(s: string)
    ensures Join(Lines(s), "\n") == s
  {
    if s == "" {
    } else {
      var init, last := s[..|s| - 1], s[|s| - 1];
      assert s == init + [last];
      JoinLines(init);
      hide Join;
      var r := Lines(init);
      if last == '\n' {
        JoinLast(r, "", "\n");
        assert init + "\n" + "" == s;
      } else {
        JoinGrow(r, last, "\n");
      }
    }
  }

  lemma {:induction false} LinesUnbroken(s: string)
    ensures forall line | line in Lines(s) :: '\n' !in line
  {
    if s == "" {
    } else {
      var r := Lines(s[..|s| - 1]);
      LinesUnbroken(s[..|s| - 1]);
      assert r[|r| - 1] in r && forall line | line in r[..|r| - 1] :: line in r;
    }
  }

  /** Joining from the front. */
  lemma {:induction false} JoinFront(line: string, rest: seq<string>, separator: string)
    requires rest != []
    ensures Join([line] + rest, separator) == line + separator + Join(rest, separator)
  {
    var lines, init, last := [line] + rest, rest[..|rest| - 1], rest[|rest| - 1];
    assert lines[..|lines| - 1] == [line] + init && lines[|lines| - 1] == last;
    if init == [] {
      assert lines[..|lines| - 1] == [line];
    } else {
      JoinFront(line, init, separator);
    }
  }

  /** Blanks in front of a text change nothing about its trimmed form. */
  lemma TrimAfterBlank(x: string, s: string)
    requires Blank(x)
    ensures TrimSpace(x + s) == TrimSpace(s)
  {
    var v, w := TrimSplit(s);
    assert x + s == (x + v) + TrimSpace(s) + w;
    TrimAround(x + v, TrimSpace(s), w);
  }

  lemma TrimBeforeBlank(s: string, y: string)
    requires Blank(y)
    ensures TrimSpace(s + y) == TrimSpace(s)
  {
    var v, w := TrimSplit(s);
    assert s + y == v + TrimSpace(s) + (w + y);
    TrimAround(v, TrimSpace(s), w + y);
  }
}
