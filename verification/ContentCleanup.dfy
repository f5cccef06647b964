/** Cleaning up the content of an agent's answer and making do without a summary
  * (postProcessContent, generateFallbackSummary and postProcessContentWithSummary of
  * internal/report/generator.go).
  */
module ContentCleanup {
  import opened Texts
  import opened ResponseParser

  const FENCE: string := "```"
  const WRAPPERS: seq<string> := ["```markdown\n", "```md\n", "```\n"]

  /** Phrases that mark a trailing line as meta-commentary. */
  const SUFFIXES: seq<string> := [
    "文档已保存到", "已保存到", "保存在", "已生成", "已创建", "写入到", "已写入",
    "可直接使用", "可直接用于", "可以直接复制", "生成完成", "创建完成",
    "docs/", ".md", "Document saved to", "Saved to", "Written to", "Created file", "Generated file",
    "Ready to use", "You can use this", "Generation complete", "File created"]

  // ---------- The fence around a whole answer ----------

  /** What follows an opening fence, without a closing fence at its end. */
  function Inside(rest: string): string {
    var idx := LastIndex(rest, FENCE);
    TrimSpace(if idx > 0 && TrimSpace(rest[idx + 3..]) == "" then rest[..idx] else rest)
  }

  function UnfencedFrom(content: string, w: nat): string
    requires w <= |WRAPPERS|
    decreases |WRAPPERS| - w
  {
    if w == |WRAPPERS| then content
    else if HasPrefix(content, WRAPPERS[w]) then Inside(content[|WRAPPERS[w]|..])
    else UnfencedFrom(content, w + 1)
  }

  predicate Fenced(content: string) {
    exists w :: 0 <= w < |WRAPPERS| && HasPrefix(content, WRAPPERS[w])
  }

  lemma {:induction false} NotFenced(content: string, w: nat)
    requires w <= |WRAPPERS| && !Fenced(content)
    ensures UnfencedFrom(content, w) == content
    decreases |WRAPPERS| - w
  {
  }

  lemma WrapperIsFence(content: string, w: nat)
    requires w < |WRAPPERS|
    ensures HasPrefix(content, WRAPPERS[w]) ==> HasPrefix(content, FENCE)
  {
  }

  method Unfence(content: string) returns (r: string)
    ensures r == UnfencedFrom(content, 0)
  {
    if HasPrefix(content, FENCE) {
      for w := 0 to |WRAPPERS|
        invariant UnfencedFrom(content, 0) == UnfencedFrom(content, w)
      {
        if HasPrefix(content, WRAPPERS[w]) {
          r := content[|WRAPPERS[w]|..];
          var idx := LastIndex(r, FENCE);
          if idx > 0 {
            var remaining := TrimSpace(r[idx + 3..]);
            if remaining == "" {
              r := r[..idx];
            }
          }
          r := TrimSpace(r);
          return;
        }
      }
    } else {
      forall w | 0 <= w < |WRAPPERS| ensures !HasPrefix(content, WRAPPERS[w]) { WrapperIsFence(content, w); }
      NotFenced(content, 0);
    }
    r := content;
  }

  /** Fencing any text and unfencing it gives back the text, blanks around it aside. */
  lemma UnfenceUndoes(w: nat, body: string)
    requires w < |WRAPPERS|
    ensures UnfencedFrom(WRAPPERS[w] + body + "\n```", 0) == TrimSpace(body)
  {
    var content := WRAPPERS[w] + body + "\n```";
    assert content[0..|WRAPPERS[w]|] == WRAPPERS[w];
    assert content[3] == WRAPPERS[w][3];
    assert w != 2 ==> content[4] == WRAPPERS[w][4];
    FirstWrapper(content, w);
    assert content[|WRAPPERS[w]|..] == body + "\n```";
    InsideClosed(body);
  }

  lemma FirstWrapper(content: string, w: nat)
    requires w < |WRAPPERS| && HasPrefix(content, WRAPPERS[w])
    requires content[3] == WRAPPERS[w][3] && (w != 2 ==> content[4] == WRAPPERS[w][4])
    ensures UnfencedFrom(content, 0) == Inside(content[|WRAPPERS[w]|..])
  {
    if w == 1 {
      NotAt(content, WRAPPERS[0], 0, 4);
    } else if w == 2 {
      NotAt(content, WRAPPERS[0], 0, 3);
      NotAt(content, WRAPPERS[1], 0, 3);
    }
  }

  lemma InsideClosed(body: string)
    ensures Inside(body + "\n```") == TrimSpace(body)
  {
    var rest := body + "\n```";
    var n := |body| + 1;
    assert rest[n..n + 3] == FENCE;
    assert At(rest, FENCE, n);
    assert LastIndex(rest, FENCE) == n;
    assert rest[n + 3..] == "";
    assert rest[..n] == body + "\n";
    var x, y := TrimSplit(body);
    assert body + "\n" == x + TrimSpace(body) + (y + "\n");
    TrimAround(x, TrimSpace(body), y + "\n");
    TrimAround("", "", "");
    assert "" + "" + "" == "";
  }

  /** A text that is fenced at its start only keeps everything but that fence. */
  lemma UnfenceOpen(w: nat, body: string)
    requires w < |WRAPPERS|
    requires LastIndex(body, FENCE) <= 0 || TrimSpace(body[LastIndex(body, FENCE) + 3..]) != ""
    ensures UnfencedFrom(WRAPPERS[w] + body, 0) == TrimSpace(body)
  {
    var content := WRAPPERS[w] + body;
    assert content[0..|WRAPPERS[w]|] == WRAPPERS[w];
    assert content[3] == WRAPPERS[w][3];
    assert w != 2 ==> content[4] == WRAPPERS[w][4];
    FirstWrapper(content, w);
    assert content[|WRAPPERS[w]|..] == body;
  }

  // ---------- Leading and trailing meta-commentary ----------

  predicate IsHeading(content: string) {
    HasPrefix(content, "#")
  }

  function FromHeading(content: string): string
    decreases |content|
  {
    var c := TrimSpace(content);
    if c == "" || IsHeading(c) then c
    else
      var idx := Index(c, "\n");
      if idx > 0 then
        TrimShorter(content);
        FromHeading(c[idx + 1..])
      else c
  }

  predicate HeadLine(line: string) {
    IsHeading(TrimSpace(line))
  }

  predicate FirstHeadLine(lines: seq<string>, i: nat) {
    i < |lines| && HeadLine(lines[i]) && forall j | 0 <= j < i :: !HeadLine(lines[j])
  }

  predicate LastFullLine(lines: seq<string>, i: nat) {
    i < |lines| && TrimSpace(lines[i]) != "" && forall j | i < j < |lines| :: TrimSpace(lines[j]) == ""
  }

  lemma TrimTwice(s: string)
    ensures TrimSpace(TrimSpace(s)) == TrimSpace(s)
  {
    var x, y := TrimSplit(s);
    assert TrimSpace(s) == "" + TrimSpace(s) + "";
    TrimAround("", TrimSpace(s), "");
  }

  lemma FromHeadingTrims(a: string, b: string)
    requires TrimSpace(a) == TrimSpace(b)
    ensures FromHeading(a) == FromHeading(b)
  {
  }

  lemma BlankTrims(s: string)
    ensures TrimSpace(s) == "" <==> Blank(s)
  {
    var x, y := TrimSplit(s);
    if Blank(s) {
      assert s == s + "" + "";
      TrimAround(s, "", "");
    }
  }

  /** A full line in front of another text, trimmed: its own trimmed start stays in front. */
  lemma TrimFirstLine(line: string, more: string) returns (front: string, rest: string)
    requires '\n' !in line && TrimSpace(line) != "" && TrimSpace(more) != ""
    ensures TrimSpace(line + "\n" + more) == front + "\n" + rest && TrimSpace(rest) == TrimSpace(more)
    ensures front != "" && '\n' !in front && front[0] == TrimSpace(line)[0]
  {
    var x, y := TrimSplit(line);
    var v, w := TrimSplit(more);
    front, rest := TrimSpace(line) + y, v + TrimSpace(more);
    var t := front + "\n" + rest;
    assert line + "\n" + more == x + t + w;
    assert t[0] == TrimSpace(line)[0] && t[|t| - 1] == TrimSpace(more)[|TrimSpace(more)| - 1];
    TrimAround(x, t, w);
    TrimAfterBlank(v, TrimSpace(more));
    TrimTwice(more);
    forall i | 0 <= i < |front| ensures front[i] != '\n' { assert front[i] == line[|x| + i]; }
  }

  /** What becomes of a text by its first line. */
  lemma FirstLineStep(line: string, more: string)
    requires '\n' !in line
    ensures var content := line + "\n" + more;
      && (TrimSpace(line) == "" ==> FromHeading(content) == FromHeading(more))
      && (TrimSpace(line) != "" && HeadLine(line) ==> FromHeading(content) == TrimSpace(content))
      && (TrimSpace(line) != "" && !HeadLine(line) && TrimSpace(more) != "" ==>
            FromHeading(content) == FromHeading(more))
      && (TrimSpace(more) == "" ==> FromHeading(content) == FromHeading(line))
  {
    var content := line + "\n" + more;
    BlankTrims(line);
    BlankTrims(more);
    if TrimSpace(line) == "" {
      TrimAfterBlank(line + "\n", more);
      FromHeadingTrims(content, more);
    }
    if TrimSpace(more) == "" {
      assert content == line + ("\n" + more);
      TrimBeforeBlank(line, "\n" + more);
      FromHeadingTrims(content, line);
    }
    if TrimSpace(line) != "" && TrimSpace(more) != "" {
      var front, rest := TrimFirstLine(line, more);
      FullFirstLine(line, content, front, rest);
      FromHeadingTrims(rest, more);
    }
  }

  lemma FullFirstLine(line: string, content: string, front: string, rest: string)
    requires TrimSpace(content) == front + "\n" + rest && front != "" && '\n' !in front
    requires TrimSpace(line) != "" && front[0] == TrimSpace(line)[0]
    ensures FromHeading(content) == if HeadLine(line) then TrimSpace(content) else FromHeading(rest)
  {
    var c := TrimSpace(content);
    HashFirst(c);
    HashFirst(TrimSpace(line));
    assert c[0] == front[0];
    assert c[|front|..|front| + 1] == "\n";
    assert At(c, "\n", |front|);
    forall i | 0 <= i < |front| ensures !At(c, "\n", i) { assert c[i] == front[i]; NotAt(c, "\n", i, 0); }
    assert Index(c, "\n") == |front|;
    assert c[|front| + 1..] == rest;
  }

  lemma HashFirst(c: string)
    ensures IsHeading(c) <==> c != "" && c[0] == '#'
  {
    if c != "" { assert c[0..1] == [c[0]]; }
  }

  lemma OneLine(line: string)
    requires '\n' !in line
    ensures FromHeading(line) == TrimSpace(line)
  {
    var x, y := TrimSplit(line);
    var c := TrimSpace(line);
    forall i | 0 <= i < |c| ensures !At(c, "\n", i) { assert c[i] == line[|x| + i]; NotAt(c, "\n", i, 0); }
  }

  /** What is left of lines joined together. */
  ghost predicate FromHeadingOf(lines: seq<string>, r: string) {
    && (forall i: nat | FirstHeadLine(lines, i) :: r == TrimSpace(Join(lines[i..], "\n")))
    && ((forall i | 0 <= i < |lines| :: !HeadLine(lines[i])) ==>
          && (forall i: nat | LastFullLine(lines, i) :: r == TrimSpace(lines[i]))
          && ((forall i | 0 <= i < |lines| :: TrimSpace(lines[i]) == "") ==> r == ""))
  }

  lemma {:induction false} JoinBlank(lines: seq<string>)
    ensures TrimSpace(Join(lines, "\n")) == "" <==> forall i | 0 <= i < |lines| :: TrimSpace(lines[i]) == ""
  {
    if lines == [] {
      BlankTrims("");
    } else if |lines| == 1 {
    } else {
      var init, last := lines[..|lines| - 1], lines[|lines| - 1];
      assert Join(lines, "\n") == Join(init, "\n") + "\n" + last;
      hide TrimSpace, Join, Blank;
      JoinBlank(init);
      BlankTrims(Join(init, "\n"));
      BlankTrims(last);
      BlankTrims(Join(lines, "\n"));
      BlankJoined(Join(init, "\n"), last);
      assert lines == init + [last];
    }
  }

  lemma BlankJoined(a: string, b: string)
    ensures Blank(a + "\n" + b) <==> Blank(a) && Blank(b)
  {
    var s := a + "\n" + b;
    if Blank(s) {
      forall i | 0 <= i < |a| ensures IsSpace(a[i]) { assert s[i] == a[i]; }
      forall i | 0 <= i < |b| ensures IsSpace(b[i]) { assert s[|a| + 1 + i] == b[i]; }
    }
  }

  lemma {:induction false} LinesFromHeading(lines: seq<string>)
    requires lines != [] && forall line | line in lines :: '\n' !in line
    ensures FromHeadingOf(lines, FromHeading(Join(lines, "\n")))
  {
    var line, rest := lines[0], lines[1..];
    assert line in lines && forall l | l in rest :: l in lines;
    HashFirst(TrimSpace(line));
    assert HeadLine(line) ==> TrimSpace(line) != "";
    if rest == [] {
      assert lines == [line] && lines[0..] == lines;
      OneLine(line);
    } else {
      hide HeadLine, TrimSpace, FromHeading, FromHeadingOf, Join, IsHeading;
      assert lines == [line] + rest;
      JoinFront(line, rest, "\n");
      LinesFromHeading(rest);
      FirstLineStep(line, Join(rest, "\n"));
      JoinBlank(rest);
      OneLine(line);
      FrontStep(line, rest, FromHeading(Join(rest, "\n")), FromHeading(Join(lines, "\n")));
    }
  }

  /** How what is left changes with one more line in front. */
  ghost predicate FrontMoves(line: string, rest: seq<string>, r: string, r': string) {
    if HeadLine(line) then r' == TrimSpace(Join([line] + rest, "\n"))
    else if forall i | 0 <= i < |rest| :: TrimSpace(rest[i]) == "" then r' == TrimSpace(line)
    else r' == r
  }

  lemma FrontStep(line: string, rest: seq<string>, r: string, r': string)
    requires rest != [] && FromHeadingOf(rest, r) && FrontMoves(line, rest, r, r')
    ensures FromHeadingOf([line] + rest, r')
  {
    hide HeadLine, TrimSpace, Join;
    var lines := [line] + rest;
    forall i: nat | FirstHeadLine(lines, i) ensures r' == TrimSpace(Join(lines[i..], "\n")) {
      FrontFirst(line, rest, r, r', i);
    }
    if forall i | 0 <= i < |lines| :: !HeadLine(lines[i]) {
      FrontNone(line, rest, r, r');
    }
  }

  lemma FrontFirst(line: string, rest: seq<string>, r: string, r': string, i: nat)
    requires rest != [] && FromHeadingOf(rest, r) && FrontMoves(line, rest, r, r') && FirstHeadLine([line] + rest, i)
    ensures r' == TrimSpace(Join(([line] + rest)[i..], "\n"))
  {
    hide HeadLine, TrimSpace, Join;
    var lines := [line] + rest;
    if i == 0 {
      assert lines[0..] == lines;
    } else {
      FirstBehind(line, rest, i);
      assert lines[i..] == rest[i - 1..];
    }
  }

  lemma FrontNone(line: string, rest: seq<string>, r: string, r': string)
    requires rest != [] && FromHeadingOf(rest, r) && FrontMoves(line, rest, r, r')
    requires forall i | 0 <= i < |[line] + rest| :: !HeadLine(([line] + rest)[i])
    ensures var lines := [line] + rest;
      && (forall i: nat | LastFullLine(lines, i) :: r' == TrimSpace(lines[i]))
      && ((forall i | 0 <= i < |lines| :: TrimSpace(lines[i]) == "") ==> r' == "")
  {
    hide HeadLine, TrimSpace, Join;
    var lines := [line] + rest;
    assert lines[0] == line;
    forall i | 0 <= i < |rest| ensures !HeadLine(rest[i]) { assert lines[i + 1] == rest[i]; }
    forall i: nat | LastFullLine(lines, i) ensures r' == TrimSpace(lines[i]) {
      LastBehind(line, rest, i);
    }
    if forall i | 0 <= i < |lines| :: TrimSpace(lines[i]) == "" {
      forall i | 0 <= i < |rest| ensures TrimSpace(rest[i]) == "" { assert lines[i + 1] == rest[i]; }
    }
  }

  lemma FirstBehind(line: string, rest: seq<string>, i: nat)
    requires i > 0 && FirstHeadLine([line] + rest, i)
    ensures FirstHeadLine(rest, i - 1) && !HeadLine(line) && TrimSpace(rest[i - 1]) != ""
  {
    var lines := [line] + rest;
    assert lines[0] == line && lines[i] == rest[i - 1];
    forall j | 0 <= j < i - 1 ensures !HeadLine(rest[j]) { assert lines[j + 1] == rest[j]; }
    HashFirst(TrimSpace(rest[i - 1]));
  }

  lemma LastBehind(line: string, rest: seq<string>, i: nat)
    requires LastFullLine([line] + rest, i)
    ensures if i == 0 then forall j | 0 <= j < |rest| :: TrimSpace(rest[j]) == ""
            else LastFullLine(rest, i - 1) && ([line] + rest)[i] == rest[i - 1]
  {
    var lines := [line] + rest;
    forall j | 0 <= j < |rest| && i < j + 1 ensures TrimSpace(rest[j]) == "" { assert lines[j + 1] == rest[j]; }
  }

  /** Everything before the first line that starts with a heading is dropped, and the text from that line on kept. In a
    * text without such a line only the last line that is not blank is kept. */
  lemma PreambleDropped(content: string)
    ensures FromHeadingOf(Lines(content), FromHeading(content))
  {
    LinesUnbroken(content);
    JoinLines(content);
    LinesFromHeading(Lines(content));
  }

  method DropPreamble(content: string) returns (r: string)
    ensures r == FromHeading(content)
  {
    r := content;
    while true
      invariant FromHeading(r) == FromHeading(content)
      decreases |r|
    {
      TrimShorter(r);
      TrimTwice(r);
      r := TrimSpace(r);
      if r == "" || IsHeading(r) {
        break;
      }
      var idx := Index(r, "\n");
      if idx > 0 {
        r := r[idx + 1..];
      } else {
        break;
      }
    }
  }

  /** The line mentions one of the phrases. */
  predicate Mentions(line: string) {
    exists k :: 0 <= k < |SUFFIXES| && Contains(line, SUFFIXES[k])
  }

  function WithoutSuffix(lines: seq<string>, checks: nat): seq<string> {
    if checks == 0 || lines == [] then lines
    else
      var last := TrimSpace(lines[|lines| - 1]);
      if last == "" || Mentions(last) then WithoutSuffix(lines[..|lines| - 1], checks - 1) else lines
  }

  /** The line is dropped when it ends a text. */
  predicate Droppable(line: string) {
    TrimSpace(line) == "" || Mentions(TrimSpace(line))
  }

  /** At most `checks` lines are dropped at the end, each blank or with a phrase, and no such line is kept at the end
    * unless that many were dropped. */
  lemma {:induction false} SuffixDropped(lines: seq<string>, checks: nat)
    ensures var kept := WithoutSuffix(lines, checks);
      && kept <= lines && |lines| - |kept| <= checks
      && (forall i | |kept| <= i < |lines| :: Droppable(lines[i]))
      && (kept != [] && |lines| - |kept| < checks ==> !Droppable(kept[|kept| - 1]))
  {
    if checks == 0 || lines == [] {
    } else {
      var init, last := lines[..|lines| - 1], lines[|lines| - 1];
      assert WithoutSuffix(lines, checks) == if Droppable(last) then WithoutSuffix(init, checks - 1) else lines;
      hide Droppable;
      SuffixDropped(init, checks - 1);
      assert lines == init + [last];
    }
  }

  method ShouldRemove(line: string) returns (shouldRemove: bool)
    ensures shouldRemove == Mentions(line)
  {
    shouldRemove := false;
    for k := 0 to |SUFFIXES|
      invariant forall j | 0 <= j < k :: !Contains(line, SUFFIXES[j])
    {
      if Contains(line, SUFFIXES[k]) {
        return true;
      }
    }
  }

  method DropSuffix(content: string) returns (r: string)
    ensures r == Join(WithoutSuffix(Lines(content), 5), "\n")
  {
    var lines := TrimLines(Lines(content));
    r := Join(lines, "\n");
  }

  method TrimLines(all: seq<string>) returns (lines: seq<string>)
    ensures lines == WithoutSuffix(all, 5)
  {
    lines := all;
    var i := 0;
    while i < 5 && |lines| > 0
      invariant 0 <= i <= 5 && WithoutSuffix(lines, 5 - i) == WithoutSuffix(all, 5)
    {
      var lastLine := TrimSpace(lines[|lines| - 1]);
      var shouldRemove := ShouldRemove(lastLine);
      if lastLine != "" && !shouldRemove {
        break;
      }
      lines := lines[..|lines| - 1];
      i := i + 1;
    }
  }

  function Tidied(content: string): string {
    TrimSpace(Join(WithoutSuffix(Lines(FromHeading(content)), 5), "\n"))
  }

  function Cleaned(content: string): string {
    Tidied(UnfencedFrom(TrimSpace(content), 0))
  }

  /** postProcessContent. */
  method PostProcessContent(content: string) returns (r: string)
    ensures r == Cleaned(content)
  {
    r := TrimSpace(content);
    r := Unfence(r);
    r := DropPreamble(r);
    r := DropSuffix(r);
    r := TrimSpace(r);
  }

  // ---------- What cleaning up keeps ----------

  /** A whole answer inside a fence is cleaned up like the text inside. */
  lemma FenceDoesNotMatter(w: nat, body: string)
    requires w < |WRAPPERS|
    ensures Cleaned(WRAPPERS[w] + body + "\n```") == Tidied(TrimSpace(body))
    ensures !Fenced(TrimSpace(body)) ==> Cleaned(WRAPPERS[w] + body + "\n```") == Cleaned(body)
  {
    var content := WRAPPERS[w] + body + "\n```";
    assert content[0] == '`' && content[|content| - 1] == '`';
    assert content == "" + content + "";
    TrimAround("", content, "");
    UnfenceUndoes(w, body);
    if !Fenced(TrimSpace(body)) {
      NotFenced(TrimSpace(body), 0);
    }
  }

  lemma TrimKept(s: string)
    requires Trimmed(s)
    ensures TrimSpace(s) == s
  {
  }

  lemma NotFencedHeading(c: string)
    requires IsHeading(c)
    ensures !Fenced(c)
  {
    assert c[0..1][0] == '#';
    forall w | 0 <= w < |WRAPPERS| ensures !HasPrefix(c, WRAPPERS[w]) { NotAt(c, WRAPPERS[w], 0, 0); }
  }

  function LastLine(content: string): string {
    var lines := Lines(content);
    lines[|lines| - 1]
  }

  /** The last line ends as the text does. */
  lemma LastLineEnd(c: string)
    requires c != "" && !IsSpace(c[|c| - 1])
    ensures LastLine(c) != "" && TrimSpace(LastLine(c)) != ""
  {
    var line := LastLine(c);
    assert c[|c| - 1] != '\n';
    assert line[|line| - 1] == c[|c| - 1];
    var x, y := TrimSplit(line);
    InsideTrim(x, TrimSpace(line), y, |line| - 1);
  }

  /** A finished section, one that starts with its heading and has no blanks around it, is left exactly as it is
    * if and only if its last line mentions none of the phrases. */
  lemma FinishedKeptIff(c: string)
    requires Trimmed(c) && IsHeading(c)
    ensures Cleaned(c) == c <==> !Mentions(TrimSpace(LastLine(c)))
  {
    TrimKept(c);
    NotFencedHeading(c);
    NotFenced(c, 0);
    LastLineEnd(c);
    JoinLines(c);
    if Mentions(TrimSpace(LastLine(c))) {
      var lines := Lines(c);
      var kept := WithoutSuffix(lines[..|lines| - 1], 4);
      SuffixDropped(lines[..|lines| - 1], 4);
      assert kept == lines[..|kept|];
      TrimShorter(Join(kept, "\n"));
      JoinShorter(lines, |kept|);
    }
  }

  lemma {:induction false} JoinPrefix(lines: seq<string>, k: nat)
    requires k <= |lines|
    ensures Join(lines[..k], "\n") <= Join(lines, "\n")
  {
    if k == |lines| {
      assert lines[..k] == lines;
    } else {
      var init := lines[..|lines| - 1];
      assert init[..k] == lines[..k];
      JoinPrefix(init, k);
    }
  }

  /** Dropping the last line drops text, unless it was the only line and empty. */
  lemma JoinShorter(lines: seq<string>, k: nat)
    requires k < |lines| && Join(lines, "\n") != ""
    ensures |Join(lines[..k], "\n")| < |Join(lines, "\n")|
  {
    var init := lines[..|lines| - 1];
    assert init[..k] == lines[..k];
    JoinPrefix(init, k);
  }

  lemma {:induction false} HeadingShape(content: string)
    ensures var c := FromHeading(content); Trimmed(c) && (c == "" || IsHeading(c) || '\n' !in c)
    decreases |content|
  {
    var x, y := TrimSplit(content);
    var c := TrimSpace(content);
    if c != "" && !IsHeading(c) {
      var idx := Index(c, "\n");
      if idx > 0 {
        HeadingShape(c[idx + 1..]);
      } else {
        NotAt(c, "\n", 0, 0);
        forall i | 0 <= i < |c| ensures c[i] != '\n' {
          assert !At(c, "\n", i) && c[i..i + 1] == [c[i]];
        }
      }
    }
  }

  lemma CutShape(c: string, d: string)
    requires Trimmed(c) && (c == "" || IsHeading(c) || '\n' !in c) && d <= c
    ensures TrimSpace(d) == "" || IsHeading(TrimSpace(d)) || '\n' !in TrimSpace(d)
  {
    var x, y := TrimSplit(d);
    var t := TrimSpace(d);
    if t != "" {
      if IsHeading(c) {
        assert c[0..1][0] == '#' && d[0] == '#';
        assert x == "" by { PastBlank(d, x, 0); }
        assert t[0] == d[0] && t[0..1] == "#";
      } else {
        forall i | 0 <= i < |t| ensures t[i] != '\n' { assert t[i] == d[|x| + i] == c[|x| + i]; }
      }
    }
  }

  /** Whatever the agent answered, the content that is stored is empty, starts with a heading, or is one line. */
  lemma CleanedShape(content: string)
    ensures var r := Cleaned(content); r == "" || IsHeading(r) || '\n' !in r
  {
    var c := FromHeading(UnfencedFrom(TrimSpace(content), 0));
    var lines := Lines(c);
    var kept := WithoutSuffix(lines, 5);
    HeadingShape(UnfencedFrom(TrimSpace(content), 0));
    JoinLines(c);
    SuffixDropped(lines, 5);
    JoinPrefix(lines, |kept|);
    assert kept == lines[..|kept|];
    CutShape(c, Join(kept, "\n"));
  }

  // ---------- Making do without a summary ----------

  /** Without Markdown marks. */
  function Plain(line: string): string {
    if line == "" then ""
    else
      var c := line[|line| - 1];
      Plain(line[..|line| - 1]) + (if c == '*' || c == '`' then "" else [c])
  }

  /** The lines worth quoting, without their Markdown marks. */
  function Meaningful(lines: seq<string>): seq<string> {
    if lines == [] then []
    else
      var line := TrimSpace(lines[|lines| - 1]);
      Meaningful(lines[..|lines| - 1]) + (if line == "" || IsHeading(line) then [] else [Plain(line)])
  }

  function Total(lines: seq<string>): nat {
    if lines == [] then 0 else Total(lines[..|lines| - 1]) + |lines[|lines| - 1]|
  }

  const MAX_CHARS: nat := 200

  function Opening(line: string): string {
    if |line| > MAX_CHARS - 3 then line[..MAX_CHARS - 3] + "..." else line
  }

  /** The lines quoted once the first `k` are known to fit. */
  function QuotedFrom(lines: seq<string>, k: nat): seq<string>
    requires k <= |lines|
    decreases |lines| - k
  {
    if k == |lines| then lines
    else if Total(lines[..k + 1]) <= MAX_CHARS then QuotedFrom(lines, k + 1)
    else lines[..k] + (if Total(lines[..k]) == 0 then [Opening(lines[k])] else [])
  }

  function Fallback(content: string): string {
    Join(QuotedFrom(Meaningful(Lines(content)), 0), " ")
  }

  lemma {:induction false} MeaningfulPrefix(lines: seq<string>, i: nat)
    requires i <= |lines|
    ensures Meaningful(lines[..i]) <= Meaningful(lines)
  {
    if i == |lines| {
      assert lines[..i] == lines;
    } else {
      var init := lines[..|lines| - 1];
      assert init[..i] == lines[..i];
      MeaningfulPrefix(init, i);
    }
  }

  /** As long as lines fit, they are all quoted. */
  lemma {:induction false} QuotesFitting(lines: seq<string>, k: nat)
    requires k <= |lines| && Total(lines[..k]) <= MAX_CHARS
    ensures QuotedFrom(lines, 0) == QuotedFrom(lines, k)
  {
    if k > 0 {
      assert lines[..k][..k - 1] == lines[..k - 1];
      QuotesFitting(lines, k - 1);
    }
  }

  lemma TotalAppend(kept: seq<string>, line: string)
    ensures Total(kept + [line]) == Total(kept) + |line|
  {
  }

  /** The first line that does not fit ends the quotation. */
  lemma QuotesStop(lines: seq<string>, kept: seq<string>, line: string)
    requires kept + [line] <= lines && Total(kept) <= MAX_CHARS < Total(kept) + |line|
    ensures QuotedFrom(lines, 0) == if Total(kept) == 0 then kept + [Opening(line)] else kept
  {
    var n := |kept|;
    assert lines[..n + 1] == kept + [line] && lines[..n] == kept;
    assert lines[n] == (kept + [line])[n];
    TotalAppend(kept, line);
    QuotesFitting(lines, n);
  }

  lemma MeaningfulStep(lines: seq<string>, i: nat)
    requires i < |lines|
    ensures var line := TrimSpace(lines[i]);
      Meaningful(lines[..i + 1]) == Meaningful(lines[..i]) + if line == "" || IsHeading(line) then [] else [Plain(line)]
    ensures Meaningful(lines[..i + 1]) <= Meaningful(lines)
  {
    assert lines[..i + 1][..i] == lines[..i];
    MeaningfulPrefix(lines, i + 1);
  }

  /** The lines that are worth quoting. */
  predicate Worth(line: string) {
    TrimSpace(line) != "" && !IsHeading(TrimSpace(line))
  }

  /** `place` tells in order where the lines worth quoting stand, and `quoted` is what is quoted of them. */
  ghost predicate Chosen(lines: seq<string>, place: seq<nat>, quoted: seq<string>) {
    && |place| == |quoted|
    && (forall i | 0 <= i < |place| ::
          place[i] < |lines| && Worth(lines[place[i]]) && quoted[i] == Plain(TrimSpace(lines[place[i]])))
    && (forall i, j | 0 <= i < j < |place| :: place[i] < place[j])
    && (forall p: nat | p < |lines| && Worth(lines[p]) :: p in place)
  }

  lemma ChosenNone()
    ensures Chosen([], [], Meaningful([]))
  {
  }

  lemma ChosenStep(lines: seq<string>, place: seq<nat>, quoted: seq<string>, line: string)
    requires Chosen(lines, place, quoted)
    ensures Worth(line) ==> Chosen(lines + [line], place + [|lines|], quoted + [Plain(TrimSpace(line))])
    ensures !Worth(line) ==> Chosen(lines + [line], place, quoted)
  {
    hide Worth, TrimSpace, Plain;
  }

  lemma MeaningfulLast(lines: seq<string>)
    requires lines != []
    ensures var init, line := lines[..|lines| - 1], lines[|lines| - 1];
      Meaningful(lines) == if Worth(line) then Meaningful(init) + [Plain(TrimSpace(line))] else Meaningful(init)
  {
    hide TrimSpace, Plain;
  }

  /** Exactly the lines that are neither blank nor headings count, in order, trimmed and without Markdown marks. */
  lemma {:induction false} MeaningfulExactly(lines: seq<string>) returns (place: seq<nat>)
    ensures Chosen(lines, place, Meaningful(lines))
  {
    hide Worth, TrimSpace, Plain, Chosen, Meaningful, IsHeading, HasPrefix;
    if lines == [] {
      place := [];
      ChosenNone();
    } else {
      var init, line := lines[..|lines| - 1], lines[|lines| - 1];
      MeaningfulLast(lines);
      assert lines == init + [line];
      var before := MeaningfulExactly(init);
      ChosenStep(init, before, Meaningful(init), line);
      place := if Worth(line) then before + [|init|] else before;
    }
  }

  method Shortened(line: string) returns (r: string)
    ensures r == Opening(line)
  {
    r := line;
    if |line| > MAX_CHARS - 3 {
      r := line[..MAX_CHARS - 3] + "...";
    }
  }

  /** When every line fits, all are quoted. */
  lemma QuotesAll(lines: seq<string>, i: nat)
    requires i == |lines| && Total(Meaningful(lines[..i])) <= MAX_CHARS
    ensures QuotedFrom(Meaningful(lines), 0) == Meaningful(lines[..i])
  {
    var all := Meaningful(lines);
    assert lines[..i] == lines && all[..|all|] == all;
    QuotesFitting(all, |all|);
  }

  /** generateFallbackSummary. */
  method GenerateFallbackSummary(content: string) returns (summary: string)
    ensures summary == Fallback(content)
  {
    var lines := Lines(content);
    var summaryLines: seq<string>, charCount: nat := [], 0;
    var i := 0;
    ghost var stopped := false;
    while i < |lines|
      invariant i <= |lines|
      invariant !stopped && summaryLines == Meaningful(lines[..i])
      invariant charCount == Total(summaryLines) <= MAX_CHARS
    {
      var line := TrimSpace(lines[i]);
      MeaningfulStep(lines, i);
      i := i + 1;
      if line == "" || IsHeading(line) {
        continue;
      }
      line := Plain(line);
      TotalAppend(summaryLines, line);
      if charCount + |line| > MAX_CHARS {
        QuotesStop(Meaningful(lines), summaryLines, line);
        if charCount == 0 {
          line := Shortened(line);
          summaryLines := summaryLines + [line];
        }
        stopped := true;
        break;
      }
      summaryLines := summaryLines + [line];
      charCount := charCount + |line|;
    }
    if !stopped {
      QuotesAll(lines, i);
    }
    summary := Join(summaryLines, " ");
  }

  lemma {:induction false} JoinLength(lines: seq<string>)
    ensures |Join(lines, " ")| == Total(lines) + if lines == [] then 0 else |lines| - 1
  {
    if |lines| == 1 {
      assert lines[..0] == [];
    } else if |lines| > 1 {
      JoinLength(lines[..|lines| - 1]);
    }
  }

  lemma {:induction false} QuotedFits(lines: seq<string>, k: nat)
    requires k <= |lines| && Total(lines[..k]) <= MAX_CHARS
    ensures Total(QuotedFrom(lines, k)) <= MAX_CHARS
    decreases |lines| - k
  {
    if k == |lines| {
      assert lines[..k] == lines;
    } else if Total(lines[..k + 1]) <= MAX_CHARS {
      QuotedFits(lines, k + 1);
    } else {
      var quoted := QuotedFrom(lines, k);
      assert lines[..k] + [] == lines[..k];
      assert Total(lines[..k]) == 0 ==> quoted[..|quoted| - 1] == lines[..k];
    }
  }

  /** The first `n` lines are the longest run that fits into 200 characters. */
  predicate LongestFit(lines: seq<string>, n: nat) {
    n <= |lines| && Total(lines[..n]) <= 200 && (n < |lines| ==> Total(lines[..n + 1]) > 200)
  }

  /** Quoted is the longest run of lines that fits, or, where that has no text, the start of the next line. */
  lemma {:induction false} QuotedExactly(lines: seq<string>, k: nat) returns (n: nat)
    requires k <= |lines| && Total(lines[..k]) <= 200
    ensures LongestFit(lines, n)
    ensures n == |lines| ==> QuotedFrom(lines, k) == lines
    ensures n < |lines| && Total(lines[..n]) > 0 ==> QuotedFrom(lines, k) == lines[..n]
    ensures n < |lines| && Total(lines[..n]) == 0 ==>
      |lines[n]| > 200 && QuotedFrom(lines, k) == lines[..n] + [lines[n][..197] + "..."]
    decreases |lines| - k
  {
    if k == |lines| {
      assert lines[..k] == lines;
      n := k;
    } else if Total(lines[..k + 1]) <= MAX_CHARS {
      n := QuotedExactly(lines, k + 1);
    } else {
      n := k;
      assert lines[..k + 1] == lines[..k] + [lines[k]];
      TotalAppend(lines[..k], lines[k]);
    }
  }

  lemma {:induction false} PlainAppend(a: string, b: string)
    ensures Plain(a + b) == Plain(a) + Plain(b)
  {
    if b == "" {
      assert a + b == a;
    } else {
      assert (a + b)[..|a + b| - 1] == a + b[..|b| - 1];
      PlainAppend(a, b[..|b| - 1]);
    }
  }

  /** Plain text stays, marks go, wherever they stand. */
  lemma PlainParts(a: string, marks: string, b: string)
    requires forall i | 0 <= i < |marks| :: marks[i] == '*' || marks[i] == '`'
    requires '*' !in b && '`' !in b
    ensures Plain(a + marks + b) == Plain(a) + b
  {
    hide Plain;
    PlainAppend(a + marks, b);
    PlainAppend(a, marks);
    PlainMarks(marks);
    PlainKept(b);
  }

  lemma {:induction false} PlainMarks(marks: string)
    requires forall i | 0 <= i < |marks| :: marks[i] == '*' || marks[i] == '`'
    ensures Plain(marks) == ""
  {
    if marks == "" {
    } else {
      PlainMarks(marks[..|marks| - 1]);
    }
  }

  lemma {:induction false} PlainKept(b: string)
    requires '*' !in b && '`' !in b
    ensures Plain(b) == b
  {
    if b == "" {
    } else {
      PlainKept(b[..|b| - 1]);
    }
  }

  /** The quoted text stays within 200 code points, but the blanks that join the lines come on top, so the
    * fallback itself has no bound: lines that hold nothing but Markdown marks count for nothing. */
  lemma FallbackLength(content: string)
    ensures var quoted := QuotedFrom(Meaningful(Lines(content)), 0);
      Total(quoted) <= 200 && |Fallback(content)| == Total(quoted) + if quoted == [] then 0 else |quoted| - 1
  {
    var lines := Meaningful(Lines(content));
    assert lines[..0] == [];
    QuotedFits(lines, 0);
    JoinLength(QuotedFrom(lines, 0));
  }

  // ---------- The whole answer ----------

  /** What the parser makes of a response; of one that upper-casing shifts, whatever `other` may be. */
  function Parsed(up: Casing, response: string, other: Parts): Parts {
    if Steady(up, response) then Parse(up, response, Fallback(response)) else other
  }

  /** What is stored for a response. */
  ghost predicate Stores(up: Casing, response: string, configured: int, other: Parts, r: Parts) {
    var parts := Parsed(up, TrimSpace(response), other);
    r.content == Cleaned(parts.content) && Shortens(parts.summary, configured, r.summary)
  }

  /** For every response, on every marker branch, the stored summary is as short as configured, or three code points. */
  method PostProcessContentWithSummary(up: Casing, response: string, configured: int, other: Parts) returns (r: Parts)
    ensures Stores(up, response, configured, other, r)
    ensures |r.summary| <= (if configured == 0 then 200 else configured) || |r.summary| <= 3
  {
    hide Shortens, Cleaned, Steady;
    var trimmed := TrimSpace(response);
    var parts := other;
    if Steady(up, trimmed) {
      var fallback := GenerateFallbackSummary(trimmed);
      parts := Parse(up, trimmed, fallback);
    }
    var content := PostProcessContent(parts.content);
    var summary := Shorten(parts.summary, configured);
    r := Parts(content, summary);
  }

  /** The summary is as short as configured; 0 stands for 200 characters. */
  predicate Fits(summary: string, configured: int) {
    |summary| <= if configured == 0 then 200 else configured
  }

  /** An answer in the requested format whose content is a finished section and whose summary is short enough is
    * stored word for word, unless the content mentions the marker or its last line mentions a phrase. */
  lemma StoredWordForWord(up: Casing, c: string, s: string, configured: int, other: Parts, r: Parts)
    requires Steady(up, c) && Steady(up, s) && Trimmed(c) && IsHeading(c) && Trimmed(s)
    ensures Stores(up, Requested(c, s), configured, other, r) && Fits(s, configured) ==>
      MentionsMarker(up, c) || (r.summary == s && (r.content == c <==> !Mentions(TrimSpace(LastLine(c)))))
  {
    TrimKept(c);
    TrimKept(s);
    ParseInvertsIff(up, c, s, Fallback(TrimSpace(Requested(c, s))));
    FinishedKeptIff(c);
  }

  /** What is stored when the response is taken apart into a finished section and a short summary. */
  lemma StoresFinished(up: Casing, response: string, c: string, s: string, configured: int, other: Parts, r: Parts)
    requires Trimmed(c) && IsHeading(c) && Trimmed(s) && |s| <= MaxLength(configured)
    requires Parsed(up, TrimSpace(response), other) == Parts(c, s) && Stores(up, response, configured, other, r)
    ensures r.summary == s && (r.content == c <==> !Mentions(TrimSpace(LastLine(c))))
  {
    hide Parsed, Cleaned, Mentions, TrimSpace, MaxLength;
    TrimKept(s);
    FinishedKeptIff(c);
  }

  lemma HeadingSolid(c: string)
    requires IsHeading(c)
    ensures c != "" && !IsSpace(c[0])
  {
    assert c[0..1][0] == '#';
  }

  lemma ParsedUnannounced(up: Casing, c: string, s: string, other: Parts)
    requires Steady(up, c) && Steady(up, s) && c != "" && !IsSpace(c[0]) && TrimSpace(c) == c && TrimSpace(s) == s
    requires !MentionsMarker(up, c) && !MentionsContentMarker(up, c)
    ensures Parsed(up, TrimSpace(Unannounced(c, "\n" + s)), other) == Parts(c, s)
  {
    hide TrimSpace, Steady, IsSpace, MentionsMarker, MentionsContentMarker, Parse, Unannounced, Fallback;
    var t := TrimUnannounced(up, c, s);
    ParseUnannouncedIff(up, c, t, Fallback(Unannounced(c, t)));
  }

  /** The same holds of an answer that leaves out the first marker. */
  lemma StoredUnannounced(up: Casing, c: string, s: string, configured: int, other: Parts, r: Parts)
    requires Steady(up, c) && Steady(up, s) && Trimmed(c) && IsHeading(c) && Trimmed(s)
    ensures Stores(up, Unannounced(c, "\n" + s), configured, other, r) && Fits(s, configured) ==>
      || MentionsMarker(up, c) || MentionsContentMarker(up, c)
      || (r.summary == s && (r.content == c <==> !Mentions(TrimSpace(LastLine(c)))))
  {
    TrimKept(c);
    TrimKept(s);
    HeadingSolid(c);
    hide TrimSpace, Steady, Trimmed, IsHeading, Stores, IsSpace, Mentions, MentionsMarker, MentionsContentMarker,
         Unannounced, Parsed, LastLine;
    var response := Unannounced(c, "\n" + s);
    if Stores(up, response, configured, other, r) && Fits(s, configured) && !MentionsMarker(up, c) &&
       !MentionsContentMarker(up, c) {
      ParsedUnannounced(up, c, s, other);
      StoresFinished(up, response, c, s, configured, other, r);
    }
  }

  /** A response without a summary marker is the content, cleaned up; its summary is made from it. */
  lemma StoredUnmarked(up: Casing, response: string, configured: int, other: Parts, r: Parts)
    requires Steady(up, TrimSpace(response)) && !MentionsMarker(up, TrimSpace(response))
    requires Stores(up, response, configured, other, r)
    ensures r.content == Cleaned(response) && Shortens(Fallback(TrimSpace(response)), configured, r.summary)
    ensures Trimmed(response) && IsHeading(response) ==>
      (r.content == response <==> !Mentions(TrimSpace(LastLine(response))))
  {
    ParseUnmarked(up, TrimSpace(response), Fallback(TrimSpace(response)));
    TrimTwice(response);
    if Trimmed(response) && IsHeading(response) {
      FinishedKeptIff(response);
    }
  }
}
