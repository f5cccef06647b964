/** What becomes of an agent's answer for one section (internal/report/generator.go):
  * splitting it at the markers, and keeping the summary short.
  */
module ResponseParser {
  import opened Texts

  const CONTENT_MARKER: string := "[CONTENT]"
  const SUMMARY_MARKER: string := "[SUMMARY]"

  datatype Parts = Parts(content: string, summary: string)

  /** parseStructuredResponse, given what the fallback makes of the response. The positions found in the upper-cased
    * text are those of the text itself only where upper-casing moves no byte. */
  function Parse(up: Casing, response: string, fallback: string): Parts
    requires Steady(up, response)
  {
    var upper := ToUpper(up, response);
    var contentIdx, summaryIdx := Index(upper, CONTENT_MARKER), Index(upper, SUMMARY_MARKER);
    if contentIdx >= 0 && summaryIdx > contentIdx then
      // Both markers start with '[', so they cannot overlap.
      MarkersApart(upper, contentIdx, summaryIdx);
      Parts(TrimSpace(response[contentIdx + 9..summaryIdx]), TrimSpace(response[summaryIdx + 9..]))
    else if summaryIdx >= 0 then
      Parts(TrimSpace(response[..summaryIdx]), TrimSpace(response[summaryIdx + 9..]))
    else
      Parts(response, fallback)
  }

  lemma MarkersApart(s: string, i: int, j: int)
    requires At(s, CONTENT_MARKER, i) && At(s, SUMMARY_MARKER, j) && i < j
    ensures i + 9 <= j
  {
    forall q | i < q < i + 9 ensures !At(s, SUMMARY_MARKER, q) {
      assert s[q] == s[i..i + 9][q - i] != '[';
      NotAt(s, SUMMARY_MARKER, q, 0);
    }
  }

  /** The answer that the prompt asks for. */
  function Requested(c: string, s: string): string {
    "[CONTENT]\n" + c + "\n\n[SUMMARY]\n" + s
  }

  /** The text holds the summary marker in some letter case. */
  predicate MentionsMarker(up: Casing, c: string) {
    Contains(ToUpper(up, c), SUMMARY_MARKER)
  }

  // ---------- Where the markers stand in a requested answer ----------

  /** The part of an answer before its summary, and the whole up to the blanks at its end. */
  function UpToMarker(c: string): string {
    "[CONTENT]\n" + c + "\n\n" + SUMMARY_MARKER
  }

  /** A text between a solid front and blanks loses only the blanks. */
  lemma TrimSolid(m: string, t: string, y: string)
    requires m != "" && !IsSpace(m[0]) && Blank(y) && !IsSpace((m + t)[|m + t| - 1])
    ensures TrimSpace(m + t + y) == m + t
  {
    assert "" + (m + t) + y == m + t + y;
    TrimAround("", m + t, y);
  }

  lemma TrimEmpty()
    ensures TrimSpace("") == ""
  {
  }

  lemma TrimFront(x: string, t: string)
    requires Blank(x) && Trimmed(t)
    ensures TrimSpace(x + t) == t
  {
    assert x + t + "" == x + t;
    TrimAround(x, t, "");
  }

  lemma RequestedSolid(c: string)
    ensures UpToMarker(c)[0] == '[' && UpToMarker(c)[|UpToMarker(c)| - 1] == ']'
  {
  }

  /** Trimming an answer takes away only blanks after its last marker. */
  lemma TrimAfter(m: string, s: string) returns (t: string)
    requires m != "" && !IsSpace(m[0]) && !IsSpace(m[|m| - 1])
    ensures TrimSpace(m + ("\n" + s)) == m + t && TrimSpace(t) == TrimSpace(s)
    ensures t <= "\n" + s
  {
    hide TrimSpace, IsSpace;
    var x, y := TrimSplit("\n" + s);
    var kept := TrimSpace("\n" + s);
    TrimLine(s);
    if kept == "" {
      t := "";
      assert m + t == m && m + t + (x + y) == m + ("\n" + s);
      TrimSolid(m, t, x + y);
      TrimEmpty();
    } else {
      t := x + kept;
      assert m + t + y == m + ("\n" + s) && (m + t)[|m + t| - 1] == kept[|kept| - 1];
      TrimSolid(m, t, y);
      TrimFront(x, kept);
    }
  }

  lemma TrimRequested(c: string, s: string) returns (t: string)
    ensures TrimSpace(Requested(c, s)) == UpToMarker(c) + t && TrimSpace(t) == TrimSpace(s)
  {
    hide TrimSpace, UpToMarker, IsSpace;
    RequestedSplit(c, s);
    SolidBrackets();
    RequestedSolid(c);
    t := TrimAfter(UpToMarker(c), s);
  }

  lemma SolidBrackets()
    ensures !IsSpace('[') && !IsSpace(']')
  {
  }

  lemma RequestedSplit(c: string, s: string)
    ensures Requested(c, s) == UpToMarker(c) + ("\n" + s)
  {
  }

  lemma TrimLine(s: string)
    ensures TrimSpace("\n" + s) == TrimSpace(s)
  {
  }

  lemma TrimBlock(c: string)
    ensures TrimSpace("\n" + c + "\n\n") == TrimSpace(c)
  {
    var x, y := TrimSplit(c);
    assert "\n" + c + "\n\n" == ("\n" + x) + TrimSpace(c) + (y + "\n\n");
    TrimAround("\n" + x, TrimSpace(c), y + "\n\n");
  }

  lemma UpperRequested(up: Casing, c: string, t: string)
    ensures ToUpper(up, UpToMarker(c) + t) == "[CONTENT]\n" + ToUpper(up, c) + "\n\n[SUMMARY]" + ToUpper(up, t)
  {
  }

  /** In a requested answer the first summary marker is the first one in `c`, or the requested one. */
  lemma FirstMarker(up: Casing, c: string, t: string)
    ensures var upper := ToUpper(up, UpToMarker(c) + t);
      Index(upper, CONTENT_MARKER) == 0 &&
      Index(upper, SUMMARY_MARKER) ==
        10 + (if MentionsMarker(up, c) then Index(ToUpper(up, c), SUMMARY_MARKER) else |c| + 2)
  {
    UpperRequested(up, c, t);
    FirstMarkerUpper(ToUpper(up, c), ToUpper(up, t));
  }

  lemma FirstMarkerUpper(u: string, v: string)
    ensures var upper := "[CONTENT]\n" + u + "\n\n[SUMMARY]" + v;
      Index(upper, CONTENT_MARKER) == 0 &&
      Index(upper, SUMMARY_MARKER) == 10 + (if Contains(u, SUMMARY_MARKER) then Index(u, SUMMARY_MARKER) else |u| + 2)
  {
    var upper := "[CONTENT]\n" + u + "\n\n[SUMMARY]" + v;
    MarkersAt(u, v);
    forall i | 0 <= i <= |u| + 1 ensures At(upper, SUMMARY_MARKER, 10 + i) <==> At(u, SUMMARY_MARKER, i) {
      MarkerInside(u, v, i);
    }
    forall i | 0 <= i < 10 ensures !At(upper, SUMMARY_MARKER, i) {
      NoMarkerBefore(u + "\n\n[SUMMARY]" + v, i);
      assert upper == "[CONTENT]\n" + (u + "\n\n[SUMMARY]" + v);
    }
    FirstAt(upper, u, |u|);
  }

  lemma MarkersAt(u: string, v: string)
    ensures var upper := "[CONTENT]\n" + u + "\n\n[SUMMARY]" + v;
      At(upper, CONTENT_MARKER, 0) && At(upper, SUMMARY_MARKER, 12 + |u|)
  {
  }

  lemma FirstAt(upper: string, u: string, n: nat)
    requires |u| == n && At(upper, SUMMARY_MARKER, 12 + n)
    requires forall i | 0 <= i < 10 :: !At(upper, SUMMARY_MARKER, i)
    requires forall i | 0 <= i <= n + 1 :: At(upper, SUMMARY_MARKER, 10 + i) <==> At(u, SUMMARY_MARKER, i)
    ensures Index(upper, SUMMARY_MARKER) ==
      10 + (if Contains(u, SUMMARY_MARKER) then Index(u, SUMMARY_MARKER) else n + 2)
  {
    var r := Index(upper, SUMMARY_MARKER);
    assert r != -1 && 10 <= r <= 12 + n;
    var j := Index(u, SUMMARY_MARKER);
    if j != -1 {
      assert At(upper, SUMMARY_MARKER, 10 + j);
      assert At(u, SUMMARY_MARKER, r - 10);
    } else {
      assert r < 12 + n ==> !At(u, SUMMARY_MARKER, r - 10);
    }
  }

  /** A marker holds no line break, so it cannot reach over one. */
  lemma MarkerInside(u: string, t: string, i: nat)
    requires i <= |u| + 1
    ensures At("[CONTENT]\n" + u + "\n\n[SUMMARY]" + t, SUMMARY_MARKER, 10 + i) <==> At(u, SUMMARY_MARKER, i)
  {
    var s := "[CONTENT]\n" + u + "\n\n[SUMMARY]" + t;
    if i + 9 <= |u| {
      assert s[10 + i..19 + i] == u[i..i + 9];
    } else {
      var k := if i <= |u| then |u| - i else 0;
      NotAt(s, SUMMARY_MARKER, 10 + i, k);
    }
  }

  lemma NoMarkerBefore(rest: string, i: nat)
    requires i < 10
    ensures !At("[CONTENT]\n" + rest, SUMMARY_MARKER, i)
  {
    var s := "[CONTENT]\n" + rest;
    if i == 0 {
      NotAt(s, SUMMARY_MARKER, i, 1);
    } else {
      NotAt(s, SUMMARY_MARKER, i, 0);
    }
  }

  // ---------- Parsing inverts the requested format ----------

  /** What parsing makes of a requested answer, `t` being the text after its marker. */
  lemma {:induction false} ParseRequested(up: Casing, c: string, t: string, fallback: string)
    requires Steady(up, UpToMarker(c) + t)
    ensures !MentionsMarker(up, c) ==> Parse(up, UpToMarker(c) + t, fallback) == Parts(TrimSpace(c), TrimSpace(t))
    ensures MentionsMarker(up, c) ==>
      Parse(up, UpToMarker(c) + t, fallback).content == TrimSpace(c[..Index(ToUpper(up, c), SUMMARY_MARKER)])
  {
    FirstMarker(up, c, t);
    RequestedParts(c, t);
    if !MentionsMarker(up, c) {
      TrimBlock(c);
    } else {
      TrimLine(c[..Index(ToUpper(up, c), SUMMARY_MARKER)]);
    }
  }

  /** The slices of a requested answer. */
  lemma RequestedParts(c: string, t: string)
    ensures var response := UpToMarker(c) + t;
      && |response| >= 21 + |c| && response[9..12 + |c|] == "\n" + c + "\n\n" && response[21 + |c|..] == t
      && forall j | 0 <= j <= |c| :: response[9..10 + j] == "\n" + c[..j]
  {
    var response, line := UpToMarker(c) + t, "\n" + c + "\n\n";
    assert response == CONTENT_MARKER + line + (SUMMARY_MARKER + t);
    assert response[9..12 + |c|] == line;
    forall j | 0 <= j <= |c| ensures response[9..10 + j] == "\n" + c[..j] {
      assert response[9..10 + j] == line[..1 + j];
    }
  }

  /** Where upper-casing moves no byte of content and summary (as in ASCII, or Chinese), the answer that the prompt asks
    * for is taken apart into exactly the trimmed content and the trimmed summary if and only if the content does not
    * mention the summary marker in any letter case. */
  lemma {:induction false} ParseInvertsIff(up: Casing, c: string, s: string, fallback: string)
    requires Steady(up, c) && Steady(up, s)
    ensures Steady(up, TrimSpace(Requested(c, s)))
    ensures Parse(up, TrimSpace(Requested(c, s)), fallback) == Parts(TrimSpace(c), TrimSpace(s)) <==>
      !MentionsMarker(up, c)
  {
    var t := TrimRequested(c, s);
    SteadyTrim(up, c, s);
    ParseRequested(up, c, t, fallback);
    if MentionsMarker(up, c) {
      ContentCutShort(up, c, Index(ToUpper(up, c), SUMMARY_MARKER));
    }
  }

  lemma SteadyPart(up: Casing, x: string, t: string, y: string)
    requires Steady(up, x + t + y)
    ensures Steady(up, t)
  {
    forall i | 0 <= i < |t| ensures Width(up(t[i])) == Width(t[i]) { assert t[i] == (x + t + y)[|x| + i]; }
  }

  lemma SteadyRequested(up: Casing, c: string, s: string)
    requires Steady(up, c) && Steady(up, s)
    ensures Steady(up, Requested(c, s))
  {
  }

  lemma SteadyTrim(up: Casing, c: string, s: string)
    requires Steady(up, c) && Steady(up, s)
    ensures Steady(up, TrimSpace(Requested(c, s)))
  {
    hide TrimSpace, Steady, Requested;
    SteadyRequested(up, c, s);
    var x, y := TrimSplit(Requested(c, s));
    SteadyPart(up, x, TrimSpace(Requested(c, s)), y);
  }

  /** Content cut at a marker is shorter than the content, blanks aside. */
  lemma ContentCutShort(up: Casing, c: string, j: nat)
    requires Steady(up, c) && At(ToUpper(up, c), SUMMARY_MARKER, j)
    ensures TrimSpace(c[..j]) != TrimSpace(c)
  {
    MarkerSolid(up, c, j);
    hide Steady, ToUpper, At, IsSpace, TrimSpace;
    var x, y := TrimSplit(c);
    var v, w := TrimSplit(c[..j]);
    InsideTrim(x, TrimSpace(c), y, j);
    InsideTrim(x, TrimSpace(c), y, j + 8);
    if TrimSpace(c[..j]) != "" {
      LeadingEqual(c, x, c[..j], v);
      assert |c[..j]| == |v| + |TrimSpace(c[..j])| + |w|;
    }
  }

  /** A marker starts and ends with a character that is no blank. */
  lemma MarkerSolid(up: Casing, c: string, j: nat)
    requires Steady(up, c) && At(ToUpper(up, c), SUMMARY_MARKER, j)
    ensures j + 9 <= |c| && !IsSpace(c[j]) && !IsSpace(c[j + 8])
  {
    assert ToUpper(up, c)[j..j + 9][0] == '[' && ToUpper(up, c)[j..j + 9][8] == ']';
    SteadyAt(up, c, j);
    SteadyAt(up, c, j + 8);
  }

  lemma InsideTrim(x: string, t: string, y: string, p: nat)
    requires Blank(x) && Blank(y) && p < |x + t + y| && !IsSpace((x + t + y)[p])
    ensures |x| <= p < |x| + |t|
  {
  }

  lemma PastBlank(c: string, x: string, p: nat)
    requires x <= c && Blank(x) && p < |c| && !IsSpace(c[p])
    ensures |x| <= p
  {
  }

  /** Two texts that agree at the front have the same leading blanks, if text follows them. */
  lemma LeadingEqual(c: string, x: string, d: string, v: string)
    requires x <= c && Blank(x) && |x| < |c| && !IsSpace(c[|x|])
    requires v <= d <= c && Blank(v) && |v| < |d| && !IsSpace(d[|v|])
    ensures |x| == |v|
  {
  }

  // ---------- Answers without markers, or without the first one ----------

  /** Without a summary marker the whole response is the content, with the fallback as its summary. */
  lemma ParseUnmarked(up: Casing, response: string, fallback: string)
    requires Steady(up, response) && !MentionsMarker(up, response)
    ensures Parse(up, response, fallback).content == response && Parse(up, response, fallback).summary == fallback
  {
  }

  predicate MentionsContentMarker(up: Casing, c: string) {
    Contains(ToUpper(up, c), CONTENT_MARKER)
  }

  /** An answer that begins with its content and announces only the summary. */
  function Unannounced(c: string, t: string): string {
    c + "\n[SUMMARY]" + t
  }

  lemma UpperUnannounced(up: Casing, c: string, t: string)
    ensures ToUpper(up, Unannounced(c, t)) == ToUpper(up, c) + "\n[SUMMARY]" + ToUpper(up, t)
    ensures Steady(up, c) && Steady(up, t) ==> Steady(up, Unannounced(c, t))
  {
  }

  /** Up to the requested marker, markers stand where they stand in `u`. */
  lemma MarkerBeforeLine(u: string, v: string, m: string, i: nat)
    requires m == CONTENT_MARKER || m == SUMMARY_MARKER
    requires i <= |u|
    ensures At(u + "\n[SUMMARY]" + v, m, i) <==> At(u, m, i)
  {
    var s := u + "\n[SUMMARY]" + v;
    if i + 9 <= |u| {
      assert s[i..i + 9] == u[i..i + 9];
    } else {
      NotAt(s, m, i, |u| - i);
    }
  }

  lemma AfterLine(u: string, v: string)
    ensures At(u + "\n[SUMMARY]" + v, SUMMARY_MARKER, |u| + 1)
    ensures !At(u + "\n[SUMMARY]" + v, CONTENT_MARKER, |u| + 1)
  {
    var s := u + "\n[SUMMARY]" + v;
    assert s[|u| + 1..|u| + 10] == SUMMARY_MARKER;
    NotAt(s, CONTENT_MARKER, |u| + 1, 1);
  }

  /** Where the first markers of such an answer stand. */
  lemma FirstUnannounced(u: string, v: string)
    ensures var upper := u + "\n[SUMMARY]" + v;
      && Index(upper, SUMMARY_MARKER) == (if Contains(u, SUMMARY_MARKER) then Index(u, SUMMARY_MARKER) else |u| + 1)
      && (if Contains(u, CONTENT_MARKER) then Index(upper, CONTENT_MARKER) == Index(u, CONTENT_MARKER)
          else Index(upper, CONTENT_MARKER) == -1 || Index(upper, CONTENT_MARKER) > |u| + 1)
  {
    var upper := u + "\n[SUMMARY]" + v;
    AfterLine(u, v);
    forall m, i | (m == CONTENT_MARKER || m == SUMMARY_MARKER) && 0 <= i <= |u|
      ensures At(upper, m, i) <==> At(u, m, i)
    {
      MarkerBeforeLine(u, v, m, i);
    }
    SameFirst(upper, u, SUMMARY_MARKER);
    SameFirst(upper, u, CONTENT_MARKER);
  }

  lemma SameFirst(upper: string, u: string, m: string)
    requires |m| > 0 && forall i | 0 <= i <= |u| :: At(upper, m, i) <==> At(u, m, i)
    ensures if Contains(u, m) then Index(upper, m) == Index(u, m) else Index(upper, m) == -1 || Index(upper, m) > |u|
  {
    var i, j := Index(upper, m), Index(u, m);
    if j != -1 {
      assert At(upper, m, j);
      assert At(u, m, i);
    }
  }

  /** Trimming takes no opening bracket away. */
  lemma TrimBrackets(c: string)
    ensures multiset(TrimSpace(c))['['] == multiset(c)['[']
  {
    var x, y := TrimSplit(c);
    SolidBrackets();
    assert '[' !in x && '[' !in y;
  }

  /** A part of `c` that misses an opening bracket does not trim to the same text as `c`. */
  lemma BracketLost(c: string, x: string, t: string, y: string)
    requires c == x + t + y && ('[' in x || '[' in y)
    ensures TrimSpace(t) != TrimSpace(c)
  {
    TrimBrackets(c);
    TrimBrackets(t);
  }

  lemma MarkerBracket(up: Casing, c: string, m: string, j: nat)
    requires m == CONTENT_MARKER || m == SUMMARY_MARKER
    requires Steady(up, c) && At(ToUpper(up, c), m, j)
    ensures j + 9 <= |c| && c[j] == '['
  {
    assert ToUpper(up, c)[j..j + 9][0] == '[';
    SteadyAt(up, c, j);
  }

  /** Where the content of such an answer begins and ends. */
  function ContentFrom(up: Casing, c: string): (from: nat)
    ensures from <= ContentTo(up, c)
  {
    var i := Index(ToUpper(up, c), CONTENT_MARKER);
    if 0 <= i < ContentTo(up, c) then
      FromBeforeTo(up, c);
      i + 9
    else 0
  }

  function ContentTo(up: Casing, c: string): (to: nat)
    ensures to <= |c|
  {
    var j := Index(ToUpper(up, c), SUMMARY_MARKER);
    if j == -1 then |c| else j
  }

  lemma FromBeforeTo(up: Casing, c: string)
    ensures var i := Index(ToUpper(up, c), CONTENT_MARKER); 0 <= i < ContentTo(up, c) ==> i + 9 <= ContentTo(up, c)
  {
    var i, j := Index(ToUpper(up, c), CONTENT_MARKER), Index(ToUpper(up, c), SUMMARY_MARKER);
    if 0 <= i < j { MarkersApart(ToUpper(up, c), i, j); }
  }

  /** What parsing makes of such an answer: the content ends at the first summary marker, and begins after a content
    * marker that comes earlier. */
  lemma ParseUnannounced(up: Casing, c: string, t: string, fallback: string)
    requires Steady(up, c) && Steady(up, t)
    ensures Steady(up, Unannounced(c, t))
    ensures Parse(up, Unannounced(c, t), fallback).content == TrimSpace(c[ContentFrom(up, c)..ContentTo(up, c)])
    ensures !MentionsMarker(up, c) ==> Parse(up, Unannounced(c, t), fallback).summary == TrimSpace(t)
  {
    UpperUnannounced(up, c, t);
    FirstUnannounced(ToUpper(up, c), ToUpper(up, t));
    FromBeforeTo(up, c);
    UnannouncedParts(c, t);
    TrimBreak(c, ContentFrom(up, c));
    hide TrimSpace, Index, ToUpper, Steady, Unannounced;
    var from, to := ContentFrom(up, c), ContentTo(up, c);
    assert c[0..to] == c[..to] && c[from..|c|] == c[from..] && (from == 0 ==> c[from..] == c);
  }

  lemma UnannouncedParts(c: string, s: string)
    ensures var response := Unannounced(c, s);
      && |response| >= |c| + 10 && response[|c| + 10..] == s
      && (forall t | 0 <= t <= |c| :: response[..t] == c[..t])
      && response[..|c| + 1] == c + "\n"
      && (forall f, t | 0 <= f <= t <= |c| :: response[f..t] == c[f..t])
      && (forall f | 0 <= f <= |c| :: response[f..|c| + 1] == c[f..] + "\n")
  {
    var response := Unannounced(c, s);
    assert response == c + "\n" + ("[SUMMARY]" + s);
  }

  lemma TrimBreak(c: string, f: nat)
    ensures f <= |c| ==> TrimSpace(c[f..] + "\n") == TrimSpace(c[f..])
  {
    if f <= |c| {
      var x, y := TrimSplit(c[f..]);
      assert c[f..] + "\n" == x + TrimSpace(c[f..]) + (y + "\n");
      TrimAround(x, TrimSpace(c[f..]), y + "\n");
    }
  }

  lemma Slices(c: string, i: nat, j: nat)
    requires i <= j <= |c|
    ensures c == c[..i] + c[i..j] + c[j..]
  {
  }

  /** Such an answer is taken apart into the trimmed content and the trimmed summary if and only if the content mentions
    * neither marker in any letter case. */
  lemma ParseUnannouncedIff(up: Casing, c: string, t: string, fallback: string)
    requires Steady(up, c) && Steady(up, t)
    ensures Steady(up, Unannounced(c, t))
    ensures Parse(up, Unannounced(c, t), fallback) == Parts(TrimSpace(c), TrimSpace(t)) <==>
      !MentionsMarker(up, c) && !MentionsContentMarker(up, c)
  {
    ParseUnannounced(up, c, t, fallback);
    var from, to := ContentFrom(up, c), ContentTo(up, c);
    var i, j := Index(ToUpper(up, c), CONTENT_MARKER), Index(ToUpper(up, c), SUMMARY_MARKER);
    hide TrimSpace, Parse, ToUpper, Index, Unannounced, At, Steady;
    if j != -1 {
      MarkerBracket(up, c, SUMMARY_MARKER, j);
      assert c[j..][0] == '[';
      Slices(c, from, to);
      BracketLost(c, c[..from], c[from..to], c[to..]);
    } else if i != -1 {
      MarkerBracket(up, c, CONTENT_MARKER, i);
      assert c[..i + 9][i] == '[';
      Slices(c, from, to);
      BracketLost(c, c[..from], c[from..to], c[to..]);
    } else {
      assert c[0..|c|] == c;
    }
  }

  /** Trimming such an answer leaves its content alone, if that starts with text. */
  lemma TrimUnannounced(up: Casing, c: string, s: string) returns (t: string)
    requires c != "" && !IsSpace(c[0]) && Steady(up, s)
    ensures TrimSpace(Unannounced(c, "\n" + s)) == Unannounced(c, t) && TrimSpace(t) == TrimSpace(s) && Steady(up, t)
  {
    SolidBrackets();
    var m := c + "\n[SUMMARY]";
    assert m[0] == c[0] && m[|m| - 1] == ']';
    t := TrimAfter(m, s);
    SteadyPrefix(up, s, t);
  }

  lemma SteadyPrefix(up: Casing, s: string, t: string)
    requires Steady(up, s) && t <= "\n" + s
    ensures Steady(up, t)
  {
  }

  // ---------- Keeping the summary short ----------

  function Bytes(s: string): nat {
    if s == "" then 0 else Bytes(s[..|s| - 1]) + Width(s[|s| - 1])
  }

  /** SectionSummaryConfig.GetMaxLength. */
  function MaxLength(configured: int): int {
    if configured == 0 then 200 else configured
  }

  /** A summary is cut after `n` code points: at the last space of the reserved part if that space lies in its
    * last third (in bytes), and at the end of the reserved part otherwise. */
  predicate CutAt(summary: string, reserved: nat, n: nat) {
    && n <= reserved <= |summary|
    && (n < reserved ==>
          summary[n] == ' ' && 3 * Bytes(summary[..n]) > 2 * Bytes(summary[..reserved]) &&
          forall i | n < i < reserved :: summary[i] != ' ')
    && (n == reserved ==>
          forall i | 0 <= i < reserved && summary[i] == ' ' ::
            3 * Bytes(summary[..i]) <= 2 * Bytes(summary[..reserved]))
  }

  lemma {:induction false} BytesMonotone(s: string, i: nat, j: nat)
    requires i <= j <= |s|
    ensures Bytes(s[..i]) <= Bytes(s[..j])
  {
    if i < j {
      assert s[..j][..j - 1] == s[..j - 1];
      BytesMonotone(s, i, j - 1);
    }
  }

  /** With the last space at `idx` (or -1), CutAt tells where to cut. */
  lemma LastSpace(summary: string, reserved: nat, idx: int)
    requires reserved <= |summary| && idx == LastIndex(summary[..reserved], " ")
    ensures forall i | idx < i < reserved :: summary[i] != ' '
    ensures idx == -1 || (0 <= idx < reserved && summary[idx] == ' ')
    ensures idx == -1 || 3 * Bytes(summary[..idx]) <= 2 * Bytes(summary[..reserved]) ==>
      CutAt(summary, reserved, reserved)
  {
    hide Bytes;
    var t := summary[..reserved];
    forall i | idx < i < reserved ensures summary[i] != ' ' {
      assert !At(t, " ", i) && t[i..i + 1] == [summary[i]];
    }
    if idx != -1 {
      assert At(t, " ", idx);
      assert t[idx..idx + 1] == " ";
      assert t[idx] == t[idx..idx + 1][0] == ' ';
    }
    hide At;
    if idx == -1 || 3 * Bytes(summary[..idx]) <= 2 * Bytes(summary[..reserved]) {
      forall i | 0 <= i < reserved && summary[i] == ' '
        ensures 3 * Bytes(summary[..i]) <= 2 * Bytes(summary[..reserved])
      {
        BytesMonotone(summary, i, idx);
      }
    }
  }

  function Reserved(max: int): nat {
    if max < 3 then 0 else max - 3
  }

  /** `r` is what becomes of `summary`. */
  ghost predicate Shortens(summary: string, configured: int, r: string) {
    && (|summary| <= MaxLength(configured) ==> r == TrimSpace(summary))
    && (|summary| > MaxLength(configured) ==>
          exists n: nat :: CutAt(summary, Reserved(MaxLength(configured)), n) && r == TrimSpace(summary[..n] + "..."))
  }

  /** The truncation in postProcessContentWithSummary: for every summary and every configured length the result
    * has at most as many code points as configured, and never more than three where less is configured. */
  method Shorten(summary: string, configured: int) returns (r: string)
    ensures |r| <= (if configured == 0 then 200 else configured) || |r| <= 3
    ensures Shortens(summary, configured, r)
  {
    var maxLen := MaxLength(configured);
    r := summary;
    if |summary| > maxLen {
      var truncateLen := maxLen - 3;
      if truncateLen < 0 {
        truncateLen := 0;
      }
      var truncated := summary[..truncateLen];
      var idx := LastIndex(truncated, " ");
      LastSpace(summary, truncateLen, idx);
      var byteIdx: int := if idx == -1 then -1 else Bytes(truncated[..idx]);
      assert idx != -1 ==> truncated[..idx] == summary[..idx];
      if byteIdx > Bytes(truncated) * 2 / 3 {
        r := truncated[..idx] + "...";
        assert CutAt(summary, Reserved(maxLen), idx);
      } else {
        r := truncated + "...";
        assert CutAt(summary, Reserved(maxLen), truncateLen);
      }
    }
    TrimShorter(r);
    r := TrimSpace(r);
  }

  lemma TrimShorter(s: string)
    ensures |TrimSpace(s)| <= |s|
  {
    var x, y := TrimSplit(s);
  }
}
