/**
 `strip_reasoning` of src/utils/text.rs. `Scan` is what the scanner writes for
 a rest of the input in a given state; `Body` is the grammar of what it removes.
 */
module StripReasoning {
  import opened Strings

  const OPEN_THINK := "<think>"
  const CLOSE_THINK := "</think>"
  const OPEN_REASONING := "<reasoning>"
  const CLOSE_REASONING := "</reasoning>"

  /** `s` is `name`, up to the case of its letters. */
  predicate InAnyCase(s: string, name: string) {
    |s| == |name| && forall k :: 0 <= k < |s| ==>
      s[k] == name[k] || ('a' <= name[k] <= 'z' && s[k] as int == name[k] as int - 32)
  }

  predicate Opens(tag: string) {
    InAnyCase(tag, "<think>") || InAnyCase(tag, "<reasoning>")
  }

  predicate Closes(tag: string) {
    InAnyCase(tag, "</think>") || InAnyCase(tag, "</reasoning>")
  }

  /** No stretch of `s` reads as a tag. */
  predicate NoTags(s: string) {
    forall i, j :: 0 <= i <= j <= |s| ==> !Opens(s[i..j]) && !Closes(s[i..j])
  }

  datatype Mode = Mode(depth: nat, fence: bool, inline: bool)

  const START := Mode(0, false, false)

  /** `starts_with_ascii_ci`, for needles in lower case. */
  predicate StartsWithCi(s: string, needle: string) {
    |s| >= |needle| && forall k :: 0 <= k < |needle| ==> ToAsciiLower(s[k]) == needle[k]
  }

  /** The length of the opening tag that starts `s`, or 0. */
  function OpenTag(s: string): (n: nat)
    ensures n <= |s| && (n > 0 ==> s[0] == '<')
  {
    if StartsWithCi(s, OPEN_THINK) then assert ToAsciiLower(s[0]) == OPEN_THINK[0]; |OPEN_THINK|
    else if StartsWithCi(s, OPEN_REASONING) then assert ToAsciiLower(s[0]) == OPEN_REASONING[0]; |OPEN_REASONING|
    else 0
  }

  function CloseTag(s: string): (n: nat)
    ensures n <= |s| && (n > 0 ==> s[0] == '<')
  {
    if StartsWithCi(s, CLOSE_THINK) then assert ToAsciiLower(s[0]) == CLOSE_THINK[0]; |CLOSE_THINK|
    else if StartsWithCi(s, CLOSE_REASONING) then assert ToAsciiLower(s[0]) == CLOSE_REASONING[0]; |CLOSE_REASONING|
    else 0
  }

  /** One token of a non-empty rest: its length, whether it is text to keep at depth 0, and the mode after it. */
  datatype Token = Token(length: nat, visible: bool, next: Mode)

  function NextToken(s: string, m: Mode): (t: Token)
    requires s != ""
    ensures 0 < t.length <= |s|
  {
    if !m.inline && "```" <= s then Token(3, true, m.(fence := !m.fence))
    else if !m.fence && s[0] == '`' then Token(1, true, m.(inline := !m.inline))
    else if !m.fence && !m.inline && OpenTag(s) > 0 then Token(OpenTag(s), false, m.(depth := m.depth + 1))
    else if !m.fence && !m.inline && CloseTag(s) > 0 then
      Token(CloseTag(s), false, m.(depth := if m.depth > 0 then m.depth - 1 else 0))
    else Token(1, true, m)
  }

  function Shown(s: string, m: Mode, t: Token): string
    requires t.length <= |s|
  {
    if t.visible && m.depth == 0 then s[..t.length] else ""
  }

  /** What the scanner writes for the rest `s` of the input. */
  function Scan(s: string, m: Mode): string
    decreases |s|
  {
    if s == "" then ""
    else
      var t := NextToken(s, m);
      Shown(s, m, t) + Scan(s[t.length..], t.next)
  }

  /** The mode the scanner is in at the end of `s`. */
  function EndMode(s: string, m: Mode): Mode
    decreases |s|
  {
    if s == "" then m
    else
      var t := NextToken(s, m);
      EndMode(s[t.length..], t.next)
  }

  function Stripped(input: string): string {
    Scan(input, START)
  }

  lemma ScanNothing(m: Mode)
    ensures Scan("", m) == ""
  {
  }

  lemma ScanStep(s: string, m: Mode)
    requires s != ""
    ensures var t := NextToken(s, m);
            Scan(s, m) == Shown(s, m, t) + Scan(s[t.length..], t.next)
  {
    hide NextToken;
  }

  /** One turn of the loop, with what it has written so far. */
  lemma TokenOf(output: string, input: string, cursor: nat, m: Mode)
    requires cursor < |input|
    ensures var s := input[cursor..];
            var t := NextToken(s, m);
            output + Scan(s, m) == (output + Shown(s, m, t)) + Scan(input[cursor + t.length..], t.next)
    ensures Shown(input[cursor..], m, Token(1, true, m)) == if m.depth == 0 then [input[cursor]] else ""
    ensures "```" <= input[cursor..] ==>
              Shown(input[cursor..], m, Token(3, true, m)) == if m.depth == 0 then "```" else ""
  {
    hide NextToken, Scan;
    var s := input[cursor..];
    var t := NextToken(s, m);
    ScanStep(s, m);
    assert s[t.length..] == input[cursor + t.length..];
  }

  method StripReasoning(input: string) returns (output: string)
    ensures output == Stripped(input)
  {
    hide Scan, OpenTag, CloseTag;
    output := "";
    var cursor := 0;
    var redactionDepth: nat := 0;
    var inCodeFence := false;
    var inInlineCode := false;
    assert input[0..] == input;
    while cursor < |input|
      invariant 0 <= cursor <= |input|
      invariant output + Scan(input[cursor..], Mode(redactionDepth, inCodeFence, inInlineCode)) == Stripped(input)
      decreases |input| - cursor
    {
      var rest := input[cursor..];
      ghost var m := Mode(redactionDepth, inCodeFence, inInlineCode);
      TokenOf(output, input, cursor, m);
      if !inInlineCode && "```" <= rest {
        if redactionDepth == 0 {
          output := output + "```";
        }
        inCodeFence := !inCodeFence;
        cursor := cursor + 3;
        continue;
      }
      if !inCodeFence && rest[0] == '`' {
        if redactionDepth == 0 {
          output := output + "`";
        }
        inInlineCode := !inInlineCode;
        cursor := cursor + 1;
        continue;
      }
      if !inCodeFence && !inInlineCode {
        if OpenTag(rest) > 0 {
          redactionDepth := redactionDepth + 1;
          cursor := cursor + OpenTag(rest);
          continue;
        }
        if CloseTag(rest) > 0 {
          redactionDepth := if redactionDepth > 0 then redactionDepth - 1 else 0;
          cursor := cursor + CloseTag(rest);
          continue;
        }
      }
      if redactionDepth == 0 {
        output := output + [rest[0]];
      }
      cursor := cursor + 1;
    }
    assert input[cursor..] == "";
    ScanNothing(Mode(redactionDepth, inCodeFence, inInlineCode));
    assert output + "" == output;
  }

  // ----- where a text may be cut -----

  /** No token of `s` can reach into `r`. */
  predicate Seam(s: string, r: string) {
    s == "" || r == "" || r[0] == '<' || (r[0] == '`' && s[|s| - 1] != '`')
  }

  ghost predicate IsNeedle(n: string) {
    n == OPEN_THINK || n == CLOSE_THINK || n == OPEN_REASONING || n == CLOSE_REASONING
  }

  lemma NeedleAtSeam(s: string, r: string, n: string)
    requires s != "" && Seam(s, r) && IsNeedle(n)
    ensures StartsWithCi(s + r, n) <==> StartsWithCi(s, n)
  {
    if |s| < |n| <= |s + r| {
      assert n[|s|] != '<' && n[|s|] != '`';
      assert ToAsciiLower((s + r)[|s|]) != n[|s|];
    } else if |n| <= |s| {
      assert forall k :: 0 <= k < |n| ==> (s + r)[k] == s[k];
    }
  }

  lemma BackticksMeanBacktick(s: string, k: nat)
    ensures k < 3 && "```" <= s ==> s[k] == '`'
  {
    if k < 3 && "```" <= s {
      assert s[..3][k] == "```"[k];
    }
  }

  lemma BackticksAtSeam(s: string, r: string)
    requires s != "" && Seam(s, r)
    ensures "```" <= s + r <==> "```" <= s
  {
    if |s| >= 3 {
      assert (s + r)[..3] == s[..3];
    } else {
      BackticksMeanBacktick(s + r, |s|);
      BackticksMeanBacktick(s + r, |s| - 1);
    }
  }

  lemma TokenAtSeam(s: string, r: string, m: Mode)
    requires s != "" && Seam(s, r)
    ensures NextToken(s + r, m) == NextToken(s, m)
  {
    hide StartsWithCi;
    NeedleAtSeam(s, r, OPEN_THINK);
    NeedleAtSeam(s, r, CLOSE_THINK);
    NeedleAtSeam(s, r, OPEN_REASONING);
    NeedleAtSeam(s, r, CLOSE_REASONING);
    BackticksAtSeam(s, r);
  }

  lemma EndOfNothing(m: Mode)
    ensures EndMode("", m) == m
  {
  }

  lemma Regroup(a: string, b: string, c: string)
    ensures a + (b + c) == (a + b) + c
  {
  }

  lemma EndStep(s: string, m: Mode)
    requires s != ""
    ensures var t := NextToken(s, m);
            EndMode(s, m) == EndMode(s[t.length..], t.next)
  {
    hide NextToken;
  }

  lemma {:induction false} ScanSplit(s: string, r: string, m: Mode)
    requires Seam(s, r)
    ensures Scan(s + r, m) == Scan(s, m) + Scan(r, EndMode(s, m))
    decreases |s|
  {
    hide NextToken, Scan, EndMode;
    if s == "" {
      ScanNothing(m);
      EndOfNothing(m);
      assert s + r == r && "" + Scan(r, m) == Scan(r, m);
    } else {
      var t := NextToken(s, m);
      TokenAtSeam(s, r, m);
      ScanStep(s + r, m);
      ScanStep(s, m);
      EndStep(s, m);
      assert (s + r)[t.length..] == s[t.length..] + r;
      assert (s + r)[..t.length] == s[..t.length];
      ScanSplit(s[t.length..], r, t.next);
      Regroup(Shown(s, m, t), Scan(s[t.length..], t.next), Scan(r, EndMode(s, m)));
    }
  }

  // ----- the grammar of what is removed -----

  /** The inside of a reasoning block: plain text, nested blocks, code spans and fences. Tags need not match by name. */
  datatype Body =
    | Nil
    | Text(text: string, more: Body)
    | Block(open: string, inner: Body, close: string, more: Body)
    | Span(code: string, more: Body)
    | Fence(code: string, more: Body)

  function Render(b: Body): string {
    match b
    case Nil => ""
    case Text(text, more) => text + Render(more)
    case Block(open, inner, close, more) => open + (Render(inner) + (close + Render(more)))
    case Span(code, more) => "`" + (code + ("`" + Render(more)))
    case Fence(code, more) => "```" + (code + ("```" + Render(more)))
  }

  /** The first three backticks after an opening fence are those that follow `f`. */
  predicate KeepsFence(f: string) {
    forall i :: 0 <= i < |f| ==> !("```" <= (f + "```")[i..])
  }

  predicate WellFormed(b: Body) {
    match b
    case Nil => true
    case Text(text, more) => '`' !in text && NoTags(text) && !more.Text? && WellFormed(more)
    case Block(open, inner, close, more) => Opens(open) && Closes(close) && WellFormed(inner) && WellFormed(more)
    case Span(code, more) => code != "" && '`' !in code && WellFormed(more)
    case Fence(code, more) => KeepsFence(code) && WellFormed(more)
  }

  function Kept(m: Mode, s: string): string {
    if m.depth == 0 then s else ""
  }

  lemma NeedleChar(n: string, k: nat)
    requires IsNeedle(n) && k < |n|
    ensures 'a' <= n[k] <= 'z' || n[k] == '<' || n[k] == '>' || n[k] == '/'
  {
  }

  lemma AnyCaseIs(s: string, n: string)
    requires IsNeedle(n) && |s| >= |n|
    ensures StartsWithCi(s, n) <==> InAnyCase(s[..|n|], n)
  {
    hide IsNeedle;
    forall k | 0 <= k < |n|
      ensures ToAsciiLower(s[k]) == n[k] <==>
              s[k] == n[k] || ('a' <= n[k] <= 'z' && s[k] as int == n[k] as int - 32)
    {
      NeedleChar(n, k);
    }
    assert forall k :: 0 <= k < |n| ==> s[..|n|][k] == s[k];
  }

 /** The two names of a tag do not start the same text. */
  lemma OneName(s: string, n: string, n': string)
    requires (n == OPEN_THINK && n' == OPEN_REASONING) || (n == CLOSE_THINK && n' == CLOSE_REASONING)
    ensures !(StartsWithCi(s, n) && StartsWithCi(s, n'))
  {
    var k := if n == OPEN_THINK then 1 else 2;
    assert n[k] == 't' && n'[k] == 'r';
    if StartsWithCi(s, n) {
      assert ToAsciiLower(s[k]) == n[k];
    }
  }

  lemma NeedlesAtLength(s: string, n: nat, name: string)
    requires 0 < n <= |s| && IsNeedle(name)
    ensures InAnyCase(s[..n], name) <==> n == |name| && StartsWithCi(s, name)
  {
    hide StartsWithCi;
    if n == |name| {
      AnyCaseIs(s, name);
    }
  }

  /** What starts `s` as an opening tag is one of the two names in some case; the other way round too. */
  lemma OpenTagIff(s: string, n: nat)
    requires 0 < n <= |s|
    ensures OpenTag(s) == n <==> Opens(s[..n])
  {
    hide StartsWithCi, InAnyCase;
    NeedlesAtLength(s, n, OPEN_THINK);
    NeedlesAtLength(s, n, OPEN_REASONING);
    OneName(s, OPEN_THINK, OPEN_REASONING);
  }

  lemma CloseTagIff(s: string, n: nat)
    requires 0 < n <= |s|
    ensures CloseTag(s) == n <==> Closes(s[..n])
  {
    hide StartsWithCi, InAnyCase;
    NeedlesAtLength(s, n, CLOSE_THINK);
    NeedlesAtLength(s, n, CLOSE_REASONING);
    OneName(s, CLOSE_THINK, CLOSE_REASONING);
  }

  lemma TagIsWhole(tag: string)
    ensures Opens(tag) ==> OpenTag(tag) == |tag| > 0
    ensures Closes(tag) ==> CloseTag(tag) == |tag| > 0
  {
    hide OpenTag, CloseTag;
    assert tag[..|tag|] == tag;
    if tag != "" {
      OpenTagIff(tag, |tag|);
      CloseTagIff(tag, |tag|);
    }
  }

  lemma NoTagHere(s: string)
    requires NoTags(s)
    ensures OpenTag(s) == 0 && CloseTag(s) == 0
  {
    hide OpenTag, CloseTag, Opens, Closes;
    var n, k := OpenTag(s), CloseTag(s);
    assert s[0..n] == s[..n] && s[0..k] == s[..k];
    if n > 0 {
      OpenTagIff(s, n);
    }
    if k > 0 {
      CloseTagIff(s, k);
    }
  }

  lemma NoTagsInTail(s: string)
    requires s != "" && NoTags(s)
    ensures OpenTag(s) == 0 && CloseTag(s) == 0 && NoTags(s[1..])
  {
    hide OpenTag, CloseTag, Opens, Closes;
    NoTagHere(s);
    forall i, j | 0 <= i <= j <= |s[1..]|
      ensures !Opens(s[1..][i..j]) && !Closes(s[1..][i..j])
    {
      assert s[1..][i..j] == s[i + 1..j + 1];
    }
  }

  /** Plain text is kept at depth 0 and dropped below. */
  lemma {:induction false} ScanPlain(s: string, m: Mode)
    requires '`' !in s && NoTags(s) && !m.fence && !m.inline
    ensures Scan(s, m) == (if m.depth == 0 then s else "") && EndMode(s, m) == m
    decreases |s|
  {
    hide OpenTag, CloseTag, NoTags;
    if s != "" {
      NoTagsInTail(s);
      assert s[0] in s;
      BackticksMeanBacktick(s, 0);
      assert NextToken(s, m) == Token(1, true, m);
      ScanPlain(s[1..], m);
      assert s[..1] + s[1..] == s;
    }
  }

  lemma CiWithin(s: string, r: string, n: string)
    ensures StartsWithCi(s, n) ==> StartsWithCi(s + r, n)
    ensures |n| <= |s| && StartsWithCi(s + r, n) ==> StartsWithCi(s, n)
  {
    if |n| <= |s| {
      assert forall k :: 0 <= k < |n| ==> (s + r)[k] == s[k];
    }
  }

  lemma OpenTagExtends(open: string, r: string)
    requires Opens(open)
    ensures OpenTag(open + r) == |open| > 0
  {
    TagIsWhole(open);
    hide StartsWithCi, Opens;
    CiWithin(open, r, OPEN_THINK);
    CiWithin(open, r, OPEN_REASONING);
  }

  lemma SecondIs(s: string, n: string)
    requires |n| >= 2
    ensures StartsWithCi(s, n) ==> ToAsciiLower(s[1]) == n[1]
  {
  }

  /** The slash keeps opening and closing tags apart. */
  lemma CloseTagExtends(close: string, r: string)
    requires Closes(close)
    ensures CloseTag(close + r) == |close| > 0 && OpenTag(close + r) == 0
  {
    TagIsWhole(close);
    SecondIs(close + r, OPEN_THINK);
    SecondIs(close + r, OPEN_REASONING);
    SecondIs(close, CLOSE_THINK);
    SecondIs(close, CLOSE_REASONING);
    hide StartsWithCi, Closes;
    CiWithin(close, r, CLOSE_THINK);
    CiWithin(close, r, CLOSE_REASONING);
    assert OPEN_THINK[1] != '/' && OPEN_REASONING[1] != '/' && CLOSE_THINK[1] == '/' && CLOSE_REASONING[1] == '/';
  }

  lemma OpenTagToken(open: string, r: string, m: Mode)
    requires Opens(open) && !m.fence && !m.inline
    ensures NextToken(open + r, m) == Token(|open|, false, m.(depth := m.depth + 1))
  {
    hide CloseTag;
    OpenTagExtends(open, r);
    hide OpenTag;
    BackticksMeanBacktick(open + r, 0);
  }

  lemma OpenToken(open: string, r: string, m: Mode)
    requires Opens(open) && !m.fence && !m.inline
    ensures Scan(open + r, m) == Scan(r, m.(depth := m.depth + 1))
  {
    hide Scan, OpenTag, CloseTag, NextToken;
    assert (open + r)[|open|..] == r;
    OpenTagToken(open, r, m);
    ScanStep(open + r, m);
  }

  lemma CloseToken(close: string, r: string, m: Mode)
    requires Closes(close) && !m.fence && !m.inline && m.depth > 0
    ensures Scan(close + r, m) == Scan(r, m.(depth := m.depth - 1))
  {
    hide Scan, OpenTag, CloseTag;
    var s := close + r;
    assert s[|close|..] == r;
    CloseTagExtends(close, r);
    BackticksMeanBacktick(s, 0);
    ScanStep(s, m);
  }

  // ----- code -----

  lemma CodeToken(s: string, m: Mode)
    requires s != "" && (m.fence || m.inline)
    requires if m.inline then m.fence || s[0] != '`' else !("```" <= s)
    ensures NextToken(s, m) == Token(1, true, m)
  {
    hide OpenTag, CloseTag;
    BackticksMeanBacktick(s, 0);
  }

  lemma OneCodeStep(s: string, m: Mode)
    requires s != "" && NextToken(s, m) == Token(1, true, m)
    ensures Scan(s, m) == Kept(m, s[..1]) + Scan(s[1..], m)
  {
    hide NextToken;
  }

  /** In an inline span everything up to the next backtick is code. */
  lemma {:induction false} ScanSpan(f: string, r: string, m: Mode)
    requires '`' !in f && m.inline
    ensures Scan(f + r, m) == Kept(m, f) + Scan(r, m)
    decreases |f|
  {
    hide Scan, NextToken;
    if f == "" {
      assert f + r == r;
    } else {
      var s := f + r;
      assert s[0] == f[0] && f[0] in f;
      CodeToken(s, m);
      OneCodeStep(s, m);
      assert s[1..] == f[1..] + r && s[..1] == f[..1];
      ScanSpan(f[1..], r, m);
      assert f[..1] + (f[1..] + Scan(r, m)) == f + Scan(r, m);
    }
  }

  lemma KeepsFenceInTail(f: string, r: string)
    requires f != "" && KeepsFence(f)
    ensures !("```" <= f + ("```" + r)) && KeepsFence(f[1..])
  {
    var t := f + "```";
    assert t[0..] == t;
    assert f + ("```" + r) == t + r && (t + r)[..3] == t[..3];
    forall i | 0 <= i < |f[1..]|
      ensures !("```" <= (f[1..] + "```")[i..])
    {
      assert (f[1..] + "```")[i..] == t[i + 1..];
    }
  }

  /** In a fence everything up to the next three backticks is. */
  lemma {:induction false} ScanFence(f: string, r: string, m: Mode)
    requires KeepsFence(f) && m.fence && !m.inline
    ensures Scan(f + ("```" + r), m) == Kept(m, f) + Scan("```" + r, m)
    decreases |f|
  {
    hide Scan, NextToken, KeepsFence;
    if f == "" {
      assert f + ("```" + r) == "```" + r;
    } else {
      var s := f + ("```" + r);
      KeepsFenceInTail(f, r);
      CodeToken(s, m);
      OneCodeStep(s, m);
      assert s[1..] == f[1..] + ("```" + r) && s[..1] == f[..1];
      ScanFence(f[1..], r, m);
      assert f[..1] + (f[1..] + Scan("```" + r, m)) == f + Scan("```" + r, m);
    }
  }

  lemma FenceToken(r: string, m: Mode)
    requires !m.inline
    ensures Scan("```" + r, m) == Kept(m, "```") + Scan(r, m.(fence := !m.fence))
  {
    hide OpenTag, CloseTag, Scan;
    var s := "```" + r;
    assert s[..3] == "```" && s[3..] == r;
    ScanStep(s, m);
  }

  lemma TickToken(r: string, m: Mode)
    requires !m.fence && (m.inline || r == "" || r[0] != '`')
    ensures Scan("`" + r, m) == Kept(m, "`") + Scan(r, m.(inline := !m.inline))
  {
    hide OpenTag, CloseTag, Scan;
    var s := "`" + r;
    assert s[..1] == "`" && s[1..] == r;
    BackticksMeanBacktick(s, 1);
    ScanStep(s, m);
  }

  lemma WholeSpan(code: string, r: string, m: Mode)
    requires code != "" && '`' !in code && !m.fence && !m.inline
    ensures Scan("`" + (code + ("`" + r)), m) == Kept(m, "`" + (code + "`")) + Scan(r, m)
  {
    hide Scan;
    assert (code + ("`" + r))[0] == code[0] && code[0] in code;
    TickToken(code + ("`" + r), m);
    ScanSpan(code, "`" + r, m.(inline := true));
    TickToken(r, m.(inline := true));
    assert "`" + (code + ("`" + Scan(r, m))) == ("`" + (code + "`")) + Scan(r, m);
  }

  lemma WholeFence(code: string, r: string, m: Mode)
    requires KeepsFence(code) && !m.fence && !m.inline
    ensures Scan("```" + (code + ("```" + r)), m) == Kept(m, "```" + (code + "```")) + Scan(r, m)
  {
    hide Scan, KeepsFence;
    FenceToken(code + ("```" + r), m);
    ScanFence(code, r, m.(fence := true));
    FenceToken(r, m.(fence := true));
    assert "```" + (code + ("```" + Scan(r, m))) == ("```" + (code + "```")) + Scan(r, m);
  }

  /** What may follow a body: nothing, a tag or a backtick. */
  predicate Follows(r: string) {
    r == "" || r[0] == '<' || r[0] == '`'
  }

  lemma BodyStart(b: Body, r: string)
    requires WellFormed(b) && !b.Text? && Follows(r)
    ensures Follows(Render(b) + r)
  {
    hide NoTags, CloseTag, KeepsFence;
  }

  lemma ScanText(text: string, more: Body, r: string, m: Mode)
    requires '`' !in text && NoTags(text) && !more.Text? && WellFormed(more) && Follows(r)
    requires !m.fence && !m.inline && m.depth > 0
    ensures Scan(text + (Render(more) + r), m) == Scan(Render(more) + r, m)
  {
    hide Scan, EndMode, Render, NoTags, WellFormed;
    BodyStart(more, r);
    assert text != "" ==> text[|text| - 1] in text;
    ScanSplit(text, Render(more) + r, m);
    ScanPlain(text, m);
  }

  lemma RenderThen(b: Body, r: string)
    ensures Render(b) + r ==
            match b
            case Nil => r
            case Text(text, more) => text + (Render(more) + r)
            case Block(open, inner, close, more) => open + (Render(inner) + (close + (Render(more) + r)))
            case Span(code, more) => "`" + (code + ("`" + (Render(more) + r)))
            case Fence(code, more) => "```" + (code + ("```" + (Render(more) + r)))
  {
  }

  /** Inside a block the scanner reads over a whole body. */
  lemma {:induction false} ScanBody(b: Body, r: string, m: Mode)
    requires WellFormed(b) && Follows(r) && !m.fence && !m.inline && m.depth > 0
    ensures Scan(Render(b) + r, m) == Scan(r, m)
    decreases b
  {
    hide Scan, EndMode, Render, OpenTag, CloseTag, NoTags, KeepsFence;
    RenderThen(b, r);
    match b
    case Nil =>
    case Text(text, more) =>
      ScanText(text, more, r, m);
      ScanBody(more, r, m);
    case Block(open, inner, close, more) =>
      var rest := Render(more) + r;
      var deeper := m.(depth := m.depth + 1);
      OpenToken(open, Render(inner) + (close + rest), m);
      assert (close + rest)[0] == '<';
      ScanBody(inner, close + rest, deeper);
      CloseToken(close, rest, deeper);
      ScanBody(more, r, m);
    case Span(code, more) =>
      WholeSpan(code, Render(more) + r, m);
      ScanBody(more, r, m);
    case Fence(code, more) =>
      WholeFence(code, Render(more) + r, m);
      ScanBody(more, r, m);
  }

  // ----- main results -----

  /** A balanced block outside code vanishes, and what is around it is treated as if it were not there. */
  lemma BlockVanishes(p: string, open: string, inner: Body, close: string, s: string)
    requires EndMode(p, START) == START && Opens(open) && Closes(close) && WellFormed(inner)
    ensures Stripped(p + (open + (Render(inner) + (close + s)))) == Stripped(p) + Stripped(s)
  {
    hide Scan, EndMode, OpenTag, CloseTag, WellFormed;
    var inside := START.(depth := 1);
    var t := open + (Render(inner) + (close + s));
    assert t[0] == '<' && (close + s)[0] == '<';
    ScanSplit(p, t, START);
    OpenToken(open, Render(inner) + (close + s), START);
    ScanBody(inner, close + s, inside);
    CloseToken(close, s, inside);
  }

  lemma {:induction false} ScanWithoutTags(s: string, m: Mode)
    requires NoTags(s) && m.depth == 0
    ensures Scan(s, m) == s
    decreases |s|
  {
    hide OpenTag, CloseTag, NoTags;
    if s != "" {
      var t := NextToken(s, m);
      NoTagsInTail(s);
      if t.length == 3 {
        NoTagsInTail(s[1..]);
        NoTagsInTail(s[1..][1..]);
        assert s[1..][1..][1..] == s[3..];
      }
      ScanWithoutTags(s[t.length..], t.next);
      assert s[..t.length] + s[t.length..] == s;
    }
  }

  /** In texts without code or other tags: the block goes and the text on both sides stays. */
  lemma PlainBlockVanishes(p: string, open: string, inner: string, close: string, s: string)
    requires NoTags(p) && NoTags(inner) && NoTags(s) && '`' !in p && '`' !in inner
    requires Opens(open) && Closes(close)
    ensures Stripped(p + (open + (inner + (close + s)))) == p + s
  {
    hide NoTags, Opens, Closes, Scan, EndMode;
    ScanPlain(p, START);
    ScanWithoutTags(s, START);
    assert Render(Text(inner, Nil)) == inner + "" == inner;
    BlockVanishes(p, open, Text(inner, Nil), close, s);
  }

  /** A block that is never closed hides the rest of the text. */
  lemma UnclosedBlockHidesTheRest(p: string, open: string, inner: Body)
    requires EndMode(p, START) == START && Opens(open) && WellFormed(inner)
    ensures Stripped(p + (open + Render(inner))) == Stripped(p)
  {
    hide Scan, EndMode, OpenTag, CloseTag, WellFormed;
    var inside := START.(depth := 1);
    assert (open + Render(inner))[0] == '<';
    ScanSplit(p, open + Render(inner), START);
    OpenToken(open, Render(inner), START);
    ScanBody(inner, "", inside);
    assert Render(inner) + "" == Render(inner);
    ScanNothing(inside);
  }

  /** From this mode on the scanner stays inside a block to the end of `s`. */
  predicate StaysInside(s: string, m: Mode)
    decreases |s|
  {
    m.depth > 0 &&
    (s != "" ==>
       var t := NextToken(s, m);
       StaysInside(s[t.length..], t.next))
  }

  lemma {:induction false} InsideIsHidden(s: string, m: Mode)
    requires StaysInside(s, m)
    ensures Scan(s, m) == ""
    decreases |s|
  {
    hide NextToken;
    if s != "" {
      var t := NextToken(s, m);
      InsideIsHidden(s[t.length..], t.next);
    }
  }

  /** Whatever follows an opening tag is hidden if the depth never comes back to 0: more unclosed blocks, loose code. */
  lemma OpenBlockHidesTheRest(p: string, open: string, rest: string)
    requires EndMode(p, START) == START && Opens(open) && StaysInside(rest, START.(depth := 1))
    ensures Stripped(p + (open + rest)) == Stripped(p)
  {
    hide Scan, EndMode, OpenTag, CloseTag, StaysInside;
    assert (open + rest)[0] == '<';
    ScanSplit(p, open + rest, START);
    OpenToken(open, rest, START);
    InsideIsHidden(rest, START.(depth := 1));
  }

  lemma NoCloseHere(s: string)
    requires forall i, j :: 0 <= i <= j <= |s| ==> !Closes(s[i..j])
    ensures CloseTag(s) == 0
  {
    hide CloseTag, Closes;
    var k := CloseTag(s);
    assert s[0..k] == s[..k];
    if k > 0 {
      CloseTagIff(s, k);
    }
  }

  /** Closing tags decide: without any, the depth does not come back. */
  lemma {:induction false} NoCloseStaysInside(s: string, m: Mode)
    requires m.depth > 0 && forall i, j :: 0 <= i <= j <= |s| ==> !Closes(s[i..j])
    ensures StaysInside(s, m)
    decreases |s|
  {
    hide OpenTag, CloseTag, Closes;
    if s != "" {
      var t := NextToken(s, m);
      NoCloseHere(s);
      forall i, j | 0 <= i <= j <= |s[t.length..]|
        ensures !Closes(s[t.length..][i..j])
      {
        assert s[t.length..][i..j] == s[t.length + i..t.length + j];
      }
      NoCloseStaysInside(s[t.length..], t.next);
    }
  }

  /** Inside a block a backtick without a partner hides the rest of the text too, closing tags included. */
  lemma UnpairedTickHidesTheRest(p: string, open: string, inner: Body, rest: string)
    requires EndMode(p, START) == START && Opens(open) && WellFormed(inner) && '`' !in rest
    ensures Stripped(p + (open + (Render(inner) + ("`" + rest)))) == Stripped(p)
  {
    hide Scan, EndMode, OpenTag, CloseTag, WellFormed;
    var inside := START.(depth := 1);
    var t := open + (Render(inner) + ("`" + rest));
    assert t[0] == '<';
    assert rest != "" ==> rest[0] in rest;
    ScanSplit(p, t, START);
    OpenToken(open, Render(inner) + ("`" + rest), START);
    ScanBody(inner, "`" + rest, inside);
    TickToken(rest, inside);
    ScanSpan(rest, "", inside.(inline := true));
    assert rest + "" == rest;
    ScanNothing(inside.(inline := true));
  }

  /** A text without tags is returned as it is, code or not. */
  lemma NoTagsNoChange(s: string)
    requires NoTags(s)
    ensures Stripped(s) == s
  {
    ScanWithoutTags(s, START);
  }

  /** A fenced block is kept with everything in it, tags and shorter runs of backticks included. */
  lemma FencedCodeIsKept(p: string, f: string, s: string)
    requires EndMode(p, START) == START && (p != "" ==> p[|p| - 1] != '`') && KeepsFence(f)
    ensures Stripped(p + ("```" + (f + ("```" + s)))) == Stripped(p) + ("```" + (f + "```") + Stripped(s))
  {
    hide Scan, EndMode, KeepsFence;
    ScanSplit(p, "```" + (f + ("```" + s)), START);
    WholeFence(f, s, START);
  }

  /** So is an inline code span. */
  lemma InlineCodeIsKept(p: string, f: string, s: string)
    requires EndMode(p, START) == START && (p != "" ==> p[|p| - 1] != '`') && f != "" && '`' !in f
    ensures Stripped(p + ("`" + (f + ("`" + s)))) == Stripped(p) + ("`" + (f + "`") + Stripped(s))
  {
    hide Scan, EndMode;
    ScanSplit(p, "`" + (f + ("`" + s)), START);
    WholeSpan(f, s, START);
  }

  /** A closing tag without an opening one vanishes by itself. */
  lemma StrayCloseTagVanishes(p: string, close: string, s: string)
    requires EndMode(p, START) == START && Closes(close)
    ensures Stripped(p + (close + s)) == Stripped(p) + Stripped(s)
  {
    hide Scan, EndMode, OpenTag, CloseTag;
    var t := close + s;
    assert t[0] == '<' && t[|close|..] == s;
    ScanSplit(p, t, START);
    CloseTagExtends(close, s);
    BackticksMeanBacktick(t, 0);
    ScanStep(t, START);
  }
}
