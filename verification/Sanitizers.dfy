/** The normal forms of src/utils/text.rs: prompt lines, slugs and character boundaries. */
module Sanitizers {
  import opened Strings

  // ----- prompt lines -----

  /** Unicode category Cc, which holds line breaks and tabs. */
  predicate IsControl(c: char) {
    c as int <= 0x1F || 0x7F <= c as int <= 0x9F
  }

  function BlankControls(s: string): string {
    if s == "" then "" else [if IsControl(s[0]) then ' ' else s[0]] + BlankControls(s[1..])
  }

  /** `replace("  ", " ")`: pairs of spaces from the left. */
  function ReplacePairs(s: string): string {
    if s == "" then ""
    else if |s| > 1 && s[0] == ' ' && s[1] == ' ' then " " + ReplacePairs(s[2..])
    else [s[0]] + ReplacePairs(s[1..])
  }

  /** Every run of spaces becomes one space, in one pass. */
  function Collapse(s: string): string {
    if s == "" then ""
    else if |s| > 1 && s[0] == ' ' && s[1] == ' ' then Collapse(s[1..])
    else [s[0]] + Collapse(s[1..])
  }

  predicate PairAt(s: string, i: int) {
    0 <= i < |s| - 1 && s[i] == ' ' && s[i + 1] == ' '
  }

  ghost predicate HasPair(s: string) {
    exists i :: PairAt(s, i)
  }

  function PromptLine(s: string): string {
    Trim(Collapse(BlankControls(s)))
  }

  lemma {:induction false} PairsShrink(s: string)
    ensures |ReplacePairs(s)| <= |s|
    ensures HasPair(s) ==> |ReplacePairs(s)| < |s|
    decreases |s|
  {
    if s != "" {
      PairsShrink(s[1..]);
      if |s| > 1 {
        PairsShrink(s[2..]);
      }
      if i :| PairAt(s, i) && i > 0 {
        assert PairAt(s[1..], i - 1);
      }
    }
  }

  lemma {:induction false} PairsCollapse(s: string)
    ensures Collapse(ReplacePairs(s)) == Collapse(s)
    ensures s != "" ==> ReplacePairs(s) != "" && ReplacePairs(s)[0] == s[0]
    decreases |s|
  {
    if s != "" {
      if |s| > 1 && s[0] == ' ' && s[1] == ' ' {
        PairsCollapse(s[2..]);
        assert (" " + ReplacePairs(s[2..]))[1..] == ReplacePairs(s[2..]);
        assert s[1..][1..] == s[2..];
      } else {
        PairsCollapse(s[1..]);
        assert ([s[0]] + ReplacePairs(s[1..]))[1..] == ReplacePairs(s[1..]);
      }
    }
  }

  lemma NoPairInSlice(s: string, i: nat, j: nat)
    requires i <= j <= |s| && !HasPair(s)
    ensures !HasPair(s[i..j])
  {
    forall k
      ensures !PairAt(s[i..j], k)
    {
      assert !PairAt(s, i + k);
    }
  }

  lemma {:induction false} CollapseOfSingle(s: string)
    requires !HasPair(s)
    ensures Collapse(s) == s
    decreases |s|
  {
    if s != "" {
      NoPairInSlice(s, 1, |s|);
      assert s[1..|s|] == s[1..];
      assert !PairAt(s, 0);
      CollapseOfSingle(s[1..]);
    }
  }

  lemma FoundPair(s: string)
    ensures Find(s, "  ", 0).Some? <==> HasPair(s)
  {
    forall i
      ensures OccursAt(s, "  ", i) <==> PairAt(s, i)
    {
      if OccursAt(s, "  ", i) {
        assert s[i + 0] == "  "[0] && s[i + 1] == "  "[1];
      }
    }
  }

  method SanitizePromptLine(value: string) returns (line: string)
    ensures line == PromptLine(value)
  {
    var out := "";
    assert value[0..] == value;
    for i := 0 to |value|
      invariant out + BlankControls(value[i..]) == BlankControls(value)
    {
      assert value[i..][1..] == value[i + 1..];
      out := out + [if IsControl(value[i]) then ' ' else value[i]];
    }
    assert value[|value|..] == "" && out + "" == out;
    while Find(out, "  ", 0).Some?
      invariant Collapse(out) == Collapse(BlankControls(value))
      decreases |out|
    {
      FoundPair(out);
      PairsShrink(out);
      PairsCollapse(out);
      out := ReplacePairs(out);
    }
    FoundPair(out);
    CollapseOfSingle(out);
    line := Trim(out);
  }

  ghost predicate ControlFree(s: string) {
    forall i :: 0 <= i < |s| ==> !IsControl(s[i])
  }

  lemma {:induction false} BlankedIsControlFree(s: string)
    ensures ControlFree(BlankControls(s))
    ensures ControlFree(s) ==> BlankControls(s) == s
    decreases |s|
  {
    if s != "" {
      BlankedIsControlFree(s[1..]);
      if ControlFree(s) {
        assert ControlFree(s[1..]);
      }
    }
  }

  lemma {:induction false} CollapsedIsSingle(s: string)
    ensures !HasPair(Collapse(s))
    ensures ControlFree(s) ==> ControlFree(Collapse(s))
    ensures s != "" ==> Collapse(s) != "" && Collapse(s)[0] == s[0]
    decreases |s|
  {
    if s != "" {
      CollapsedIsSingle(s[1..]);
      var c := Collapse(s);
      if !(|s| > 1 && s[0] == ' ' && s[1] == ' ') {
        var d := Collapse(s[1..]);
        forall i
          ensures !PairAt(c, i)
        {
          assert !PairAt(d, i - 1);
        }
      }
      if ControlFree(s) {
        assert ControlFree(s[1..]);
      }
    }
  }

  lemma TrimIsSlice(s: string)
    ensures exists i, j :: 0 <= i <= j <= |s| && Trim(s) == s[i..j]
  {
    hide TrimStart, TrimEnd, IsWhitespace;
    var t := TrimStart(s);
    var i := |s| - |t|;
    var j := i + |TrimEnd(t)|;
    assert TrimEnd(t) == t[..|TrimEnd(t)|] == s[i..j];
  }

  /** A sanitized line is trimmed, holds no control character and no two spaces in a row. */
  lemma PromptLineIsNormal(s: string)
    ensures var r := PromptLine(s);
            && Trimmed(r) && !HasPair(r) && ControlFree(r)
            && forall i :: 0 <= i < |r| ==> r[i] == ' ' || (r[i] as int >= 0x20 && !(0x7F <= r[i] as int < 0xA0))
  {
    hide Trim, Collapse, BlankControls;
    BlankedIsControlFree(s);
    CollapsedIsSingle(BlankControls(s));
    var c := Collapse(BlankControls(s));
    TrimIsSlice(c);
    var i, j :| 0 <= i <= j <= |c| && Trim(c) == c[i..j];
    NoPairInSlice(c, i, j);
    assert forall k :: 0 <= k < j - i ==> c[i..j][k] == c[i + k];
  }

  /** Sanitizing twice is sanitizing once. */
  lemma PromptLineTwice(s: string)
    ensures PromptLine(PromptLine(s)) == PromptLine(s)
  {
    hide Trim, Collapse, BlankControls;
    var r := PromptLine(s);
    PromptLineIsNormal(s);
    BlankedIsControlFree(r);
    CollapseOfSingle(r);
    TrimIdentity(r);
  }

  /** A normal line is left as it is. */
  lemma NormalLineIsFixed(s: string)
    requires Trimmed(s) && ControlFree(s) && !HasPair(s)
    ensures PromptLine(s) == s
  {
    hide Trim, Collapse, BlankControls;
    BlankedIsControlFree(s);
    CollapseOfSingle(s);
    TrimIdentity(s);
  }

  predicate IsVisible(c: char) {
    !IsWhitespace(c) && !IsControl(c)
  }

  /** The characters that are neither white space nor controls, in order. */
  function Visible(s: string): string {
    if s == "" then "" else (if IsVisible(s[0]) then [s[0]] else "") + Visible(s[1..])
  }

  lemma {:induction false} BlankKeepsVisible(s: string)
    ensures Visible(BlankControls(s)) == Visible(s)
    decreases |s|
  {
    if s != "" {
      BlankKeepsVisible(s[1..]);
      var c := if IsControl(s[0]) then ' ' else s[0];
      assert ([c] + BlankControls(s[1..]))[1..] == BlankControls(s[1..]);
      assert IsWhitespace(' ');
    }
  }

  lemma {:induction false} CollapseKeepsVisible(s: string)
    ensures Visible(Collapse(s)) == Visible(s)
    decreases |s|
  {
    if s != "" {
      CollapseKeepsVisible(s[1..]);
      assert IsWhitespace(' ');
      if !(|s| > 1 && s[0] == ' ' && s[1] == ' ') {
        assert ([s[0]] + Collapse(s[1..]))[1..] == Collapse(s[1..]);
      }
    }
  }

  lemma {:induction false} VisibleWithoutLast(s: string)
    requires s != "" && !IsVisible(s[|s| - 1])
    ensures Visible(s[..|s| - 1]) == Visible(s)
    decreases |s|
  {
    if |s| > 1 {
      VisibleWithoutLast(s[1..]);
      assert s[1..][..|s| - 2] == s[..|s| - 1][1..];
    }
  }

  lemma {:induction false} TrimEndKeepsVisible(s: string)
    ensures Visible(TrimEnd(s)) == Visible(s)
    decreases |s|
  {
    if s != "" && IsWhitespace(s[|s| - 1]) {
      VisibleWithoutLast(s);
      TrimEndKeepsVisible(s[..|s| - 1]);
    }
  }

  lemma {:induction false} TrimStartKeepsVisible(s: string)
    ensures Visible(TrimStart(s)) == Visible(s)
    decreases |s|
  {
    hide TrimEnd;
    if s != "" && IsWhitespace(s[0]) {
      TrimStartKeepsVisible(s[1..]);
    }
  }

  lemma TrimKeepsVisible(s: string)
    ensures Visible(Trim(s)) == Visible(s)
  {
    hide TrimStart, TrimEnd, Visible;
    TrimStartKeepsVisible(s);
    TrimEndKeepsVisible(TrimStart(s));
  }

  /** Sanitizing loses and moves no visible character. */
  lemma PromptLineKeepsVisible(s: string)
    ensures Visible(PromptLine(s)) == Visible(s)
  {
    hide Trim, Collapse, BlankControls, Visible;
    BlankKeepsVisible(s);
    CollapseKeepsVisible(BlankControls(s));
    TrimKeepsVisible(Collapse(BlankControls(s)));
  }

  /** A space or a control character: U+0000 to U+001F and U+007F to U+009F. */
  predicate IsGap(c: char) {
    c == ' ' || c as int < 0x20 || 0x7F <= c as int < 0xA0
  }

  predicate AllGap(s: string) {
    forall i :: 0 <= i < |s| ==> IsGap(s[i])
  }

  predicate AllSpaces(s: string) {
    forall i :: 0 <= i < |s| ==> s[i] == ' '
  }

  lemma {:induction false} BlankedGap(s: string)
    requires AllGap(s)
    ensures AllSpaces(BlankControls(s)) && |BlankControls(s)| == |s|
    decreases |s|
  {
    if s != "" {
      assert AllGap(s[1..]);
      BlankedGap(s[1..]);
    }
  }

  lemma {:induction false} BlankedConcat(a: string, b: string)
    ensures BlankControls(a + b) == BlankControls(a) + BlankControls(b)
    decreases |a|
  {
    if a == "" {
      assert a + b == b;
    } else {
      assert (a + b)[1..] == a[1..] + b;
      BlankedConcat(a[1..], b);
    }
  }

  lemma {:induction false} BlankedLength(s: string)
    ensures |BlankControls(s)| == |s|
  {
    if s != "" {
      BlankedLength(s[1..]);
    }
  }

  lemma {:induction false} BlankedAt(s: string, i: nat)
    requires i < |s|
    ensures |BlankControls(s)| == |s|
    ensures BlankControls(s)[i] == if IsGap(s[i]) then ' ' else s[i]
    decreases i
  {
    if i > 0 {
      BlankedAt(s[1..], i - 1);
    } else {
      BlankedLength(s);
    }
  }

  lemma {:induction false} CollapseSpaces(spaces: string, y: string)
    requires spaces != "" && AllSpaces(spaces) && y != "" && y[0] != ' '
    ensures Collapse(spaces + y) == " " + Collapse(y)
    decreases |spaces|
  {
    var s := spaces + y;
    assert s[1..] == spaces[1..] + y;
    if |spaces| > 1 {
      assert s[1] == spaces[1];
      CollapseSpaces(spaces[1..], y);
    } else {
      assert s[1..] == y && s[1] == y[0];
    }
  }

  lemma CollapseOfOne(x: string)
    requires |x| == 1
    ensures Collapse(x) == x
  {
    assert Collapse(x[1..]) == "";
  }

  lemma CollapseOneTurn(s: string)
    requires |s| > 1
    ensures Collapse(s) == if s[0] == ' ' && s[1] == ' ' then Collapse(s[1..]) else [s[0]] + Collapse(s[1..])
  {
  }

  lemma CollapseBeforeGap(spaces: string, y: string)
    requires spaces != "" && AllSpaces(spaces) && y != "" && y[0] != ' '
    ensures Collapse(spaces + y) == " " + Collapse(y)
  {
    CollapseSpaces(spaces, y);
  }

  lemma {:induction false} CollapseGap(x: string, spaces: string, y: string)
    requires x != "" && x[|x| - 1] != ' ' && spaces != "" && AllSpaces(spaces) && y != "" && y[0] != ' '
    ensures Collapse(x + spaces + y) == Collapse(x) + " " + Collapse(y)
    decreases |x|
  {
    hide Collapse;
    var s := x + spaces + y;
    CollapseOneTurn(s);
    if |x| == 1 {
      assert s[1..] == spaces + y;
      CollapseBeforeGap(spaces, y);
      CollapseOfOne(x);
      assert [x[0]] + (" " + Collapse(y)) == x + " " + Collapse(y);
    } else {
      assert s[1..] == x[1..] + spaces + y;
      CollapseGap(x[1..], spaces, y);
      CollapseOneTurn(x);
      assert [x[0]] + (Collapse(x[1..]) + " " + Collapse(y)) == ([x[0]] + Collapse(x[1..])) + " " + Collapse(y);
    }
  }

  lemma {:induction false} CollapseEnds(s: string)
    requires s != ""
    ensures Collapse(s) != "" && Collapse(s)[0] == s[0] && Collapse(s)[|Collapse(s)| - 1] == s[|s| - 1]
    decreases |s|
  {
    if |s| > 1 {
      CollapseEnds(s[1..]);
    } else {
      CollapseOfOne(s);
    }
  }

  lemma BlankTail(a: string, b: string)
    requires Blank(b)
    ensures b != "" ==> IsBlank((a + b)[|a + b| - 1])
  {
  }

  lemma BlankHead(a: string, b: string)
    requires Blank(a)
    ensures a != "" ==> IsBlank((a + b)[0])
  {
  }

  lemma TrimEndingVisible(x: string) returns (pre: string)
    requires x != "" && !IsBlank(x[|x| - 1])
    ensures Blank(pre) && x == pre + Trim(x) && Trim(x) != ""
  {
    hide Trim, IsBlank, IsWhitespace;
    var mid;
    pre, mid := TrimParts(x);
    BlankTail(pre + Trim(x), mid);
    BlankTail("", pre);
    assert Trim(x) == "" ==> x == "" + pre;
  }

  lemma TrimStartingVisible(y: string) returns (post: string)
    requires y != "" && !IsBlank(y[0])
    ensures Blank(post) && y == Trim(y) + post && Trim(y) != ""
  {
    hide Trim, IsBlank, IsWhitespace;
    var mid;
    mid, post := TrimParts(y);
    assert y == mid + (Trim(y) + post);
    BlankHead(mid, Trim(y) + post);
    BlankHead(post, "");
    assert Trim(y) == "" ==> y == post + "";
  }

  lemma TrimJoined(x: string, y: string)
    requires x != "" && y != "" && !IsBlank(x[|x| - 1]) && !IsBlank(y[0])
    ensures Trim(x + " " + y) == Trim(x) + " " + Trim(y)
  {
    hide Trim, IsBlank, IsWhitespace, Blank;
    var pre := TrimEndingVisible(x);
    var post := TrimStartingVisible(y);
    TrimmedIsBare(Trim(x));
    TrimmedIsBare(Trim(y));
    assert x + " " + y == pre + (Trim(x) + " " + Trim(y)) + post;
    TrimOf(pre, Trim(x) + " " + Trim(y), post);
  }

  lemma SpaceIsGap(c: char)
    ensures !IsGap(c) ==> c != ' '
  {
  }

  /** Every stretch of spaces and controls between two words becomes one space. */
  lemma GapBecomesSpace(a: string, gap: string, b: string)
    requires a != "" && !IsGap(a[|a| - 1]) && !IsBlank(a[|a| - 1])
    requires b != "" && !IsGap(b[0]) && !IsBlank(b[0])
    requires gap != "" && AllGap(gap)
    ensures PromptLine(a + gap + b) == PromptLine(a) + " " + PromptLine(b)
  {
    hide Trim, Collapse, BlankControls, IsGap, IsBlank, IsWhitespace, IsControl;
    var x, spaces, y := BlankControls(a), BlankControls(gap), BlankControls(b);
    BlankedConcat(a + gap, b);
    BlankedConcat(a, gap);
    BlankedGap(gap);
    BlankedAt(a, |a| - 1);
    BlankedAt(b, 0);
    SpaceIsGap(x[|x| - 1]);
    SpaceIsGap(y[0]);
    CollapseGap(x, spaces, y);
    CollapseEnds(x);
    CollapseEnds(y);
    TrimJoined(Collapse(x), Collapse(y));
  }

  // ----- slugs -----

  /** The maximal runs of ASCII letters and digits, in lower case. */
  function Words(s: string): (ws: seq<string>)
    ensures s != "" && IsAsciiAlphanumeric(s[0]) ==> ws != []
  {
    if s == "" then []
    else if !IsAsciiAlphanumeric(s[0]) then Words(s[1..])
    else if |s| > 1 && IsAsciiAlphanumeric(s[1]) then
      var ws := Words(s[1..]);
      [[ToAsciiLower(s[0])] + ws[0]] + ws[1..]
    else [[ToAsciiLower(s[0])]] + Words(s[1..])
  }

  /** An ASCII letter or digit. */
  predicate IsSlugLetter(c: char) {
    'a' <= c <= 'z' || 'A' <= c <= 'Z' || '0' <= c <= '9'
  }

  /** A word in small letters. */
  function SmallLetters(s: string): string {
    seq(|s|, i requires 0 <= i < |s| => if 'A' <= s[i] <= 'Z' then LOWER_LETTERS[s[i] as int - 65] else s[i])
  }

  lemma SmallLetter(c: char)
    ensures [ToAsciiLower(c)] == SmallLetters([c])
  {
    LowerIs(c);
    if 'A' <= c <= 'Z' {
      assert UPPER_LETTERS[c as int - 65] as int == c as int;
    }
  }

  /** A text of letters and digits is one word, in small letters. */
  lemma {:induction false} OneWord(s: string)
    requires s != "" && forall i :: 0 <= i < |s| ==> IsSlugLetter(s[i])
    ensures Words(s) == [SmallLetters(s)]
    decreases |s|
  {
    assert IsSlugLetter(s[0]);
    SmallLetter(s[0]);
    if |s| > 1 {
      assert IsSlugLetter(s[1]);
      OneWord(s[1..]);
      assert SmallLetters(s) == SmallLetters([s[0]]) + SmallLetters(s[1..]);
    } else {
      assert s == [s[0]];
    }
  }

  /** Any other character separates the words before it from the words behind it. */
  lemma {:induction false} WordsAcross(a: string, c: char, b: string)
    requires !IsSlugLetter(c)
    ensures Words(a + [c] + b) == Words(a) + Words(b)
    decreases |a|
  {
    var s := a + [c] + b;
    if a == "" {
      assert s[1..] == b;
    } else {
      assert s[1..] == a[1..] + [c] + b;
      WordsAcross(a[1..], c, b);
      assert s[0] == a[0] && s[1] == (a[1..] + [c] + b)[0];
      if |a| > 1 && IsAsciiAlphanumeric(a[0]) && IsAsciiAlphanumeric(a[1]) {
        var ws := Words(a[1..]);
        assert (ws + Words(b))[0] == ws[0] && (ws + Words(b))[1..] == ws[1..] + Words(b);
      }
    }
  }

  function Join(ws: seq<string>): string {
    if ws == [] then "" else if |ws| == 1 then ws[0] else ws[0] + ("-" + Join(ws[1..]))
  }

  /** What the loop of `sanitize_slug` pushes for a rest of the input. */
  function Dashed(s: string, prevDash: bool): string {
    if s == "" then ""
    else if IsAsciiAlphanumeric(s[0]) then [ToAsciiLower(s[0])] + Dashed(s[1..], false)
    else if prevDash then Dashed(s[1..], true)
    else "-" + Dashed(s[1..], true)
  }

  /** `trim_matches('-')`. */
  function TrimDashes(s: string): string {
    if s != "" && s[0] == '-' then TrimDashes(s[1..])
    else if s != "" && s[|s| - 1] == '-' then TrimDashes(s[..|s| - 1])
    else s
  }

  lemma DashedOfNothing(out: string, s: string, prevDash: bool)
    ensures out + Dashed(s[|s|..], prevDash) == out
  {
  }

  /** One turn of the loop. */
  lemma DashedStep(out: string, s: string, i: nat, prevDash: bool)
    requires i < |s|
    ensures IsAsciiAlphanumeric(s[i]) ==> ToAsciiLower(s[i]) != '-'
    ensures out + Dashed(s[i..], prevDash) ==
            if IsAsciiAlphanumeric(s[i]) then (out + [ToAsciiLower(s[i])]) + Dashed(s[i + 1..], false)
            else if prevDash then out + Dashed(s[i + 1..], true)
            else (out + "-") + Dashed(s[i + 1..], true)
  {
    assert s[i..][1..] == s[i + 1..];
  }

  method DashRuns(s: string) returns (out: string)
    ensures out == Dashed(s, false)
  {
    hide Dashed;
    out := "";
    var prevDash := false;
    assert s[0..] == s && "" + Dashed(s, false) == Dashed(s, false);
    for i := 0 to |s|
      invariant out + Dashed(s[i..], prevDash) == Dashed(s, false)
    {
      DashedStep(out, s, i, prevDash);
      var normalized := if IsAsciiAlphanumeric(s[i]) then ToAsciiLower(s[i]) else '-';
      if normalized == '-' {
        if prevDash {
          continue;
        }
        prevDash := true;
        out := out + "-";
      } else {
        prevDash := false;
        out := out + [normalized];
      }
    }
    DashedOfNothing(out, s, prevDash);
  }

  function Lead(s: string, prevDash: bool): string {
    if s != "" && !IsAsciiAlphanumeric(s[0]) && !prevDash then "-" else ""
  }

  function Tail(s: string): string {
    if Words(s) != [] && !IsAsciiAlphanumeric(s[|s| - 1]) then "-" else ""
  }

  lemma {:induction false} NoWords(s: string)
    requires s != "" && Words(s) == []
    ensures !IsAsciiAlphanumeric(s[0]) && !IsAsciiAlphanumeric(s[|s| - 1])
    decreases |s|
  {
    if |s| > 1 {
      NoWords(s[1..]);
    }
  }

  lemma Regroup(a: string, b: string, c: string, d: string)
    ensures a + (b + (c + d)) == (a + (b + c)) + d
  {
  }

  lemma JoinOfNone(s: string)
    ensures Words(s) == [] ==> Join(Words(s)) == ""
    ensures s == "" ==> Words(s) == []
  {
  }

  lemma JoinOfWords(s: string)
    requires s != "" && IsAsciiAlphanumeric(s[0])
    ensures Join(Words(s)) == [ToAsciiLower(s[0])] +
              (if s[1..] != "" && !IsAsciiAlphanumeric(s[1]) && Words(s[1..]) != [] then "-" + Join(Words(s[1..]))
               else Join(Words(s[1..])))
  {
    var ws := Words(s[1..]);
    var c := [ToAsciiLower(s[0])];
    if |s| > 1 && IsAsciiAlphanumeric(s[1]) {
      assert ([c + ws[0]] + ws[1..])[1..] == ws[1..];
    } else if ws != [] {
      assert ([c] + ws)[1..] == ws;
    }
  }

  lemma DashedFormWord(s: string)
    requires s != "" && IsAsciiAlphanumeric(s[0])
    ensures [ToAsciiLower(s[0])] + (Lead(s[1..], false) + (Join(Words(s[1..])) + Tail(s[1..])))
         == Join(Words(s)) + Tail(s)
  {
    hide Words, Join, ToAsciiLower;
    var t := s[1..];
    var c := [ToAsciiLower(s[0])];
    var j := Join(Words(t));
    JoinOfWords(s);
    JoinOfNone(t);
    if t == "" {
      assert c + (Lead(t, false) + (j + Tail(t))) == c;
    } else if Words(t) == [] {
      NoWords(t);
      assert Tail(s) == "-";
      assert c + (Lead(t, false) + (j + Tail(t))) == c + "-";
    } else {
      assert Tail(t) == Tail(s);
      Regroup(c, Lead(t, false), j, Tail(s));
      assert Join(Words(s)) == c + (Lead(t, false) + j);
    }
  }

  lemma DashedFormDash(s: string)
    requires s != "" && !IsAsciiAlphanumeric(s[0])
    ensures Words(s) == Words(s[1..]) && Tail(s) == Tail(s[1..]) && Lead(s[1..], true) == ""
  {
    if s[1..] == "" {
      assert Words(s[1..]) == [];
    }
  }

  /** The loop writes the words joined by dashes, and at most one dash before and after them. */
  lemma {:induction false} DashedForm(s: string, prevDash: bool)
    ensures Dashed(s, prevDash) == Lead(s, prevDash) + (Join(Words(s)) + Tail(s))
    decreases |s|
  {
    if s != "" {
      DashedForm(s[1..], !IsAsciiAlphanumeric(s[0]));
      if IsAsciiAlphanumeric(s[0]) {
        DashedFormWord(s);
      } else {
        DashedFormDash(s);
      }
    }
  }

  lemma {:induction false} JoinHasNoOuterDash(s: string)
    ensures var j := Join(Words(s));
            && (j == "" <==> Words(s) == [])
            && (j != "" ==> j[0] != '-' && j[|j| - 1] != '-')
    decreases |s|
  {
    if s != "" {
      JoinHasNoOuterDash(s[1..]);
      if IsAsciiAlphanumeric(s[0]) {
        JoinOfWords(s);
      }
    }
  }

  lemma TrimDashesForm(lead: string, j: string, tail: string)
    requires (lead == "" || lead == "-") && (tail == "" || tail == "-") && (j == "" ==> tail == "")
    requires j != "" ==> j[0] != '-' && j[|j| - 1] != '-'
    ensures TrimDashes(lead + (j + tail)) == j
  {
    assert TrimDashes(j) == j;
    assert tail == "-" ==> (j + tail)[..|j + tail| - 1] == j;
    assert TrimDashes(j + tail) == j by {
      if tail == "" {
        assert j + tail == j;
      }
    }
    if lead == "-" {
      assert (lead + (j + tail))[1..] == j + tail;
    } else {
      assert lead + (j + tail) == j + tail;
    }
  }

  lemma {:induction false} WordsWithoutLast(s: string)
    requires s != "" && !IsAsciiAlphanumeric(s[|s| - 1])
    ensures Words(s[..|s| - 1]) == Words(s)
    decreases |s|
  {
    if |s| > 1 {
      var t := s[1..];
      WordsWithoutLast(t);
      assert t[..|t| - 1] == s[..|s| - 1][1..];
    }
  }

  lemma {:induction false} WordsOfTrimEnd(s: string)
    ensures Words(TrimEnd(s)) == Words(s)
    decreases |s|
  {
    if s != "" && IsWhitespace(s[|s| - 1]) {
      WordsWithoutLast(s);
      WordsOfTrimEnd(s[..|s| - 1]);
    }
  }

  lemma {:induction false} WordsOfTrimmed(s: string)
    ensures Words(Trim(s)) == Words(s)
    decreases |s|
  {
    if s != "" && IsWhitespace(s[0]) {
      WordsOfTrimmed(s[1..]);
    } else {
      WordsOfTrimEnd(s);
    }
  }

  method SanitizeSlug(raw: string, fallback: string) returns (slug: string)
    ensures slug == if Words(raw) == [] then fallback else Join(Words(raw))
  {
    hide Words, Join, Dashed, TrimDashes, Trim;
    var out := DashRuns(Trim(raw));
    DashedForm(Trim(raw), false);
    WordsOfTrimmed(raw);
    JoinHasNoOuterDash(Trim(raw));
    TrimDashesForm(Lead(Trim(raw), false), Join(Words(raw)), Tail(Trim(raw)));
    var trimmed := TrimDashes(out);
    if trimmed == "" {
      slug := fallback;
    } else {
      slug := trimmed;
    }
  }

  // ----- character boundaries -----

  /** `is_char_boundary` on UTF-8 bytes: the end, or a byte that continues no character. */
  predicate IsCharBoundary(bytes: seq<bv8>, i: nat) {
    i == 0 || i == |bytes| || (i < |bytes| && bytes[i] & 0xC0 != 0x80)
  }

  /** A character of UTF-8 starts at every byte outside 0x80 to 0xBF. */
  lemma BoundaryIff(bytes: seq<bv8>, i: nat)
    ensures IsCharBoundary(bytes, i) <==>
            i == 0 || i == |bytes| || (i < |bytes| && (bytes[i] < 0x80 || bytes[i] >= 0xC0))
  {
  }

  /** The greatest boundary at or before the index. */
  method FloorCharBoundary(bytes: seq<bv8>, index: nat) returns (boundary: nat)
    ensures boundary <= index && boundary <= |bytes| && IsCharBoundary(bytes, boundary)
    ensures forall i :: boundary < i <= index && i <= |bytes| ==> !IsCharBoundary(bytes, i)
  {
    var capped := if index <= |bytes| then index else |bytes|;
    if IsCharBoundary(bytes, capped) {
      return capped;
    }
    boundary := capped;
    while boundary > 0 && !IsCharBoundary(bytes, boundary)
      invariant boundary <= capped
      invariant forall i :: boundary < i <= capped ==> !IsCharBoundary(bytes, i)
    {
      boundary := boundary - 1;
    }
  }
}
