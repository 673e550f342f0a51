/** What the output of `strip_reasoning` may still contain, and when stripping twice is stripping once. */
module StripsTwice {
  import opened Strings
  import opened StripReasoning

  // ----- texts that are left alone -----

  /** A scan from this mode meets no tag outside code. */
  predicate Untagged(s: string, m: Mode)
    decreases |s|
  {
    s != "" ==>
      var t := NextToken(s, m);
      t.visible && Untagged(s[t.length..], t.next)
  }

  lemma {:induction false} ScanShortens(s: string, m: Mode)
    ensures |Scan(s, m)| <= |s|
    decreases |s|
  {
    hide NextToken;
    if s != "" {
      var t := NextToken(s, m);
      ScanShortens(s[t.length..], t.next);
    }
  }

  lemma VisibleKeepsDepth(s: string, m: Mode)
    requires s != ""
    ensures NextToken(s, m).visible ==> NextToken(s, m).next.depth == m.depth
  {
    hide OpenTag, CloseTag;
  }

  lemma {:induction false} ScanFixedIff(s: string, m: Mode)
    requires m.depth == 0
    ensures Scan(s, m) == s <==> Untagged(s, m)
    decreases |s|
  {
    hide NextToken;
    if s != "" {
      var t := NextToken(s, m);
      VisibleKeepsDepth(s, m);
      ScanShortens(s[t.length..], t.next);
      assert s == s[..t.length] + s[t.length..];
      if t.visible {
        ScanFixedIff(s[t.length..], t.next);
        assert Scan(s, m)[t.length..] == Scan(s[t.length..], t.next);
      }
    }
  }

  /** A second strip changes nothing exactly when the first left no tag outside code. */
  lemma StripTwiceIff(input: string)
    ensures Stripped(Stripped(input)) == Stripped(input) <==> Untagged(Stripped(input), START)
  {
    hide Scan, Untagged;
    ScanFixedIff(Stripped(input), START);
  }

  // ----- a tag can be put together -----

  /** The two parts of an opening tag around a block. */
  const SPLIT_TAG := "<th" + ("<think>" + (Render(Nil) + ("</think>" + "ink>x")))

  lemma ShortHasNoTags(s: string)
    requires |s| < 7
    ensures NoTags(s)
  {
  }

  lemma TagsOfThink()
    ensures Opens("<think>") && Closes("</think>")
  {
  }

  /** A block between the two parts of a tag leaves that tag, and a second strip hides what follows it. */
  lemma StripTwiceCanDiffer()
    ensures Stripped(SPLIT_TAG) == "<think>x"
    ensures Stripped(Stripped(SPLIT_TAG)) == ""
  {
    hide Scan, EndMode, NoTags, Render, Opens, Closes;
    ShortHasNoTags("<th");
    ShortHasNoTags("ink>x");
    ShortHasNoTags("");
    TagsOfThink();
    assert '`' !in "<th";
    ScanPlain("<th", START);
    NoTagsNoChange("ink>x");
    BlockVanishes("<th", "<think>", Nil, "</think>", "ink>x");
    assert "<th" + "ink>x" == "<think>" + "x" == "<think>x";
    OpenToken("<think>", "x", START);
    ShortHasNoTags("x");
    assert '`' !in "x";
    ScanPlain("x", START.(depth := 1));
  }

  // ----- when none is -----

  /** No tag starts in `p` and ends behind it when `s` follows. */
  predicate NoTagAcross(p: string, s: string) {
    forall i, j :: 0 <= i < |p| < j <= |p + s| ==> !Opens((p + s)[i..j]) && !Closes((p + s)[i..j])
  }

  /** The same in terms of the scanner. */
  predicate NoTagReaches(p: string, s: string) {
    forall i :: 0 <= i < |p| ==> OpenTag(p[i..] + s) <= |p| - i && CloseTag(p[i..] + s) <= |p| - i
  }

  /** No run of backticks goes over the cut. */
  predicate TicksApart(p: string, s: string) {
    p == "" || s == "" || p[|p| - 1] != '`' || s[0] != '`'
  }

  lemma TagChars(s: string, n: string, k: nat)
    requires IsNeedle(n) && StartsWithCi(s, n) && k < |n|
    ensures s[k] != '`' && (s[k] == '<' <==> k == 0)
  {
    assert ToAsciiLower(s[k]) == n[k];
    assert n[k] != '`' && (n[k] == '<' <==> k == 0);
  }

  lemma TagNeedle(s: string, n: nat) returns (needle: string)
    requires n > 0 && (OpenTag(s) == n || CloseTag(s) == n)
    ensures IsNeedle(needle) && |needle| == n && StartsWithCi(s, needle)
  {
    hide StartsWithCi;
    needle := if OpenTag(s) == n then (if n == 7 then OPEN_THINK else OPEN_REASONING)
              else (if n == 8 then CLOSE_THINK else CLOSE_REASONING);
  }

  /** A tag that goes over the cut starts in text without backticks. */
  lemma TagAcrossChars(p: string, s: string)
    requires p != "" && (OpenTag(p + s) > |p| || CloseTag(p + s) > |p|)
    ensures p[0] == '<' && '`' !in p
  {
    hide OpenTag, CloseTag;
    var n := if OpenTag(p + s) > |p| then OpenTag(p + s) else CloseTag(p + s);
    var needle := TagNeedle(p + s, n);
    hide StartsWithCi;
    forall k | 0 <= k < |p|
      ensures p[k] != '`' && (k == 0 ==> p[k] == '<')
    {
      TagChars(p + s, needle, k);
      assert (p + s)[k] == p[k];
    }
  }

  lemma {:induction false} NoTicksKeepCode(p: string, m: Mode)
    requires '`' !in p
    ensures EndMode(p, m).fence == m.fence && EndMode(p, m).inline == m.inline
    decreases |p|
  {
    hide OpenTag, CloseTag;
    if p != "" {
      assert p[0] in p;
      BackticksMeanBacktick(p, 0);
      var t := NextToken(p, m);
      NoTicksKeepCode(p[t.length..], t.next);
    }
  }

  lemma SameTags(p: string, s: string)
    requires OpenTag(p + s) <= |p| && CloseTag(p + s) <= |p|
    ensures OpenTag(p + s) == OpenTag(p) && CloseTag(p + s) == CloseTag(p)
  {
    hide StartsWithCi;
    CiWithin(p, s, OPEN_THINK);
    CiWithin(p, s, OPEN_REASONING);
    CiWithin(p, s, CLOSE_THINK);
    CiWithin(p, s, CLOSE_REASONING);
  }

  lemma SameTicks(p: string, s: string)
    requires p != "" && TicksApart(p, s)
    ensures "```" <= p + s <==> "```" <= p
  {
    if |p| >= 3 {
      assert (p + s)[..3] == p[..3];
    } else {
      BackticksMeanBacktick(p + s, |p|);
      BackticksMeanBacktick(p + s, |p| - 1);
    }
  }

  lemma SameToken(p: string, s: string, m: Mode)
    requires p != "" && TicksApart(p, s) && OpenTag(p + s) <= |p| && CloseTag(p + s) <= |p|
    ensures NextToken(p + s, m) == NextToken(p, m)
  {
    SameTags(p, s);
    SameTicks(p, s);
    hide OpenTag, CloseTag, TicksApart;
  }

  /** A tag over the cut is met by the scan. */
  lemma AcrossIsTag(p: string, s: string, m: Mode)
    requires p != "" && (OpenTag(p + s) > |p| || CloseTag(p + s) > |p|)
    requires !EndMode(p, m).fence && !EndMode(p, m).inline
    ensures !Untagged(p + s, m)
  {
    hide OpenTag, CloseTag, EndMode;
    TagAcrossChars(p, s);
    NoTicksKeepCode(p, m);
    BackticksMeanBacktick(p + s, 0);
  }

  lemma AcrossInTail(p: string, s: string, n: nat)
    requires n <= |p| && NoTagReaches(p, s)
    ensures NoTagReaches(p[n..], s)
  {
    hide OpenTag, CloseTag;
    forall i | 0 <= i < |p[n..]|
      ensures OpenTag(p[n..][i..] + s) <= |p[n..]| - i && CloseTag(p[n..][i..] + s) <= |p[n..]| - i
    {
      assert p[n..][i..] == p[n + i..];
    }
  }

  lemma AcrossFromTail(p: string, s: string, m: Mode)
    requires p != "" && NextToken(p, m).visible
    requires OpenTag(p + s) <= |p| && CloseTag(p + s) <= |p| && NoTagReaches(p[NextToken(p, m).length..], s)
    ensures NoTagReaches(p, s)
  {
    hide OpenTag, CloseTag;
    var n := NextToken(p, m).length;
    forall i | 0 <= i < |p|
      ensures OpenTag(p[i..] + s) <= |p| - i && CloseTag(p[i..] + s) <= |p| - i
    {
      if i == 0 {
        assert p[0..] == p;
      } else if i >= n {
        assert p[n..][i - n..] == p[i..];
      } else {
        BackticksMeanBacktick(p, i);
        assert (p[i..] + s)[0] == p[i] == '`';
      }
    }
  }

  lemma TicksApartInTail(p: string, s: string, n: nat)
    requires n <= |p| && TicksApart(p, s)
    ensures TicksApart(p[n..], s)
  {
  }

  lemma {:induction false} ScanJoinIff(p: string, s: string, m: Mode)
    requires EndMode(p, m) == START && TicksApart(p, s)
    ensures Untagged(p + s, m) <==> Untagged(p, m) && NoTagReaches(p, s) && Untagged(s, START)
    decreases |p|
  {
    hide OpenTag, CloseTag, NextToken, TicksApart;
    if p == "" {
      assert p + s == s;
    } else if OpenTag(p + s) > |p| || CloseTag(p + s) > |p| {
      AcrossIsTag(p, s, m);
      assert p[0..] == p;
    } else {
      var t := NextToken(p, m);
      var rest := p[t.length..];
      SameToken(p, s, m);
      assert (p + s)[t.length..] == rest + s;
      TicksApartInTail(p, s, t.length);
      ScanJoinIff(rest, s, t.next);
      if NoTagReaches(p, s) {
        AcrossInTail(p, s, t.length);
      }
      if t.visible && NoTagReaches(rest, s) {
        AcrossFromTail(p, s, m);
      }
    }
  }

  lemma ReachesIff(p: string, s: string)
    ensures NoTagReaches(p, s) <==> NoTagAcross(p, s)
  {
    hide OpenTag, CloseTag, Opens, Closes;
    var t := p + s;
    forall i, j | 0 <= i < |p| < j <= |t|
      ensures Opens(t[i..j]) <==> OpenTag(p[i..] + s) == j - i
      ensures Closes(t[i..j]) <==> CloseTag(p[i..] + s) == j - i
    {
      assert p[i..] + s == t[i..] && t[i..][..j - i] == t[i..j];
      OpenTagIff(t[i..], j - i);
      CloseTagIff(t[i..], j - i);
    }
    if i :| 0 <= i < |p| && OpenTag(p[i..] + s) > |p| - i {
      assert Opens(t[i..i + OpenTag(p[i..] + s)]);
    }
    if i :| 0 <= i < |p| && CloseTag(p[i..] + s) > |p| - i {
      assert Closes(t[i..i + CloseTag(p[i..] + s)]);
    }
  }

  /** Outside code, with no backticks joined, a text has no tags exactly if its parts have none and none is joined. */
  lemma JoinIff(p: string, s: string)
    requires EndMode(p, START) == START && TicksApart(p, s)
    ensures Untagged(p + s, START) <==> Untagged(p, START) && NoTagAcross(p, s) && Untagged(s, START)
  {
    hide Untagged, NoTagAcross, NoTagReaches, TicksApart, EndMode;
    ScanJoinIff(p, s, START);
    ReachesIff(p, s);
  }

  /**
   Taking a block out leaves a text that a second strip does not change exactly
   if the texts kept on its two sides are such and no tag forms across the gap.
   */
  lemma BlockLeavesNoTagIff(p: string, open: string, inner: Body, close: string, s: string)
    requires EndMode(p, START) == START && Opens(open) && Closes(close) && WellFormed(inner)
    requires EndMode(Stripped(p), START) == START && TicksApart(Stripped(p), Stripped(s))
    ensures var once := Stripped(p + (open + (Render(inner) + (close + s))));
            Stripped(once) == once <==>
              && Stripped(Stripped(p)) == Stripped(p) && Stripped(Stripped(s)) == Stripped(s)
              && NoTagAcross(Stripped(p), Stripped(s))
  {
    hide Scan, EndMode, Untagged, NoTagAcross, TicksApart, WellFormed, Opens, Closes;
    BlockVanishes(p, open, inner, close, s);
    JoinIff(Stripped(p), Stripped(s));
    StripTwiceIff(p);
    StripTwiceIff(s);
    StripTwiceIff(p + (open + (Render(inner) + (close + s))));
  }

  /** `s` starts with a tag. */
  ghost predicate StartsTag(s: string) {
    exists n :: 0 <= n <= |s| && (Opens(s[..n]) || Closes(s[..n]))
  }

  /** Every '<' starts a tag, and there is no code. */
  ghost predicate TagsOnly(s: string) {
    '`' !in s && forall i :: 0 <= i < |s| && s[i] == '<' ==> StartsTag(s[i..])
  }

  lemma TagStarts(s: string)
    requires StartsTag(s)
    ensures OpenTag(s) > 0 || CloseTag(s) > 0
  {
    hide OpenTag, CloseTag;
    var n :| 0 <= n <= |s| && (Opens(s[..n]) || Closes(s[..n]));
    OpenTagIff(s, n);
    CloseTagIff(s, n);
  }

  lemma TagsOnlyInTail(s: string, n: nat)
    requires n <= |s| && TagsOnly(s)
    ensures TagsOnly(s[n..])
  {
    hide StartsTag;
    forall i | 0 <= i < |s[n..]| && s[n..][i] == '<'
      ensures StartsTag(s[n..][i..])
    {
      assert s[n..][i..] == s[n + i..];
    }
  }

  lemma {:induction false} TagsOnlyLeaveNone(s: string, m: Mode)
    requires TagsOnly(s) && !m.fence && !m.inline
    ensures '<' !in Scan(s, m) && '`' !in Scan(s, m)
    decreases |s|
  {
    hide OpenTag, CloseTag, StartsTag;
    if s != "" {
      assert s[0] in s && s[0..] == s;
      if s[0] == '<' {
        TagStarts(s);
      }
      BackticksMeanBacktick(s, 0);
      var t := NextToken(s, m);
      TagsOnlyInTail(s, t.length);
      hide TagsOnly;
      TagsOnlyLeaveNone(s[t.length..], t.next);
    }
  }

  lemma {:induction false} NoAngleUntagged(s: string, m: Mode)
    requires '<' !in s
    ensures Untagged(s, m)
    decreases |s|
  {
    hide OpenTag, CloseTag;
    if s != "" {
      assert s[0] in s;
      NoAngleUntagged(s[NextToken(s, m).length..], NextToken(s, m).next);
    }
  }

  /** A text without code in which every '<' starts a tag is stripped for good at once. */
  lemma StripTwiceWithTagsOnly(input: string)
    requires TagsOnly(input)
    ensures Stripped(Stripped(input)) == Stripped(input)
  {
    hide Scan, Untagged, TagsOnly;
    TagsOnlyLeaveNone(input, START);
    NoAngleUntagged(Stripped(input), START);
    StripTwiceIff(input);
  }
}
