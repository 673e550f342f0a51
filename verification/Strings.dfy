/** Substring search, trimming, bytes and ASCII helpers: the parts of Rust's `str` that the modelled code calls. */
module Strings {

  datatype Option<+T> = None | Some(value: T)

  datatype Result<+T, +E> = Ok(value: T) | Err(error: E)

  type Byte = n: nat | n < 256

  // ----- occurrences -----

  /** `p` stands in `s` at position `i`. */
  predicate OccursAt(s: string, p: string, i: int) {
    0 <= i && i + |p| <= |s| && forall k :: 0 <= k < |p| ==> s[i + k] == p[k]
  }

  ghost predicate Absent(s: string, p: string) {
    forall i :: !OccursAt(s, p, i)
  }

  /** `s[from..].find(p)`, as a position in `s`: the leftmost occurrence at or after `from`. */
  function Find(s: string, p: string, from: nat): (r: Option<nat>)
    ensures r.Some? ==> from <= r.value && OccursAt(s, p, r.value)
    ensures r.Some? ==> forall j :: from <= j < r.value ==> !OccursAt(s, p, j)
    ensures r.None? ==> forall j :: from <= j ==> !OccursAt(s, p, j)
    decreases |s| - from
  {
    if OccursAt(s, p, from) then Some(from)
    else if from >= |s| then None
    else Find(s, p, from + 1)
  }

  lemma OccursBetween(a: string, p: string, b: string)
    ensures OccursAt(a + p + b, p, |a|)
  {
  }

  /** A search may start later when nothing occurs in between. */
  lemma FindLater(s: string, p: string, from: nat, later: nat)
    requires from <= later
    requires forall j :: from <= j < later ==> !OccursAt(s, p, j)
    ensures Find(s, p, from) == Find(s, p, later)
  {
  }

  function Shift(r: Option<nat>, n: nat): Option<nat> {
    match r
    case None => None
    case Some(i) => Some(n + i)
  }

  lemma OccursRight(a: string, b: string, p: string, i: int)
    requires i >= |a|
    ensures OccursAt(a + b, p, i) <==> OccursAt(b, p, i - |a|)
  {
    if OccursAt(a + b, p, i) {
      forall k | 0 <= k < |p|
        ensures b[i - |a| + k] == p[k]
      {
        assert (a + b)[i + k] == p[k];
      }
    }
  }

  lemma FindShift(a: string, b: string, p: string, from: nat)
    ensures Find(a + b, p, |a| + from) == Shift(Find(b, p, from), |a|)
  {
    forall i | i >= from
      ensures OccursAt(a + b, p, |a| + i) <==> OccursAt(b, p, i)
    {
      OccursRight(a, b, p, |a| + i);
    }
    match Find(b, p, from)
    case None =>
      forall j | |a| + from <= j
        ensures !OccursAt(a + b, p, j)
      {
        OccursRight(a, b, p, j);
      }
    case Some(i) =>
      forall j | |a| + from <= j < |a| + i
        ensures !OccursAt(a + b, p, j)
      {
        OccursRight(a, b, p, j);
      }
  }

  lemma OccursLeft(a: string, b: string, p: string, i: int)
    requires i + |p| <= |a|
    ensures OccursAt(a + b, p, i) <==> OccursAt(a, p, i)
  {
    if OccursAt(a + b, p, i) {
      forall k | 0 <= k < |p|
        ensures a[i + k] == p[k]
      {
        assert (a + b)[i + k] == p[k];
      }
    }
  }

  // ----- trimming -----

  /** Unicode White_Space, the class `str::trim` removes. */
  predicate IsWhitespace(c: char) {
    var n := c as int;
    || 0x09 <= n <= 0x0D
    || n == 0x20 || n == 0x85 || n == 0xA0 || n == 0x1680
    || 0x2000 <= n <= 0x200A
    || n == 0x2028 || n == 0x2029 || n == 0x202F || n == 0x205F || n == 0x3000
  }

  function TrimStart(s: string): (r: string)
    ensures r != "" ==> !IsWhitespace(r[0])
    ensures |r| <= |s| && r == s[|s| - |r|..]
  {
    if s != "" && IsWhitespace(s[0]) then TrimStart(s[1..]) else s
  }

  function TrimEnd(s: string): (r: string)
    ensures r != "" ==> !IsWhitespace(r[|r| - 1])
    ensures r <= s
  {
    if s != "" && IsWhitespace(s[|s| - 1]) then TrimEnd(s[..|s| - 1]) else s
  }

  function Trim(s: string): (r: string)
    ensures r != "" ==> !IsWhitespace(r[0]) && !IsWhitespace(r[|r| - 1])
  {
    TrimEnd(TrimStart(s))
  }

  predicate Trimmed(s: string) {
    s != "" ==> !IsWhitespace(s[0]) && !IsWhitespace(s[|s| - 1])
  }

  lemma TrimIdentity(s: string)
    requires Trimmed(s)
    ensures Trim(s) == s
  {
  }

  /** The 25 characters with the Unicode property White_Space. */
  const WHITE_SPACE: string :=
    "\t\n\U{0B}\U{0C}\r \U{85}\U{A0}\U{1680}"
    + "\U{2000}\U{2001}\U{2002}\U{2003}\U{2004}\U{2005}\U{2006}\U{2007}\U{2008}\U{2009}\U{200A}"
    + "\U{2028}\U{2029}\U{202F}\U{205F}\U{3000}"

  predicate IsBlank(c: char) {
    c in WHITE_SPACE
  }

  predicate Blank(s: string) {
    forall i :: 0 <= i < |s| ==> IsBlank(s[i])
  }

  /** No white space at either end. */
  predicate BareEnds(s: string) {
    s != "" ==> !IsBlank(s[0]) && !IsBlank(s[|s| - 1])
  }

  lemma WhitespaceListed(c: char)
    ensures IsWhitespace(c) <==> IsBlank(c)
  {
  }

  lemma TrimmedIsBare(s: string)
    ensures Trimmed(s) <==> BareEnds(s)
  {
    hide IsWhitespace, IsBlank;
    if s != "" {
      WhitespaceListed(s[0]);
      WhitespaceListed(s[|s| - 1]);
    }
  }

  lemma {:induction false} TrimStartTakes(s: string, i: nat)
    requires i < |s| - |TrimStart(s)|
    ensures IsBlank(s[i])
    decreases i
  {
    hide IsWhitespace, IsBlank;
    WhitespaceListed(s[0]);
    if i > 0 {
      TrimStartTakes(s[1..], i - 1);
    }
  }

  lemma {:induction false} TrimEndTakes(s: string, i: nat)
    requires |TrimEnd(s)| <= i < |s|
    ensures IsBlank(s[i])
    decreases |s|
  {
    hide IsWhitespace, IsBlank;
    WhitespaceListed(s[|s| - 1]);
    if i < |s| - 1 {
      TrimEndTakes(s[..|s| - 1], i);
    }
  }

  lemma {:induction false} TrimStartDrops(pre: string, s: string)
    requires Blank(pre)
    ensures TrimStart(pre + s) == TrimStart(s)
    decreases |pre|
  {
    hide IsWhitespace, IsBlank;
    if pre == "" {
      assert pre + s == s;
    } else {
      WhitespaceListed(pre[0]);
      assert (pre + s)[1..] == pre[1..] + s;
      TrimStartDrops(pre[1..], s);
    }
  }

  lemma {:induction false} TrimEndDrops(s: string, post: string)
    requires Blank(post)
    ensures TrimEnd(s + post) == TrimEnd(s)
    decreases |post|
  {
    hide IsWhitespace, IsBlank;
    if post == "" {
      assert s + post == s;
    } else {
      WhitespaceListed(post[|post| - 1]);
      assert (s + post)[..|s + post| - 1] == s + post[..|post| - 1];
      TrimEndDrops(s, post[..|post| - 1]);
    }
  }

  lemma TrimNothing()
    ensures TrimStart("") == "" && TrimEnd("") == ""
  {
  }

  lemma TrimStartKeepsBare(s: string)
    ensures s != "" && !IsWhitespace(s[0]) ==> TrimStart(s) == s
  {
  }

  lemma TrimEndKeepsBare(s: string)
    ensures s != "" && !IsWhitespace(s[|s| - 1]) ==> TrimEnd(s) == s
  {
  }

  lemma TrimOf(pre: string, r: string, post: string)
    requires BareEnds(r) && Blank(pre) && Blank(post)
    ensures Trim(pre + r + post) == r
  {
    hide TrimStart, TrimEnd, IsWhitespace, IsBlank, Blank, BareEnds;
    assert pre + r + post == pre + (r + post);
    TrimStartDrops(pre, r + post);
    TrimmedIsBare(r);
    if r == "" {
      assert r + post == post + "";
      TrimStartDrops(post, "");
      TrimNothing();
    } else {
      TrimStartKeepsBare(r + post);
      TrimEndDrops(r, post);
      TrimEndKeepsBare(r);
    }
  }

  lemma TrimParts(s: string) returns (pre: string, post: string)
    ensures Blank(pre) && Blank(post) && s == pre + Trim(s) + post
  {
    hide TrimStart, TrimEnd, IsWhitespace, IsBlank;
    var started := TrimStart(s);
    var n := |s| - |started|;
    pre, post := s[..n], started[|Trim(s)|..];
    forall i | 0 <= i < |pre|
      ensures IsBlank(pre[i])
    {
      TrimStartTakes(s, i);
    }
    forall i | 0 <= i < |post|
      ensures IsBlank(post[i])
    {
      TrimEndTakes(started, |Trim(s)| + i);
    }
    assert started == Trim(s) + post;
    assert s == pre + started;
  }

  /** Trimming takes exactly the white space at the two ends off. */
  lemma TrimIff(s: string, r: string)
    ensures Trim(s) == r <==> BareEnds(r) && exists pre, post :: Blank(pre) && Blank(post) && s == pre + r + post
  {
    hide Trim, IsBlank, Blank, BareEnds, IsWhitespace;
    TrimmedIsBare(r);
    if Trim(s) == r {
      var pre, post := TrimParts(s);
    }
    if pre, post :| BareEnds(r) && Blank(pre) && Blank(post) && s == pre + r + post {
      TrimOf(pre, r, post);
    }
  }

  // ----- ASCII -----

  predicate IsDigit(c: char) { '0' <= c <= '9' }

  predicate AllDigits(s: string) {
    forall i :: 0 <= i < |s| ==> IsDigit(s[i])
  }

  function DigitValue(c: char): nat
    requires IsDigit(c)
  {
    (c as int - '0' as int) as nat
  }

  /** The number a text of decimal digits stands for. */
  function ReadDecimal(s: string): nat
    requires AllDigits(s)
  {
    if s == "" then 0 else 10 * ReadDecimal(s[..|s| - 1]) + DigitValue(s[|s| - 1])
  }

  lemma ReadOneMore(s: string, c: char)
    requires AllDigits(s) && IsDigit(c)
    ensures AllDigits(s + [c]) && ReadDecimal(s + [c]) == 10 * ReadDecimal(s) + DigitValue(c)
  {
    assert (s + [c])[..|s|] == s;
  }

  predicate IsAsciiAlphanumeric(c: char) {
    IsDigit(c) || 'a' <= c <= 'z' || 'A' <= c <= 'Z'
  }

  function ToAsciiLower(c: char): char {
    if 'A' <= c <= 'Z' then (c as int + 32) as char else c
  }

  const UPPER_LETTERS: string := "ABCDEFGHIJKLMNOPQRSTUVWXYZ"
  const LOWER_LETTERS: string := "abcdefghijklmnopqrstuvwxyz"

  const TEN_DIGITS: string := "0123456789"

  lemma UpperAt(k: nat)
    ensures k < 26 ==> UPPER_LETTERS[k] as int == 65 + k
  {
  }

  lemma LowerAt(k: nat)
    ensures k < 26 ==> LOWER_LETTERS[k] as int == 97 + k
  {
  }

  lemma DigitAt(k: nat)
    ensures k < 10 ==> TEN_DIGITS[k] as int == 48 + k
  {
  }

  /** The 26 capital letters have their small ones, every other character is left. */
  lemma LowerIs(c: char)
    ensures forall k :: 0 <= k < 26 && c == UPPER_LETTERS[k] ==> ToAsciiLower(c) == LOWER_LETTERS[k]
    ensures c !in UPPER_LETTERS ==> ToAsciiLower(c) == c
  {
    forall k | 0 <= k < 26
      ensures UPPER_LETTERS[k] as int == 65 + k && LOWER_LETTERS[k] as int == 97 + k
    {
      UpperAt(k);
      LowerAt(k);
    }
    if 'A' <= c <= 'Z' {
      assert c == UPPER_LETTERS[c as int - 65];
    }
  }
}
