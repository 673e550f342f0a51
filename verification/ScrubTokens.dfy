/** What a scrub makes of a text with a secret in it, with patterns, characters and marks spelled out. */
module ScrubTokens {
  import opened Strings
  import opened ScrubPatterns
  import opened Scrub
  import opened ScrubPipeline

  // ----- the patterns -----

  /** Key and token prefixes of the providers. */
  predicate IsPrefix(p: string) {
    || p == "sk-" || p == "xoxb-" || p == "xoxp-" || p == "xoxs-" || p == "xoxa-" || p == "xoxe-" || p == "xapp-"
    || p == "ghp_" || p == "gho_" || p == "ghu_" || p == "ghs_" || p == "github_pat_" || p == "glpat-"
    || p == "hf_" || p == "ya29." || p == "AIza" || p == "GOCSPX-" || p == "AKIA" || p == "ASIA" || p == "eyJ"
    || p == "sshpass-" || p == "AGE-SECRET-KEY-"
  }

  /** Headers, query and environment variables, and JSON fields. */
  predicate IsMarker(p: string) {
    || p == "Authorization: Bearer " || p == "authorization: bearer "
    || p == "\"authorization\":\"Bearer " || p == "\"authorization\":\"bearer "
    || p == "api_key=" || p == "access_token=" || p == "refresh_token=" || p == "id_token="
    || p == "password=" || p == "secret=" || p == "DATABASE_URL=" || p == "PRIVATE_KEY=" || p == "SECRET_KEY="
    || p == "\"api_key\":\"" || p == "\"access_token\":\"" || p == "\"refresh_token\":\"" || p == "\"id_token\":\""
    || p == "\"token\":\"" || p == "\"secret\":\"" || p == "\"password\":\"" || p == "\"private_key\":\""
    || p == "\"client_secret\":\"" || p == "\"database_url\":\""
  }

  lemma PrefixesListed(p: string)
    ensures IsPrefix(p) <==> p in PREFIX_PATTERNS && p != "-----BEGIN "
  {
    if IsPrefix(p) {
      var t := PREFIX_PATTERNS;
      assert p in [t[0], t[1], t[2], t[3], t[4], t[5], t[6], t[7], t[8], t[9], t[10], t[11], t[12], t[13], t[14], t[15],
                   t[17], t[18], t[19], t[20], t[21], t[22]];
    }
  }

  lemma MarkerIsListed(p: string)
    requires IsMarker(p)
    ensures p in MARKER_PATTERNS
  {
  }

  lemma ListedIsMarker(p: string)
    requires p in MARKER_PATTERNS
    ensures IsMarker(p)
  {
  }

  lemma MarkersListed(p: string)
    ensures IsMarker(p) <==> p in MARKER_PATTERNS
  {
    hide IsMarker;
    if IsMarker(p) {
      MarkerIsListed(p);
    }
    if p in MARKER_PATTERNS {
      ListedIsMarker(p);
    }
  }

  predicate IsSecretPattern(p: string) {
    IsPrefix(p) || IsMarker(p)
  }

  lemma BeginIsNoMarker()
    ensures !IsMarker("-----BEGIN ")
  {
  }

  lemma PatternsListed(p: string)
    ensures IsSecretPattern(p) <==> IsMarkerPattern(p)
  {
    hide IsPrefix, IsMarker;
    PrefixesListed(p);
    MarkersListed(p);
    assert PEM_BEGIN !in MARKER_PATTERNS by {
      MarkersListed(PEM_BEGIN);
      BeginIsNoMarker();
    }
  }

  // ----- no token survives -----

  /** In a scrubbed text no pattern stands in front of a letter, a digit or one of the seven signs. */
  lemma NoTokenIsLeft(s: string, p: string, i: nat)
    requires IsSecretPattern(p) && OccursAt(Scrubbed(s), p, i) && i + |p| < |Scrubbed(s)|
    ensures !IsTokenChar(Scrubbed(s)[i + |p|])
  {
    hide Scrubbed, IsSecretPattern, IsTokenChar;
    PatternsListed(p);
    NoTokenSurvives(s, p);
    assert !Hot(Scrubbed(s), p, i);
  }

  // ----- what becomes of a token -----

  /** A token behind a pattern, up to the end or to a character that is none of the class. */
  ghost predicate TokenStands(tok: string, b: string) {
    && tok != "" && (forall k :: 0 <= k < |tok| ==> IsTokenChar(tok[k]))
    && (b != "" ==> !IsTokenChar(b[0]))
  }

  /** At no other place a token character follows `q`. */
  ghost predicate OnlyAt(s: string, q: string, i: int) {
    forall j :: Hot(s, q, j) ==> j == i
  }

  lemma TokenIsRun(a: string, p: string, tok: string, b: string)
    requires TokenStands(tok, b)
    ensures var s := a + p + tok + b;
            OccursAt(s, p, |a|) && SecretRunEnd(s, |a| + |p|) == |a| + |p| + |tok|
  {
    hide IsTokenChar;
    var s := a + p + tok + b;
    assert s == a + p + (tok + b);
    OccursBetween(a, p, tok + b);
    forall k | |a| + |p| <= k < |a| + |p| + |tok|
      ensures IsTokenChar(s[k])
    {
      assert s[k] == tok[k - |a| - |p|];
    }
    SecretRunEndIs(s, |a| + |p|, |a| + |p| + |tok|);
  }

  lemma TokenSplice(a: string, p: string, tok: string, b: string)
    ensures var s := a + p + tok + b;
            Splice(s, |a|, |a| + |p| + |tok|, REDACTED) == a + REDACTED + b
  {
    var s := a + p + tok + b;
    assert s[..|a|] == a && s[|a| + |p| + |tok|..] == b;
  }

  lemma InertIsNotEmpty(q: string)
    requires Inert(q)
    ensures q != ""
  {
  }

  /** With the token gone nothing is left for a pattern that had no other. */
  lemma CleanAfterwards(a: string, p: string, tok: string, b: string, q: string)
    requires tok != "" && Inert(q) && OnlyAt(a + p + tok + b, q, |a|)
    ensures Clean(a + REDACTED + b, q)
  {
    hide Hot, Inert;
    var s := a + p + tok + b;
    TokenSplice(a, p, tok, b);
    forall i
      ensures !Hot(a + REDACTED + b, q, i)
    {
      HotBeforeSplice(s, |a|, |a| + |p| + |tok|, REDACTED, q, i);
      InertIsNotEmpty(q);
    }
  }

  lemma SafeIsInert(p: string)
    requires Safe(p)
    ensures Inert(p) && p != ""
  {
  }

  lemma BareHasNoRun(s: string, p: string, i: nat)
    requires OccursAt(s, p, i) && !Hot(s, p, i)
    ensures SecretRunEnd(s, i + |p|) == i + |p|
  {
    hide IsTokenChar;
  }

  lemma FindReaches(s: string, p: string, from: nat, at: nat)
    requires from <= at && OccursAt(s, p, at)
    ensures Find(s, p, from).Some? && Find(s, p, from).value <= at && OccursAt(s, p, Find(s, p, from).value)
  {
  }

  lemma OccurrenceEnds(s: string, p: string, i: int)
    requires OccursAt(s, p, i)
    ensures 0 <= i && i + |p| <= |s|
  {
  }

  /** A bare occurrence before the token is skipped, and not past the token. */
  lemma BareBefore(s: string, p: string, i: nat, at: nat)
    requires Safe(p) && OccursAt(s, p, i) && !Hot(s, p, i) && OccursAt(s, p, at) && i < at
    ensures i + |p| <= at <= |s| && SecretRunEnd(s, i + |p|) == i + |p|
  {
    hide Safe, Hot, OccursAt, IsTokenChar, SecretRunEnd;
    OccurrenceEnds(s, p, at);
    OccurrenceEnds(s, p, i);
    BareHasNoRun(s, p, i);
    if at < i + |p| {
      OverlapNotFound(s, p, i, at);
    }
  }

  lemma TokenIsLong(tok: string, b: string)
    requires TokenStands(tok, b)
    ensures tok != ""
  {
  }

  /** The turn that redacts the token ends the pass. */
  lemma TokenGone(a: string, p: string, tok: string, b: string)
    requires Safe(p) && TokenStands(tok, b) && OnlyAt(a + p + tok + b, p, |a|)
    ensures var s := a + p + tok + b;
            PassFrom(Marker(p), Splice(s, |a|, |a| + |p| + |tok|, REDACTED), |a| + |REDACTED|) == a + REDACTED + b
  {
    hide Safe, Hot, PassFrom, TokenStands, Splice, OnlyAt, Clean, Inert;
    SafeIsInert(p);
    TokenIsLong(tok, b);
    TokenSplice(a, p, tok, b);
    CleanAfterwards(a, p, tok, b, p);
    InertIsNotEmpty(p);
    MarkerLeavesClean(a + REDACTED + b, p, |a| + |REDACTED|);
  }

  lemma NotHotElsewhere(s: string, p: string, i: int, at: int)
    requires OnlyAt(s, p, at) && i != at
    ensures !Hot(s, p, i)
  {
  }

  /** Everything before the only hot occurrence is skipped. */
  lemma {:induction false} SkipsToToken(s: string, p: string, from: nat, at: nat)
    requires Safe(p) && OccursAt(s, p, at) && OnlyAt(s, p, at) && from <= at <= |s|
    ensures PassFrom(Marker(p), s, from) == PassFrom(Marker(p), s, at)
    decreases at - from
  {
    hide Safe, Hot, OnlyAt, OccursAt, Find, PassFrom, Splice, SecretRunEnd, Inert;
    SafeIsInert(p);
    FindReaches(s, p, from, at);
    FindReaches(s, p, at, at);
    MarkerTurn(s, p, from);
    MarkerTurn(s, p, at);
    var i := Find(s, p, from).value;
    if i < at {
      NotHotElsewhere(s, p, i, at);
      BareBefore(s, p, i, at);
      SkipsToToken(s, p, i + |p|, at);
    }
  }

  lemma OneTokenPass(s: string, a: string, p: string, tok: string, b: string)
    requires s == a + p + tok + b && Safe(p) && TokenStands(tok, b) && OnlyAt(s, p, |a|)
    ensures PassFrom(Marker(p), s, 0) == a + REDACTED + b
  {
    hide Safe, Hot, OnlyAt, OccursAt, Find, PassFrom, TokenStands, Splice, SecretRunEnd, Inert;
    SafeIsInert(p);
    TokenIsRun(a, p, tok, b);
    TokenIsLong(tok, b);
    TokenGone(a, p, tok, b);
    SkipsToToken(s, p, 0, |a|);
    FindReaches(s, p, |a|, |a|);
    MarkerTurn(s, p, |a|);
  }

  lemma NowhereIsClean(s: string, q: string)
    requires OnlyAt(s, q, -1)
    ensures Clean(s, q)
  {
  }

  lemma NotBefore(s: string, q: string)
    ensures !Hot(s, q, -1)
  {
  }

  lemma AtMostThere(a: string, p: string, tok: string, b: string, q: string)
    requires Safe(q) && TokenStands(tok, b) && OnlyAt(a + p + tok + b, q, if q == p then |a| else -1)
    ensures Clean(a + REDACTED + b, q)
  {
    hide Safe, Clean, TokenStands;
    SafeIsInert(q);
    TokenIsLong(tok, b);
    assert OnlyAt(a + p + tok + b, q, |a|) by {
      NotBefore(a + p + tok + b, q);
    }
    CleanAfterwards(a, p, tok, b, q);
  }

  /** Of the patterns in a table only `p` has a token behind it, and only at `at`. */
  ghost predicate OneTokenIn(s: string, patterns: seq<string>, p: string, at: int) {
    forall k :: 0 <= k < |patterns| && patterns[k] != PEM_BEGIN ==>
      OnlyAt(s, patterns[k], if patterns[k] == p then at else -1)
  }

  /** Then the table redacts that token, and nothing else. */
  lemma {:induction false} OneTokenRun(a: string, p: string, tok: string, b: string, patterns: seq<string>)
    requires SafeTable(patterns) && p in patterns && p != PEM_BEGIN && TokenStands(tok, b)
    requires OneTokenIn(a + p + tok + b, patterns, p, |a|)
    ensures RunPasses(a + p + tok + b, patterns) == a + REDACTED + b
    decreases |patterns|
  {
    hide PassFrom, OnlyAt, Safe, Clean, TokenStands;
    var s, m, rest := a + p + tok + b, patterns[0], patterns[1..];
    assert OneTokenIn(s, rest, p, |a|) && SafeTable(rest);
    if m == PEM_BEGIN {
      OneTokenRun(a, p, tok, b, rest);
    } else if m == p {
      OneTokenPass(s, a, p, tok, b);
      forall q | q in rest && q != PEM_BEGIN
        ensures Clean(a + REDACTED + b, q)
      {
        AtMostThere(a, p, tok, b, q);
      }
      RunLeavesClean(a + REDACTED + b, rest);
    } else {
      NowhereIsClean(s, m);
      SafeIsInert(m);
      MarkerLeavesClean(s, m, 0);
      OneTokenRun(a, p, tok, b, rest);
    }
  }

  // ----- main results -----

  /** Where token characters follow a pattern: here and nowhere else. */
  ghost predicate OnlySecret(s: string, p: string, at: int) {
    forall q, j :: IsSecretPattern(q) && Hot(s, q, j) ==> q == p && j == at
  }

  lemma TableHasOne(s: string, patterns: seq<string>, p: string, at: int)
    requires OnlySecret(s, p, at)
    requires forall k :: 0 <= k < |patterns| && patterns[k] != PEM_BEGIN ==> IsSecretPattern(patterns[k])
    ensures OneTokenIn(s, patterns, p, at)
    ensures p !in patterns ==> forall q :: q in patterns && q != PEM_BEGIN ==> Clean(s, q)
  {
    hide Hot, IsSecretPattern;
  }

  lemma TablesAreListed()
    ensures forall k :: 0 <= k < |PREFIX_PATTERNS| && PREFIX_PATTERNS[k] != PEM_BEGIN ==>
              IsSecretPattern(PREFIX_PATTERNS[k])
    ensures forall k :: 0 <= k < |MARKER_PATTERNS| ==> IsSecretPattern(MARKER_PATTERNS[k])
  {
    hide IsPrefix, IsMarker;
    forall k | 0 <= k < |PREFIX_PATTERNS| && PREFIX_PATTERNS[k] != PEM_BEGIN
      ensures IsSecretPattern(PREFIX_PATTERNS[k])
    {
      PrefixesListed(PREFIX_PATTERNS[k]);
    }
    forall k | 0 <= k < |MARKER_PATTERNS|
      ensures IsSecretPattern(MARKER_PATTERNS[k])
    {
      MarkersListed(MARKER_PATTERNS[k]);
    }
  }

  lemma NoSecretLeft(a: string, p: string, tok: string, b: string, patterns: seq<string>)
    requires TokenStands(tok, b) && OnlySecret(a + p + tok + b, p, |a|) && SafeTable(patterns)
    requires forall k :: 0 <= k < |patterns| && patterns[k] != PEM_BEGIN ==> IsSecretPattern(patterns[k])
    ensures RunPasses(a + REDACTED + b, patterns) == a + REDACTED + b
  {
    hide Hot, IsSecretPattern, TokenStands, Safe, OnlyAt, RunPasses;
    TableHasOne(a + p + tok + b, patterns, p, |a|);
    forall q | q in patterns && q != PEM_BEGIN
      ensures Clean(a + REDACTED + b, q)
    {
      AtMostThere(a, p, tok, b, q);
    }
    RunLeavesClean(a + REDACTED + b, patterns);
  }

  /**
   A token goes with its pattern, whole and alone: the text on both sides stays.
   The token ends at the first character that is no ASCII letter, no digit and
   none of "-_.:+/=".
   */
  lemma TokenIsRedacted(a: string, p: string, tok: string, b: string)
    requires IsSecretPattern(p) && TokenStands(tok, b) && OnlySecret(a + p + tok + b, p, |a|)
    ensures MarkerPasses(a + p + tok + b) == a + "[REDACTED]" + b
    ensures Scrubbed(a + p + tok + b) == PemPass(a + "[REDACTED]" + b)
    ensures Absent(a + p + tok + b, "-----BEGIN ") ==> Scrubbed(a + p + tok + b) == a + "[REDACTED]" + b
  {
    var s := a + p + tok + b;
    TablesAreSafe();
    TablesAreListed();
    hide IsSecretPattern, TokenStands, OnlySecret, RunPasses, IsPrefix, IsMarker;
    TableHasOne(s, PREFIX_PATTERNS, p, |a|);
    TableHasOne(s, MARKER_PATTERNS, p, |a|);
    PatternsListed(p);
    NoSecretLeft(a, p, tok, b, MARKER_PATTERNS);
    if p in PREFIX_PATTERNS {
      OneTokenRun(a, p, tok, b, PREFIX_PATTERNS);
    } else {
      RunLeavesClean(s, PREFIX_PATTERNS);
      OneTokenRun(a, p, tok, b, MARKER_PATTERNS);
    }
    if Absent(s, "-----BEGIN ") {
      ScrubWithoutPem(s);
    }
  }

  /** Where token characters follow a header and, at its end, a prefix, and nowhere else. */
  ghost predicate OnlyHeaderAndPrefix(s: string, header: string, p: string, at: int) {
    forall q, j :: IsSecretPattern(q) && Hot(s, q, j) ==>
      (q == p && j == at + |header|) || (q == header && j == at)
  }

  predicate EndsValue(c: char) {
    c == ' ' || c == '=' || c == '"'
  }

  lemma MarkerEnd(p: string)
    requires IsMarker(p)
    ensures p != "" && EndsValue(p[|p| - 1])
  {
  }

  lemma PrefixEnd(p: string)
    requires IsPrefix(p)
    ensures p != "" && !EndsValue(p[|p| - 1])
  {
  }

  lemma PrefixIsNoMarker(p: string)
    requires IsPrefix(p)
    ensures !IsMarker(p)
  {
    hide IsPrefix, IsMarker, EndsValue;
    PrefixEnd(p);
    if IsMarker(p) {
      MarkerEnd(p);
    }
  }

  lemma PrefixTableHasOne(s: string, header: string, p: string, at: int)
    requires IsMarker(header) && IsPrefix(p) && OnlyHeaderAndPrefix(s, header, p, at)
    ensures OneTokenIn(s, PREFIX_PATTERNS, p, at + |header|)
  {
    hide Hot, IsPrefix, IsMarker;
    TablesAreListed();
    forall k | 0 <= k < |PREFIX_PATTERNS| && PREFIX_PATTERNS[k] != PEM_BEGIN
      ensures PREFIX_PATTERNS[k] != header
    {
      PrefixesListed(PREFIX_PATTERNS[k]);
      PrefixIsNoMarker(PREFIX_PATTERNS[k]);
    }
  }

  /** With the token gone the header stands in front of a bracket. */
  lemma HeaderIsBare(a: string, header: string, p: string, tok: string, b: string, q: string)
    requires IsMarker(header) && IsPrefix(p) && Safe(q) && IsMarker(q) && TokenStands(tok, b)
    requires OnlyHeaderAndPrefix(a + header + p + tok + b, header, p, |a|)
    ensures Clean(a + header + REDACTED + b, q)
  {
    hide Hot, IsPrefix, IsMarker, Safe, TokenStands;
    var s, start := a + header + p + tok + b, |a + header|;
    SafeIsInert(q);
    PrefixIsNoMarker(p);
    TokenIsLong(tok, b);
    TokenSplice(a + header, p, tok, b);
    forall i
      ensures !Hot(a + header + REDACTED + b, q, i)
    {
      HotBeforeSplice(s, start, start + |p| + |tok|, REDACTED, q, i);
    }
  }

  /** A prefix token behind a header goes first, and then the header stays. */
  lemma HeaderIsKept(a: string, header: string, p: string, tok: string, b: string)
    requires IsMarker(header) && IsPrefix(p) && TokenStands(tok, b)
    requires OnlyHeaderAndPrefix(a + header + p + tok + b, header, p, |a|)
    ensures MarkerPasses(a + header + p + tok + b) == a + header + "[REDACTED]" + b
    ensures Scrubbed(a + header + p + tok + b) == PemPass(a + header + "[REDACTED]" + b)
  {
    TablesAreSafe();
    hide IsPrefix, IsMarker, TokenStands, OnlyHeaderAndPrefix, RunPasses, Safe, Clean;
    PrefixTableHasOne(a + header + p + tok + b, header, p, |a|);
    PrefixesListed(p);
    OneTokenRun(a + header, p, tok, b, PREFIX_PATTERNS);
    forall q | q in MARKER_PATTERNS && q != PEM_BEGIN
      ensures Clean(a + header + REDACTED + b, q)
    {
      MarkersListed(q);
      HeaderIsBare(a, header, p, tok, b, q);
    }
    RunLeavesClean(a + header + REDACTED + b, MARKER_PATTERNS);
  }
}
