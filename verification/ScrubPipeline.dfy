/** The whole of `scrub_secrets`: what all passes together leave, and when a second scrub changes nothing. */
module ScrubPipeline {
  import opened Strings
  import opened ScrubPatterns
  import opened Scrub

  ghost predicate SafeTable(patterns: seq<string>) {
    forall i :: 0 <= i < |patterns| && patterns[i] != PEM_BEGIN ==> Safe(patterns[i])
  }

  function RunPasses(s: string, patterns: seq<string>): string
    requires SafeTable(patterns)
    decreases |patterns|
  {
    if patterns == [] then s
    else if patterns[0] == PEM_BEGIN then RunPasses(s, patterns[1..])
    else RunPasses(PassFrom(Marker(patterns[0]), s, 0), patterns[1..])
  }

  function MarkerPasses(s: string): string {
    TablesAreSafe();
    RunPasses(RunPasses(s, PREFIX_PATTERNS), MARKER_PATTERNS)
  }

  function PemPass(s: string): string {
    PassFrom(PemBlocks, s, 0)
  }

  function Scrubbed(s: string): string {
    PemPass(MarkerPasses(s))
  }

  predicate NeedsScrubbing(s: string) {
    || (exists p :: p in PREFIX_PATTERNS && Find(s, p, 0).Some?)
    || (exists p :: p in MARKER_PATTERNS && Find(s, p, 0).Some?)
  }

  /** The 45 patterns that have a marker pass of their own. */
  ghost predicate IsMarkerPattern(p: string) {
    (p in PREFIX_PATTERNS || p in MARKER_PATTERNS) && p != PEM_BEGIN
  }

  // ----- no later pass undoes an earlier one -----

  lemma {:induction false} RunKeepsClean(s: string, patterns: seq<string>, p: string)
    requires SafeTable(patterns) && Inert(p) && Clean(s, p)
    ensures Clean(RunPasses(s, patterns), p)
    decreases |patterns|
  {
    hide PassFrom;
    if patterns != [] {
      if patterns[0] == PEM_BEGIN {
        RunKeepsClean(s, patterns[1..], p);
      } else {
        PassKeepsClean(Marker(patterns[0]), s, 0, p);
        RunKeepsClean(PassFrom(Marker(patterns[0]), s, 0), patterns[1..], p);
      }
    }
  }

  lemma {:induction false} RunCleans(s: string, patterns: seq<string>, p: string)
    requires SafeTable(patterns) && p in patterns && p != PEM_BEGIN
    ensures Clean(RunPasses(s, patterns), p)
    decreases |patterns|
  {
    hide PassFrom;
    if patterns[0] == PEM_BEGIN {
      RunCleans(s, patterns[1..], p);
    } else if patterns[0] == p {
      MarkerEstablishesClean(s, p, 0);
      RunKeepsClean(PassFrom(Marker(p), s, 0), patterns[1..], p);
    } else {
      RunCleans(PassFrom(Marker(patterns[0]), s, 0), patterns[1..], p);
    }
  }

  /** After a scrub, no marker pattern is followed by a secret character anywhere. */
  lemma NoTokenSurvives(s: string, p: string)
    requires IsMarkerPattern(p)
    ensures Clean(MarkerPasses(s), p)
    ensures Clean(Scrubbed(s), p)
  {
    hide PassFrom, Clean, Inert;
    TablesAreSafe();
    if p in PREFIX_PATTERNS {
      RunCleans(s, PREFIX_PATTERNS, p);
      RunKeepsClean(RunPasses(s, PREFIX_PATTERNS), MARKER_PATTERNS, p);
    } else {
      RunCleans(RunPasses(s, PREFIX_PATTERNS), MARKER_PATTERNS, p);
    }
    PassKeepsClean(PemBlocks, MarkerPasses(s), 0, p);
  }

  lemma {:induction false} RunLeavesClean(s: string, patterns: seq<string>)
    requires SafeTable(patterns)
    requires forall p :: p in patterns && p != PEM_BEGIN ==> Clean(s, p)
    ensures RunPasses(s, patterns) == s
    decreases |patterns|
  {
    hide PassFrom, Clean;
    if patterns != [] {
      if patterns[0] != PEM_BEGIN {
        MarkerLeavesClean(s, patterns[0], 0);
      }
      RunLeavesClean(s, patterns[1..]);
    }
  }

  lemma MarkerPassesLeaveClean(s: string)
    requires forall p :: IsMarkerPattern(p) ==> Clean(s, p)
    ensures MarkerPasses(s) == s
  {
    hide PassFrom, Clean;
    TablesAreSafe();
    RunLeavesClean(s, PREFIX_PATTERNS);
    RunLeavesClean(s, MARKER_PATTERNS);
  }

  lemma NotFoundIsClean(s: string, p: string)
    requires Find(s, p, 0).None?
    ensures Clean(s, p)
  {
  }

  // ----- line by line -----

  lemma {:induction false} RunLine(a: string, b: string, patterns: seq<string>)
    requires SafeTable(patterns)
    ensures RunPasses(a + "\n" + b, patterns) == RunPasses(a, patterns) + "\n" + RunPasses(b, patterns)
    decreases |patterns|
  {
    hide PassFrom;
    if patterns != [] {
      var m := patterns[0];
      if m == PEM_BEGIN {
        RunLine(a, b, patterns[1..]);
      } else {
        MarkerLine(a, b, m, 0);
        RunLine(PassFrom(Marker(m), a, 0), PassFrom(Marker(m), b, 0), patterns[1..]);
      }
    }
  }

  /** The 45 marker passes scrub a text line by line: no secret found in one line changes another. */
  lemma MarkerPassesWorkByLine(a: string, b: string)
    ensures MarkerPasses(a + "\n" + b) == MarkerPasses(a) + "\n" + MarkerPasses(b)
  {
    hide RunPasses;
    TablesAreSafe();
    RunLine(a, b, PREFIX_PATTERNS);
    RunLine(RunPasses(a, PREFIX_PATTERNS), RunPasses(b, PREFIX_PATTERNS), MARKER_PATTERNS);
  }

  // ----- the PEM pass, one marker at a time -----

  /** The PEM pass from the first begin marker on. */
  lemma PemUnfold(s: string)
    ensures match NextStep(PemBlocks, s, 0)
            case Stop => PemPass(s) == s
            case Skip(next) => PemPass(s) == s[..next] + PemPass(s[next..])
            case Redact(start, end) => PemPass(s) == s[..start] + REDACTED_PEM + PemPass(s[end..])
  {
    hide NextStep;
    match NextStep(PemBlocks, s, 0)
    case Stop =>
    case Skip(next) =>
      assert s == s[..next] + s[next..];
      PassShift(PemBlocks, s[..next], s[next..], 0);
    case Redact(start, end) =>
      PassShift(PemBlocks, s[..start] + REDACTED_PEM, s[end..], 0);
  }

  /** The shortcut for texts without any pattern returns what the passes would. */
  lemma ShortcutIsExact(s: string)
    requires !NeedsScrubbing(s)
    ensures Scrubbed(s) == s
  {
    hide PassFrom, MarkerPasses, Clean;
    forall p | IsMarkerPattern(p)
      ensures Clean(s, p)
    {
      NotFoundIsClean(s, p);
    }
    MarkerPassesLeaveClean(s);
    assert PEM_BEGIN == PREFIX_PATTERNS[16];
    PemUnfold(s);
  }

  /** `r`, read right after a begin marker, completes a PEM block. */
  predicate Closes(r: string) {
    BlockEnd(r, 0).Some?
  }

  /**
   No begin marker that the pass skips reads as the start of a complete block
   once the text after it has been scrubbed.
   */
  predicate Stable(s: string)
    decreases |s|
  {
    match NextStep(PemBlocks, s, 0)
    case Stop => true
    case Skip(next) => !Closes(PemPass(s[next..])) && Stable(s[next..])
    case Redact(start, end) => Stable(s[end..])
  }

  lemma PemStepAfterPrefix(a: string, u: string)
    requires forall j :: 0 <= j < |a| ==> !OccursAt(a + u, PEM_BEGIN, j)
    ensures NextStep(PemBlocks, a + u, 0) == NextStep(PemBlocks, a + u, |a|)
  {
    hide Find, BlockEnd;
    FindLater(a + u, PEM_BEGIN, 0, |a|);
  }

  /** Text in which no begin marker starts only delays the search. */
  lemma PemPassAfterPrefix(a: string, u: string)
    requires forall j :: 0 <= j < |a| ==> !OccursAt(a + u, PEM_BEGIN, j)
    ensures PemPass(a + u) == a + PemPass(u)
  {
    hide NextStep, OccursAt;
    PemStepAfterPrefix(a, u);
    PassShift(PemBlocks, a, u, 0);
  }

  lemma FirstBeginStays(s: string, next: nat, u: string)
    requires next <= |s| && OccursAt(s, PEM_BEGIN, next - |PEM_BEGIN|)
    requires forall j :: 0 <= j < next - |PEM_BEGIN| ==> !OccursAt(s, PEM_BEGIN, j)
    ensures Find(s[..next] + u, PEM_BEGIN, 0) == Some(next - |PEM_BEGIN|)
  {
    var t := s[..next] + u;
    assert s == s[..next] + s[next..];
    forall j | j <= next - |PEM_BEGIN|
      ensures OccursAt(t, PEM_BEGIN, j) <==> OccursAt(s, PEM_BEGIN, j)
    {
      OccursLeft(s[..next], u, PEM_BEGIN, j);
      OccursLeft(s[..next], s[next..], PEM_BEGIN, j);
    }
    FindLater(t, PEM_BEGIN, 0, next - |PEM_BEGIN|);
  }

  /** After a skipped begin marker, a second pass treats that marker by what follows it then. */
  lemma PemSkipTwice(s: string, u: string)
    requires NextStep(PemBlocks, s, 0).Skip?
    ensures var x := s[..NextStep(PemBlocks, s, 0).next];
            if Closes(u) then PemPass(x + u) != x + u else PemPass(x + u) == x + PemPass(u)
  {
    hide BlockEnd, PassFrom;
    var next := NextStep(PemBlocks, s, 0).next;
    var x := s[..next];
    FirstBeginStays(s, next, u);
    BlockEndShift(x, u, 0);
    PemUnfold(x + u);
    if Closes(u) {
      var begin := next - |PEM_BEGIN|;
      assert PemPass(x + u)[begin] == '[';
      assert (x + u)[begin] == s[begin] == PEM_BEGIN[0];
    } else {
      assert (x + u)[..next] == x && (x + u)[next..] == u;
    }
  }

  /** After a replaced block, a second pass looks at nothing before the end of the mark. */
  lemma PemRedactTwice(s: string, u: string)
    requires NextStep(PemBlocks, s, 0).Redact?
    ensures var x := s[..NextStep(PemBlocks, s, 0).start] + REDACTED_PEM;
            PemPass(x + u) == x + PemPass(u)
  {
    hide PassFrom, BlockEnd, Find;
    var start := NextStep(PemBlocks, s, 0).start;
    var a := s[..start];
    PemBeginIsInert();
    forall j | 0 <= j < start + |REDACTED_PEM|
      ensures !OccursAt(a + REDACTED_PEM + u, PEM_BEGIN, j)
    {
      if OccursAt(a + REDACTED_PEM + u, PEM_BEGIN, j) {
        OccursBeforeMark(a, s[start..], REDACTED_PEM, u, PEM_BEGIN, j);
        assert a + s[start..] == s;
        OccursLeft(s, u, PEM_BEGIN, j);
      }
    }
    PemPassAfterPrefix(a + REDACTED_PEM, u);
  }

  lemma CancelPrefix(x: string, u: string, v: string)
    ensures x + u == x + v <==> u == v
  {
    assert (x + u)[|x|..] == u && (x + v)[|x|..] == v;
  }

  /** The exact texts on which the PEM pass is idempotent. */
  lemma {:induction false} PemPassTwice(s: string)
    ensures PemPass(PemPass(s)) == PemPass(s) <==> Stable(s)
    decreases |s|
  {
    hide NextStep, PassFrom, Closes;
    PemUnfold(s);
    match NextStep(PemBlocks, s, 0)
    case Stop =>
    case Skip(next) =>
      PemPassTwice(s[next..]);
      var u := PemPass(s[next..]);
      PemSkipTwice(s, u);
      CancelPrefix(s[..next], u, PemPass(u));
    case Redact(start, end) =>
      PemPassTwice(s[end..]);
      var u := PemPass(s[end..]);
      PemRedactTwice(s, u);
      CancelPrefix(s[..start] + REDACTED_PEM, u, PemPass(u));
  }

  // ----- a complete PEM block -----

  function EndMarker(kind: string): string {
    "-----END " + kind + "-----"
  }

  /** The text of a block after its begin marker, and what follows the block. */
  function BlockText(kind: string, body: string, rest: string): string {
    kind + "-----" + body + EndMarker(kind) + rest
  }

  /** The begin line ends at its first dashes, and the body holds no matching end line. */
  ghost predicate CompleteBlock(kind: string, body: string, rest: string) {
    var s := BlockText(kind, body, rest);
    && kind != ""
    && (forall j :: 0 <= j < |kind| ==> !OccursAt(s, "-----", j))
    && (forall j :: |kind| + 5 <= j < |kind| + 5 + |body| ==> !OccursAt(s, EndMarker(kind), j))
  }

  lemma BlockEndIs(kind: string, body: string, rest: string)
    requires CompleteBlock(kind, body, rest)
    ensures var s := BlockText(kind, body, rest);
            BlockEnd(s, 0) == Some(SkipLineBreak(s, |s| - |rest|))
  {
    hide OccursAt, SkipLineBreak;
    var s := BlockText(kind, body, rest);
    var head := kind + PEM_LINE_SUFFIX + body;
    assert s == kind + PEM_LINE_SUFFIX + (body + EndMarker(kind) + rest);
    OccursBetween(kind, PEM_LINE_SUFFIX, body + EndMarker(kind) + rest);
    FindLater(s, PEM_LINE_SUFFIX, 0, |kind|);
    assert s[0..|kind|] == kind;
    OccursBetween(head, EndMarker(kind), rest);
    FindLater(s, EndMarker(kind), |kind| + 5, |head|);
  }

  lemma OccurrenceIs(s: string, p: string, i: nat)
    requires OccursAt(s, p, i)
    ensures s[i..i + |p|] == p
  {
  }

  lemma OccurrenceFits(s: string, p: string, i: int)
    requires OccursAt(s, p, i)
    ensures 0 <= i && i + |p| <= |s|
  {
  }

  lemma BlockTextIs(s: string, kindEnd: nat, endStart: nat)
    requires kindEnd + 5 <= endStart <= |s|
    requires OccursAt(s, PEM_LINE_SUFFIX, kindEnd) && OccursAt(s, EndMarker(s[..kindEnd]), endStart)
    ensures var endLine := EndMarker(s[..kindEnd]);
            endStart + |endLine| <= |s|
            && s == BlockText(s[..kindEnd], s[kindEnd + 5..endStart], s[endStart + |endLine|..])
  {
    hide OccursAt, EndMarker;
    var endLine := EndMarker(s[..kindEnd]);
    OccurrenceFits(s, endLine, endStart);
    OccurrenceIs(s, PEM_LINE_SUFFIX, kindEnd);
    OccurrenceIs(s, endLine, endStart);
    assert s[..kindEnd] + s[kindEnd..kindEnd + 5] == s[..kindEnd + 5];
    assert s[..kindEnd + 5] + s[kindEnd + 5..endStart] == s[..endStart];
    assert s[..endStart] + s[endStart..endStart + |endLine|] == s[..endStart + |endLine|];
  }

  lemma BlockBounds(s: string) returns (kindEnd: nat, endStart: nat)
    requires Closes(s)
    ensures 0 < kindEnd && kindEnd + 5 <= endStart <= |s|
    ensures OccursAt(s, PEM_LINE_SUFFIX, kindEnd) && OccursAt(s, EndMarker(s[..kindEnd]), endStart)
    ensures forall j :: 0 <= j < kindEnd ==> !OccursAt(s, PEM_LINE_SUFFIX, j)
    ensures forall j :: kindEnd + 5 <= j < endStart ==> !OccursAt(s, EndMarker(s[..kindEnd]), j)
  {
    kindEnd := Find(s, PEM_LINE_SUFFIX, 0).value;
    assert s[0..kindEnd] == s[..kindEnd];
    endStart := Find(s, EndMarker(s[..kindEnd]), kindEnd + 5).value;
    OccurrenceFits(s, EndMarker(s[..kindEnd]), endStart);
  }

  lemma FoundBlock(s: string) returns (kind: string, body: string, rest: string)
    requires Closes(s)
    ensures CompleteBlock(kind, body, rest) && s == BlockText(kind, body, rest)
  {
    hide OccursAt, BlockText, EndMarker;
    var kindEnd, endStart := BlockBounds(s);
    BlockTextIs(s, kindEnd, endStart);
    kind := s[..kindEnd];
    body := s[kindEnd + 5..endStart];
    rest := s[endStart + |EndMarker(kind)|..];
  }

  lemma BlockCloses(kind: string, body: string, rest: string)
    requires CompleteBlock(kind, body, rest)
    ensures Closes(BlockText(kind, body, rest))
  {
    hide CompleteBlock, BlockText;
    BlockEndIs(kind, body, rest);
  }

  /** A block is found exactly where a kind, a body without its end line, and that end line stand. */
  lemma BlockEndIff(s: string)
    ensures Closes(s)
       <==> exists kind, body, rest :: CompleteBlock(kind, body, rest) && s == BlockText(kind, body, rest)
  {
    hide BlockEnd, CompleteBlock, BlockText, Closes;
    if Closes(s) {
      var kind, body, rest := FoundBlock(s);
    }
    if kind, body, rest :| CompleteBlock(kind, body, rest) && s == BlockText(kind, body, rest) {
      BlockCloses(kind, body, rest);
    }
  }

  lemma BlockTextEnds(kind: string, body: string, rest: string)
    ensures var block := BlockText(kind, body, rest);
            |block| >= |rest| && block == block[..|block| - |rest|] + rest
  {
  }

  lemma BeginIsFound(block: string)
    ensures Find(PEM_BEGIN + block, PEM_BEGIN, 0) == Some(0)
  {
    OccursBetween("", PEM_BEGIN, block);
    assert "" + PEM_BEGIN + block == PEM_BEGIN + block;
  }

  lemma LeadingBlockIsRedacted(kind: string, body: string, rest: string)
    requires CompleteBlock(kind, body, rest)
    ensures PemPass(PEM_BEGIN + BlockText(kind, body, rest))
         == REDACTED_PEM + PemPass(rest[SkipLineBreak(rest, 0)..])
  {
    hide OccursAt, BlockEnd, PassFrom, SkipLineBreak, BlockText;
    var block := BlockText(kind, body, rest);
    BlockEndIs(kind, body, rest);
    BlockTextEnds(kind, body, rest);
    var k := |block| - |rest|;
    SkipLineBreakShift(block[..k], rest, 0);
    var n := SkipLineBreak(rest, 0);
    BlockEndShift(PEM_BEGIN, block, 0);
    BeginIsFound(block);
    PemUnfold(PEM_BEGIN + block);
    assert (PEM_BEGIN + block)[..0] == "";
    assert (PEM_BEGIN + block)[|PEM_BEGIN| + k + n..] == rest[n..];
  }

  /** One line break, or none where none follows. */
  predicate IsLineBreak(br: string, rest: string) {
    br == "\r\n" || br == "\n" || (br == "" && !("\r\n" <= rest) && !("\n" <= rest))
  }

  lemma LineBreakSkipped(br: string, rest: string)
    requires IsLineBreak(br, rest)
    ensures (br + rest)[SkipLineBreak(br + rest, 0)..] == rest
  {
    var s := br + rest;
    assert s[0..] == s;
    if br == "" {
      assert s == rest;
    } else if br == "\n" {
      assert s[0] == '\n';
      assert !("\r\n" <= s) by {
        assert "\r\n"[0] != s[0];
      }
    }
  }

  /** A complete block goes, with one line break after it, and the pass goes on behind it. */
  lemma CompleteBlockIsRedacted(a: string, kind: string, body: string, br: string, rest: string)
    requires CompleteBlock(kind, body, br + rest) && IsLineBreak(br, rest)
    requires forall j :: 0 <= j < |a| ==>
               !OccursAt(a + ("-----BEGIN " + BlockText(kind, body, br + rest)), "-----BEGIN ", j)
    ensures PemPass(a + ("-----BEGIN " + BlockText(kind, body, br + rest))) == a + "[REDACTED-PEM]" + PemPass(rest)
  {
    hide OccursAt, PassFrom, SkipLineBreak, BlockText;
    LeadingBlockIsRedacted(kind, body, br + rest);
    LineBreakSkipped(br, rest);
    PemPassAfterPrefix(a, PEM_BEGIN + BlockText(kind, body, br + rest));
  }

  // ----- scrubbing twice -----

  /** A second scrub can only find PEM blocks. */
  lemma SecondScrub(s: string)
    ensures Scrubbed(Scrubbed(s)) == PemPass(Scrubbed(s))
  {
    hide MarkerPasses, Clean, PassFrom;
    forall p | IsMarkerPattern(p)
      ensures Clean(Scrubbed(s), p)
    {
      NoTokenSurvives(s, p);
    }
    MarkerPassesLeaveClean(Scrubbed(s));
  }

  /**
   The tests ask that a second scrub change nothing. That holds exactly when,
   with the 45 marker passes done, no begin marker that the PEM pass skips
   starts a complete block once the blocks after it are gone.
   */
  lemma ScrubTwice(s: string)
    ensures Scrubbed(Scrubbed(s)) == Scrubbed(s) <==> Stable(MarkerPasses(s))
  {
    SecondScrub(s);
    PemPassTwice(MarkerPasses(s));
  }

  lemma {:induction false} RunKeepsAbsent(s: string, patterns: seq<string>, p: string)
    requires SafeTable(patterns) && Inert(p) && Absent(s, p)
    ensures Absent(RunPasses(s, patterns), p)
    decreases |patterns|
  {
    hide PassFrom;
    if patterns != [] {
      if patterns[0] == PEM_BEGIN {
        RunKeepsAbsent(s, patterns[1..], p);
      } else {
        PassKeepsAbsent(Marker(patterns[0]), s, 0, p);
        RunKeepsAbsent(PassFrom(Marker(patterns[0]), s, 0), patterns[1..], p);
      }
    }
  }

  /** Without a PEM begin marker in the input, the marker passes are all there is, and scrubbing is idempotent. */
  lemma ScrubWithoutPem(s: string)
    requires Absent(s, PEM_BEGIN)
    ensures Scrubbed(s) == MarkerPasses(s)
    ensures Scrubbed(Scrubbed(s)) == Scrubbed(s)
  {
    hide RunPasses;
    PemBeginIsInert();
    TablesAreSafe();
    RunKeepsAbsent(s, PREFIX_PATTERNS, PEM_BEGIN);
    RunKeepsAbsent(RunPasses(s, PREFIX_PATTERNS), MARKER_PATTERNS, PEM_BEGIN);
    assert Stable(MarkerPasses(s));
    ScrubTwice(s);
  }

  // ----- a text that a second scrub changes -----

  const LOOSE_END := "----------END [REDACTED-PEM]-----"

  /** The block "-----BEGIN B----------END B-----" and an end line that names the mark. */
  const INNER := PEM_BEGIN + BlockText("B", "", LOOSE_END)

  /** The same after a begin marker without a kind. */
  const UNSTABLE := PEM_BEGIN + INNER

  lemma PemCharsHoldNoPattern(s: string, p: string)
    requires Safe(p) && forall k :: 0 <= k < |s| ==> IsPemChar(s[k])
    ensures Clean(s, p)
  {
    var k :| 0 <= k < |p| && !IsPemChar(p[k]);
    forall i
      ensures !OccursAt(s, p, i)
    {
      if 0 <= i && i + |p| <= |s| {
        assert s[i + k] != p[k];
      }
    }
  }

  lemma UnstableHoldsNoPattern()
    ensures MarkerPasses(UNSTABLE) == UNSTABLE
  {
    hide MarkerPasses, Clean;
    assert forall k :: 0 <= k < |PEM_BEGIN| ==> IsPemChar(PEM_BEGIN[k]);
    assert forall k :: 0 <= k < |LOOSE_END| ==> IsPemChar(LOOSE_END[k]);
    assert forall k :: 0 <= k < |EndMarker("B")| ==> IsPemChar(EndMarker("B")[k]);
    assert forall k :: 0 <= k < |INNER| ==> IsPemChar(INNER[k]);
    TablesAreSafe();
    forall p | IsMarkerPattern(p)
      ensures Clean(UNSTABLE, p)
    {
      PemCharsHoldNoPattern(UNSTABLE, p);
    }
    MarkerPassesLeaveClean(UNSTABLE);
  }

  lemma LooseEndHoldsNoBlock()
    ensures PemPass(LOOSE_END) == LOOSE_END
  {
    assert forall k :: 0 <= k < |LOOSE_END| ==> LOOSE_END[k] != PEM_BEGIN[5];
    forall i
      ensures !OccursAt(LOOSE_END, PEM_BEGIN, i)
    {
      if 0 <= i && i + |PEM_BEGIN| <= |LOOSE_END| {
        assert LOOSE_END[i + 5] != PEM_BEGIN[5];
      }
    }
    PemUnfold(LOOSE_END);
  }

  lemma InnerIsReplaced()
    ensures PemPass(INNER) == REDACTED_PEM + LOOSE_END
  {
    hide PassFrom, BlockEnd;
    assert CompleteBlock("B", "", LOOSE_END) by {
      assert BlockText("B", "", LOOSE_END)[0] != PEM_LINE_SUFFIX[0];
    }
    LeadingBlockIsRedacted("B", "", LOOSE_END);
    assert LOOSE_END[0..] == LOOSE_END && LOOSE_END[0] == '-';
    LooseEndHoldsNoBlock();
  }

  lemma NotFiveDashes(s: string, j: nat)
    requires |s| > 14 && s[..14] == REDACTED_PEM && j < 14
    ensures !OccursAt(s, PEM_LINE_SUFFIX, j)
  {
    assert s[j] == REDACTED_PEM[j];
    if j == 9 {
      assert s[10] == REDACTED_PEM[10];
      assert s[j + 1] != PEM_LINE_SUFFIX[1];
    } else {
      assert s[j + 0] != PEM_LINE_SUFFIX[0];
    }
  }

  lemma MarkIsKind()
    ensures CompleteBlock(REDACTED_PEM, "", "")
  {
    hide OccursAt;
    var s := BlockText(REDACTED_PEM, "", "");
    forall j | 0 <= j < |REDACTED_PEM|
      ensures !OccursAt(s, PEM_LINE_SUFFIX, j)
    {
      NotFiveDashes(s, j);
    }
  }

  lemma MarkCloses()
    ensures Closes(REDACTED_PEM + LOOSE_END)
  {
    hide BlockEnd, CompleteBlock;
    assert REDACTED_PEM + LOOSE_END == BlockText(REDACTED_PEM, "", "");
    MarkIsKind();
    BlockEndIs(REDACTED_PEM, "", "");
  }

  /** Scrubbing is not idempotent on every text. */
  lemma ScrubTwiceCanDiffer()
    ensures Scrubbed(Scrubbed(UNSTABLE)) != Scrubbed(UNSTABLE)
  {
    hide PassFrom, MarkerPasses;
    UnstableHoldsNoPattern();
    assert UNSTABLE[11..] == INNER;
    assert NextStep(PemBlocks, UNSTABLE, 0) == Skip(11) by {
      BeginIsFound(INNER);
      assert INNER[0] == INNER[1] == INNER[2] == INNER[3] == INNER[4] == '-';
      assert OccursAt(UNSTABLE, PEM_LINE_SUFFIX, 11);
    }
    InnerIsReplaced();
    MarkCloses();
    ScrubTwice(UNSTABLE);
  }
}
