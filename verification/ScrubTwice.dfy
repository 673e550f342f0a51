/** Conditions on the input, and on the result, under which a second scrub changes nothing. */
module ScrubsTwice {
  import opened Strings
  import opened ScrubPatterns
  import opened Scrub
  import opened ScrubPipeline

  // ----- at most one begin marker -----

  ghost predicate AtMostOne(s: string, p: string) {
    forall i, j :: OccursAt(s, p, i) && OccursAt(s, p, j) ==> i == j
  }

  lemma SpliceKeepsAtMostOne(s: string, start: nat, end: nat, r: string, p: string)
    requires start <= end <= |s| && IsMark(r) && Inert(p) && AtMostOne(s, p)
    ensures AtMostOne(Splice(s, start, end, r), p)
  {
    hide OccursAt;
    assert p != "";
    var t := Splice(s, start, end, r);
    forall i, j | OccursAt(t, p, i) && OccursAt(t, p, j)
      ensures i == j
    {
      OccursBeforeSplice(s, start, end, r, p, i);
      OccursBeforeSplice(s, start, end, r, p, j);
    }
  }

  lemma {:induction false} PassKeepsAtMostOne(pass: Pass, s: string, from: nat, p: string)
    requires pass.Valid() && from <= |s| && Inert(p) && AtMostOne(s, p)
    ensures AtMostOne(PassFrom(pass, s, from), p)
    decreases |s| - from
  {
    hide NextStep, AtMostOne, Inert;
    match NextStep(pass, s, from)
    case Stop =>
    case Skip(next) => PassKeepsAtMostOne(pass, s, next, p);
    case Redact(start, end) =>
      SpliceKeepsAtMostOne(s, start, end, pass.Mark(), p);
      PassKeepsAtMostOne(pass, Splice(s, start, end, pass.Mark()), start + |pass.Mark()|, p);
  }

  lemma {:induction false} RunKeepsAtMostOne(s: string, patterns: seq<string>, p: string)
    requires SafeTable(patterns) && Inert(p) && AtMostOne(s, p)
    ensures AtMostOne(RunPasses(s, patterns), p)
    decreases |patterns|
  {
    hide PassFrom, AtMostOne, Inert;
    if patterns != [] {
      if patterns[0] == PEM_BEGIN {
        RunKeepsAtMostOne(s, patterns[1..], p);
      } else {
        PassKeepsAtMostOne(Marker(patterns[0]), s, 0, p);
        RunKeepsAtMostOne(PassFrom(Marker(patterns[0]), s, 0), patterns[1..], p);
      }
    }
  }

  lemma NotBeforeStart(s: string, p: string, j: int)
    requires OccursAt(s, p, j)
    ensures j >= 0
  {
  }

  lemma AbsentBehind(s: string, p: string, i: nat, from: nat)
    requires AtMostOne(s, p) && OccursAt(s, p, i) && i < from <= |s|
    ensures Absent(s[from..], p)
  {
    hide OccursAt;
    assert s == s[..from] + s[from..];
    forall j
      ensures !OccursAt(s[from..], p, j)
    {
      if OccursAt(s[from..], p, j) {
        NotBeforeStart(s[from..], p, j);
        OccursRight(s[..from], s[from..], p, j + from);
      }
    }
  }

  lemma AbsentIsStable(s: string)
    requires Absent(s, PEM_BEGIN)
    ensures PemPass(s) == s && Stable(s)
  {
    hide BlockEnd, OccursAt;
    PemUnfold(s);
  }

  lemma OneMarkerIsStable(s: string)
    requires AtMostOne(s, PEM_BEGIN)
    ensures Stable(s)
  {
    hide BlockEnd, OccursAt, PassFrom;
    match NextStep(PemBlocks, s, 0)
    case Stop =>
    case Skip(next) =>
      AbsentBehind(s, PEM_BEGIN, next - |PEM_BEGIN|, next);
      AbsentIsStable(s[next..]);
      assert s == s[..next] + s[next..];
      BlockEndShift(s[..next], s[next..], 0);
    case Redact(start, end) =>
      AbsentBehind(s, PEM_BEGIN, start, end);
      AbsentIsStable(s[end..]);
  }

  /** A text with at most one begin marker, whatever else it holds, is scrubbed for good at once. */
  lemma ScrubTwiceWithOneMarker(s: string)
    requires AtMostOne(s, PEM_BEGIN)
    ensures Scrubbed(Scrubbed(s)) == Scrubbed(s)
  {
    hide RunPasses, AtMostOne, Stable;
    PemBeginIsInert();
    TablesAreSafe();
    RunKeepsAtMostOne(s, PREFIX_PATTERNS, PEM_BEGIN);
    RunKeepsAtMostOne(RunPasses(s, PREFIX_PATTERNS), MARKER_PATTERNS, PEM_BEGIN);
    OneMarkerIsStable(MarkerPasses(s));
    ScrubTwice(s);
  }

  // ----- end lines that name the mark -----

  ghost predicate HoldsMark(kind: string) {
    exists i :: OccursAt(kind, REDACTED_PEM, i)
  }

  /** Some end line of the text is for a kind that a redaction left. */
  ghost predicate NamesMark(s: string) {
    exists kind, i :: HoldsMark(kind) && OccursAt(s, EndMarker(kind), i)
  }

  ghost predicate EndsAfter(s: string, kind: string, from: int) {
    exists j :: j >= from && OccursAt(s, EndMarker(kind), j)
  }

  /** `s`, read right after a begin marker, completes a block of this kind. */
  ghost predicate ClosesAs(s: string, kind: string) {
    && kind != "" && OccursAt(s, kind + PEM_LINE_SUFFIX, 0)
    && (forall j :: 0 <= j < |kind| ==> !OccursAt(s, PEM_LINE_SUFFIX, j))
    && EndsAfter(s, kind, |kind| + 5)
  }

  lemma ClosesAsKind(s: string) returns (kind: string)
    requires Closes(s)
    ensures ClosesAs(s, kind)
  {
    var kindEnd := Find(s, PEM_LINE_SUFFIX, 0).value;
    kind := s[0..kindEnd];
    var endStart := Find(s, "-----END " + kind + "-----", kindEnd + |PEM_LINE_SUFFIX|);
    assert OccursAt(s, EndMarker(kind), endStart.value);
    forall k | 0 <= k < |kind + PEM_LINE_SUFFIX|
      ensures s[0 + k] == (kind + PEM_LINE_SUFFIX)[k]
    {
      if k >= kindEnd {
        assert s[kindEnd + (k - kindEnd)] == PEM_LINE_SUFFIX[k - kindEnd];
      }
    }
  }

  lemma LineEnds(s: string, kind: string)
    requires OccursAt(s, kind + PEM_LINE_SUFFIX, 0)
    ensures OccursAt(s, PEM_LINE_SUFFIX, |kind|)
    ensures forall x :: |kind| <= x < |kind| + 5 ==> s[x] == '-'
  {
    forall x | |kind| <= x < |kind| + 5
      ensures s[x] == '-'
    {
      assert s[0 + x] == (kind + PEM_LINE_SUFFIX)[x];
    }
  }

  lemma KindCloses(s: string, kind: string)
    requires ClosesAs(s, kind)
    ensures Closes(s)
  {
    LineEnds(s, kind);
    forall k | 0 <= k < |kind|
      ensures s[0..|kind|][k] == kind[k]
    {
      assert s[0 + k] == (kind + PEM_LINE_SUFFIX)[k];
    }
    assert s[0..|kind|] == kind;
    FindLater(s, PEM_LINE_SUFFIX, 0, |kind|);
  }

  /** A mark holds one dash. */
  lemma MarkChars(s: string, start: nat)
    requires OccursAt(s, REDACTED_PEM, start)
    ensures start + 14 <= |s| && s[start] == '[' && s[start + 13] == ']'
    ensures s[start + 8] == 'D' && s[start + 10] == 'P'
    ensures forall x :: start <= x < start + 14 && s[x] == '-' ==> x == start + 9
  {
    forall x | start <= x < start + 14
      ensures s[x] == REDACTED_PEM[x - start]
    {
      assert s[start + (x - start)] == REDACTED_PEM[x - start];
    }
  }

  lemma OccursInside(s: string, p: string, i: nat, q: string, from: nat)
    requires i + from + |q| <= |s| && i + |p| <= |s| && from + |q| <= |p|
    requires OccursAt(s, p, i) && OccursAt(s, q, i + from)
    ensures OccursAt(p, q, from)
  {
    forall k | 0 <= k < |q|
      ensures p[from + k] == q[k]
    {
      assert s[i + (from + k)] == p[from + k];
      assert s[(i + from) + k] == q[k];
    }
  }

  /** An inserted mark overlaps the begin line only inside a kind that holds it. */
  lemma KindBeforeMark(s: string, kind: string, start: nat)
    requires OccursAt(s, kind + PEM_LINE_SUFFIX, 0) && OccursAt(s, REDACTED_PEM, start) && start < |kind| + 5
    ensures HoldsMark(kind)
  {
    MarkChars(s, start);
    LineEnds(s, kind);
    assert start < |kind|;
    assert s[|kind|] == '-' && s[|kind| + 1] == '-';
    assert start + 14 <= |kind|;
    OccursInside(s, kind + PEM_LINE_SUFFIX, 0, REDACTED_PEM, start);
    OccursLeft(kind, PEM_LINE_SUFFIX, REDACTED_PEM, start);
  }

  lemma OccursInKind(kind: string, from: nat)
    requires OccursAt(EndMarker(kind), REDACTED_PEM, 9 + from) && from + 14 <= |kind|
    ensures OccursAt(kind, REDACTED_PEM, from)
  {
    assert EndMarker(kind) == "-----END " + (kind + "-----");
    OccursRight("-----END ", kind + "-----", REDACTED_PEM, 9 + from);
    OccursLeft(kind, "-----", REDACTED_PEM, from);
  }

  lemma EndChars(s: string, kind: string, j: nat)
    requires OccursAt(s, EndMarker(kind), j)
    ensures forall x :: j <= x < j + 9 || j + 9 + |kind| <= x < j + 14 + |kind| ==> s[x] != '[' && s[x] != ']'
    ensures s[j] == '-' && s[j + 1] == '-' && s[j + |kind| + 13] == '-' && s[j + |kind| + 12] == '-'
  {
    var line := EndMarker(kind);
    forall x | 0 <= x < |line|
      ensures s[j + x] == line[x]
    {
    }
    assert s[j + 0] == line[0] && s[j + 1] == line[1];
    assert s[j + (|kind| + 13)] == line[|kind| + 13] && s[j + (|kind| + 12)] == line[|kind| + 12];
    forall x | j <= x < j + 9 || j + 9 + |kind| <= x < j + 14 + |kind|
      ensures s[x] != '[' && s[x] != ']'
    {
      assert s[j + (x - j)] == line[x - j];
    }
  }

  /** So does it with an end line. */
  lemma EndBesideMark(s: string, kind: string, start: nat, j: nat)
    requires OccursAt(s, EndMarker(kind), j) && OccursAt(s, REDACTED_PEM, start)
    requires j < start + 14 && start < j + |EndMarker(kind)|
    ensures HoldsMark(kind)
  {
    MarkChars(s, start);
    EndChars(s, kind, j);
    var last := j + |kind| + 13;
    assert s[j] == '-' && s[j + 1] == '-' && s[last] == '-' && s[last - 1] == '-';
    assert j <= start;
    assert start + 14 <= j + |EndMarker(kind)|;
    assert j + 9 <= start;
    assert start + 14 <= j + 9 + |kind|;
    OccursInside(s, EndMarker(kind), j, REDACTED_PEM, start - j);
    OccursInKind(kind, start - j - 9);
  }

  // ----- a replaced block opens no other one -----

  lemma MarkInSplice(s: string, start: nat, end: nat)
    requires start <= end <= |s|
    ensures OccursAt(Splice(s, start, end, REDACTED_PEM), REDACTED_PEM, start)
  {
    OccursBetween(s[..start], REDACTED_PEM, s[end..]);
  }

  lemma LeftOfMark(s: string, start: nat, end: nat, p: string, i: int)
    requires start <= end <= |s| && i + |p| <= start
    ensures OccursAt(Splice(s, start, end, REDACTED_PEM), p, i) <==> OccursAt(s, p, i)
  {
    assert Splice(s, start, end, REDACTED_PEM) == s[..start] + (REDACTED_PEM + s[end..]);
    assert s == s[..start] + s[start..];
    OccursLeft(s[..start], REDACTED_PEM + s[end..], p, i);
    OccursLeft(s[..start], s[start..], p, i);
  }

  lemma RightOfMark(s: string, start: nat, end: nat, p: string, i: int)
    requires start <= end <= |s| && i >= start + 14
    ensures OccursAt(Splice(s, start, end, REDACTED_PEM), p, i) <==> OccursAt(s, p, i - 14 - start + end)
  {
    assert s == s[..end] + s[end..];
    OccursRight(s[..start] + REDACTED_PEM, s[end..], p, i);
    OccursRight(s[..end], s[end..], p, i - 14 - start + end);
  }

  /** A block that closes only by the mark is named after it. */
  lemma SpliceOpensNoOther(s: string, start: nat, end: nat, kind: string)
    requires start <= end <= |s| && !HoldsMark(kind)
    requires ClosesAs(Splice(s, start, end, REDACTED_PEM), kind)
    ensures ClosesAs(s, kind)
  {
    hide OccursAt, HoldsMark, EndMarker, Splice;
    var t := Splice(s, start, end, REDACTED_PEM);
    MarkInSplice(s, start, end);
    if start < |kind| + 5 {
      KindBeforeMark(t, kind, start);
    }
    LeftOfMark(s, start, end, kind + PEM_LINE_SUFFIX, 0);
    forall j | 0 <= j < |kind|
      ensures !OccursAt(s, PEM_LINE_SUFFIX, j)
    {
      LeftOfMark(s, start, end, PEM_LINE_SUFFIX, j);
    }
    var j :| j >= |kind| + 5 && OccursAt(t, EndMarker(kind), j);
    if j < start + 14 && start < j + |EndMarker(kind)| {
      EndBesideMark(t, kind, start, j);
    }
    if j >= start + 14 {
      RightOfMark(s, start, end, EndMarker(kind), j);
    } else {
      LeftOfMark(s, start, end, EndMarker(kind), j);
    }
  }

  lemma {:induction false} PassOpensNoOther(s: string, from: nat, kind: string)
    requires from <= |s| && !HoldsMark(kind) && ClosesAs(PassFrom(PemBlocks, s, from), kind)
    ensures ClosesAs(s, kind)
    decreases |s| - from
  {
    hide NextStep, HoldsMark, ClosesAs, Splice;
    match NextStep(PemBlocks, s, from)
    case Stop =>
    case Skip(next) => PassOpensNoOther(s, next, kind);
    case Redact(start, end) =>
      PassOpensNoOther(Splice(s, start, end, REDACTED_PEM), start + 14, kind);
      SpliceOpensNoOther(s, start, end, kind);
  }

  /** Text that reads as the end of a block only after its own blocks are gone holds an end line naming the mark. */
  lemma NewlyClosedNamesMark(s: string)
    requires Closes(PemPass(s)) && !Closes(s)
    ensures NamesMark(PemPass(s))
  {
    hide PassFrom, Closes, OccursAt;
    var kind := ClosesAsKind(PemPass(s));
    if !HoldsMark(kind) {
      PassOpensNoOther(s, 0, kind);
      KindCloses(s, kind);
    }
  }

  lemma NamesMarkBehind(a: string, b: string)
    requires NamesMark(b)
    ensures NamesMark(a + b)
  {
    hide EndMarker, HoldsMark;
    var kind, i :| HoldsMark(kind) && OccursAt(b, EndMarker(kind), i);
    OccursRight(a, b, EndMarker(kind), |a| + i);
  }

  lemma SkippedDoesNotClose(s: string)
    requires NextStep(PemBlocks, s, 0).Skip?
    ensures !Closes(s[NextStep(PemBlocks, s, 0).next..])
  {
    hide BlockEnd;
    var next := NextStep(PemBlocks, s, 0).next;
    assert s == s[..next] + s[next..];
    BlockEndShift(s[..next], s[next..], 0);
  }

  lemma {:induction false} UnstableNamesMark(s: string)
    ensures !Stable(s) ==> NamesMark(PemPass(s))
    decreases |s|
  {
    hide NextStep, PassFrom, Closes, NamesMark;
    PemUnfold(s);
    match NextStep(PemBlocks, s, 0)
    case Stop =>
    case Skip(next) =>
      SkippedDoesNotClose(s);
      UnstableNamesMark(s[next..]);
      if Closes(PemPass(s[next..])) {
        NewlyClosedNamesMark(s[next..]);
      }
      if NamesMark(PemPass(s[next..])) {
        NamesMarkBehind(s[..next], PemPass(s[next..]));
      }
    case Redact(start, end) =>
      UnstableNamesMark(s[end..]);
      if NamesMark(PemPass(s[end..])) {
        NamesMarkBehind(s[..start] + REDACTED_PEM, PemPass(s[end..]));
      }
  }

  /** A second scrub changes a text only if an end line of the once-scrubbed text names the mark. */
  lemma ScrubTwiceUnlessMarkNamed(s: string)
    ensures Scrubbed(Scrubbed(s)) == Scrubbed(s) || NamesMark(Scrubbed(s))
  {
    hide MarkerPasses, PassFrom, Stable, NamesMark;
    ScrubTwice(s);
    UnstableNamesMark(MarkerPasses(s));
  }

  const PEM_END := "-----END "

  lemma EndMarkerStarts(s: string, kind: string, i: int)
    requires OccursAt(s, EndMarker(kind), i)
    ensures OccursAt(s, PEM_END, i)
  {
    forall k | 0 <= k < |PEM_END|
      ensures s[i + k] == PEM_END[k]
    {
      assert s[i + k] == EndMarker(kind)[k];
    }
  }

  /** A text without an end line is scrubbed for good at once, however many begin markers it holds. */
  lemma ScrubTwiceWithoutEnd(s: string)
    requires Absent(s, PEM_END)
    ensures Scrubbed(Scrubbed(s)) == Scrubbed(s)
  {
    hide RunPasses, PassFrom, OccursAt;
    TablesAreSafe();
    assert !IsMarkChar(PEM_END[6]);
    RunKeepsAbsent(s, PREFIX_PATTERNS, PEM_END);
    RunKeepsAbsent(RunPasses(s, PREFIX_PATTERNS), MARKER_PATTERNS, PEM_END);
    PassKeepsAbsent(PemBlocks, MarkerPasses(s), 0, PEM_END);
    ScrubTwiceUnlessMarkNamed(s);
    if kind, i :| HoldsMark(kind) && OccursAt(Scrubbed(s), EndMarker(kind), i) {
      EndMarkerStarts(Scrubbed(s), kind, i);
    }
  }
}
