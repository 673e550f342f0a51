/**
 Secret scrubbing (src/security/scrub.rs): 45 in-place marker passes over one
 text, then a pass over PEM blocks. Each pass is one rewriting loop that moves
 a search position through the text; `PassFrom` says what such a loop leaves.
 */
module Scrub {
  import opened Strings
  import opened ScrubPatterns

  datatype Pass = Marker(pattern: string) | PemBlocks {
    predicate Valid() {
      Marker? ==> pattern != ""
    }

    function Mark(): string {
      if Marker? then REDACTED else REDACTED_PEM
    }
  }

  /** One turn of a loop: stop, resume the search further on, or replace a span by the mark. */
  datatype Step = Stop | Skip(next: nat) | Redact(start: nat, end: nat)

  /** The end of the run of secret characters that starts at `from`. */
  function SecretRunEnd(s: string, from: nat): (end: nat)
    requires from <= |s|
    ensures from <= end <= |s|
    ensures forall k :: from <= k < end ==> IsTokenChar(s[k])
    ensures end < |s| ==> !IsTokenChar(s[end])
    decreases |s| - from
  {
    if from < |s| && IsSecretChar(s[from]) then SecretRunEnd(s, from + 1) else from
  }

  function SkipLineBreak(s: string, i: nat): (r: nat)
    requires i <= |s|
    ensures i <= r <= |s|
  {
    if "\r\n" <= s[i..] then i + 2
    else if "\n" <= s[i..] then i + 1
    else i
  }

  /** The end of a PEM block whose kind starts at `kindStart`, one line break included. */
  function BlockEnd(s: string, kindStart: nat): (r: Option<nat>)
    requires kindStart <= |s|
    ensures r.Some? ==> kindStart < r.value <= |s|
  {
    match Find(s, PEM_LINE_SUFFIX, kindStart)
    case None => None
    case Some(kindEnd) =>
      if kindEnd == kindStart then None else
      var endMarker := "-----END " + s[kindStart..kindEnd] + "-----";
      match Find(s, endMarker, kindEnd + |PEM_LINE_SUFFIX|)
      case None => None
      case Some(endStart) =>
        Some(SkipLineBreak(s, endStart + |endMarker|))
  }

  function NextStep(pass: Pass, s: string, from: nat): (r: Step)
    requires pass.Valid() && from <= |s|
    ensures r.Skip? ==> from < r.next <= |s|
    ensures r.Redact? ==> from <= r.start < r.end <= |s|
  {
    match pass
    case Marker(m) => (
      match Find(s, m, from)
      case None => Stop
      case Some(start) =>
        var end := SecretRunEnd(s, start + |m|);
        if end == start + |m| then Skip(end) else Redact(start, end)
    )
    case PemBlocks => (
      match Find(s, PEM_BEGIN, from)
      case None => Stop
      case Some(begin) =>
        match BlockEnd(s, begin + |PEM_BEGIN|)
        case None => Skip(begin + |PEM_BEGIN|)
        case Some(end) => Redact(begin, end)
    )
  }

  /** `String::replace_range`. */
  function Splice(s: string, start: nat, end: nat, mark: string): (r: string)
    requires start <= end <= |s|
    ensures |r| == |s| - (end - start) + |mark|
  {
    s[..start] + mark + s[end..]
  }

  /** What the loop of `pass` leaves of `s` when it searches from `from` on. */
  function PassFrom(pass: Pass, s: string, from: nat): string
    requires pass.Valid() && from <= |s|
    decreases |s| - from
  {
    match NextStep(pass, s, from)
    case Stop => s
    case Skip(next) => PassFrom(pass, s, next)
    case Redact(start, end) =>
      PassFrom(pass, Splice(s, start, end, pass.Mark()), start + |pass.Mark()|)
  }

  lemma PassUnfold(pass: Pass, s: string, from: nat)
    requires pass.Valid() && from <= |s|
    ensures PassFrom(pass, s, from) ==
            match NextStep(pass, s, from)
            case Stop => s
            case Skip(next) => PassFrom(pass, s, next)
            case Redact(start, end) =>
              PassFrom(pass, Splice(s, start, end, pass.Mark()), start + |pass.Mark()|)
  {
    hide NextStep, Splice;
  }

  lemma FoundStart(s: string, p: string, from: nat)
    requires p != ""
    ensures Find(s, p, from).Some? ==>
              var start := Find(s, p, from).value;
              start + |p| <= |s| && s[start] == p[0]
  {
    hide Find;
    var found := Find(s, p, from);
    if found.Some? {
      var start := found.value;
      assert s[start + 0] == p[0];
    }
  }

  /** One turn of the marker loop. */
  lemma MarkerTurn(s: string, m: string, from: nat)
    requires m != "" && from <= |s|
    ensures match Find(s, m, from)
            case None => PassFrom(Marker(m), s, from) == s
            case Some(start) =>
              && start + |m| <= |s| && s[start] == m[0]
              && var end := SecretRunEnd(s, start + |m|);
                 PassFrom(Marker(m), s, from) ==
                 if end == start + |m| then PassFrom(Marker(m), s, end)
                 else PassFrom(Marker(m), Splice(s, start, end, REDACTED), start + |REDACTED|)
  {
    hide Splice, Find, OccursAt, PassFrom, SecretRunEnd;
    PassUnfold(Marker(m), s, from);
    FoundStart(s, m, from);
  }

  // ----- replacing a span by a mark -----

  /** An occurrence of `p` at `i` that a secret character follows. */
  ghost predicate Hot(s: string, p: string, i: int) {
    OccursAt(s, p, i) && i + |p| < |s| && IsTokenChar(s[i + |p|])
  }

  /** Every occurrence of `p` ends the text or is followed by a non-secret character. */
  ghost predicate Clean(s: string, p: string) {
    forall i :: !Hot(s, p, i)
  }

  ghost predicate IsMark(r: string) {
    r == REDACTED || r == REDACTED_PEM
  }

  /** No occurrence of an inert pattern overlaps a mark. */
  lemma NoTouch(a: string, r: string, b: string, p: string, i: nat)
    requires Inert(p) && IsMark(r)
    requires i < |a| + |r| && |a| < i + |p| <= |a + r + b|
    ensures !OccursAt(a + r + b, p, i)
  {
    var s := a + r + b;
    assert s[|a|] == '[' && s[|a| + |r| - 1] == ']';
    if i <= |a| {
      var k := |a| - i;
      assert s[i + k] != p[k];
    } else if i + |p| >= |a| + |r| {
      var k := |a| + |r| - 1 - i;
      assert s[i + k] != p[k];
    } else {
      var k :| 0 <= k < |p| && !IsMarkChar(p[k]);
      assert s[i + k] == r[i + k - |a|];
      assert s[i + k] != p[k];
    }
  }

  /** Every occurrence of an inert pattern beside a mark was there before the mark was. */
  lemma OccursBeforeMark(a: string, mid: string, r: string, b: string, p: string, i: int)
    requires Inert(p) && IsMark(r) && OccursAt(a + r + b, p, i)
    ensures || (i + |p| <= |a| && OccursAt(a + mid + b, p, i))
            || (i >= |a| + |r| && OccursAt(a + mid + b, p, i - |r| + |mid|))
  {
    if i < |a| + |r| && |a| < i + |p| {
      NoTouch(a, r, b, p, i);
    } else if i + |p| <= |a| {
      assert a + r + b == a + (r + b) && a + mid + b == a + (mid + b);
      OccursLeft(a, r + b, p, i);
      OccursLeft(a, mid + b, p, i);
    } else {
      OccursRight(a + r, b, p, i);
      OccursRight(a + mid, b, p, i - |r| + |mid|);
    }
  }

  lemma OccursBeforeSplice(s: string, start: nat, end: nat, r: string, p: string, i: int)
    requires start <= end <= |s| && IsMark(r) && Inert(p)
    ensures OccursAt(Splice(s, start, end, r), p, i) ==>
              || (i + |p| <= start && OccursAt(s, p, i))
              || (i >= start + |r| && OccursAt(s, p, i - |r| + end - start))
  {
    hide OccursAt;
    assert s == s[..start] + s[start..end] + s[end..];
    if OccursAt(Splice(s, start, end, r), p, i) {
      OccursBeforeMark(s[..start], s[start..end], r, s[end..], p, i);
    }
  }

  /** Nor does the mark put a secret character after an occurrence that had none. */
  lemma HotBeforeSplice(s: string, start: nat, end: nat, r: string, p: string, i: int)
    requires start <= end <= |s| && IsMark(r) && Inert(p)
    ensures Hot(Splice(s, start, end, r), p, i) ==>
              || (i + |p| < start && Hot(s, p, i))
              || (i >= start + |r| && Hot(s, p, i - |r| + end - start))
  {
    OccursBeforeSplice(s, start, end, r, p, i);
    assert Splice(s, start, end, r)[start] == '[';
  }

  // ----- a pass keeps what earlier passes established -----

  lemma {:induction false} PassKeepsClean(pass: Pass, s: string, from: nat, p: string)
    requires pass.Valid() && from <= |s| && Inert(p) && Clean(s, p)
    ensures Clean(PassFrom(pass, s, from), p)
    decreases |s| - from
  {
    hide NextStep;
    match NextStep(pass, s, from)
    case Stop =>
    case Skip(next) => PassKeepsClean(pass, s, next, p);
    case Redact(start, end) =>
      var t := Splice(s, start, end, pass.Mark());
      forall i
        ensures !Hot(t, p, i)
      {
        HotBeforeSplice(s, start, end, pass.Mark(), p, i);
      }
      PassKeepsClean(pass, t, start + |pass.Mark()|, p);
  }

  /** No pass makes an inert pattern appear. */
  lemma {:induction false} PassKeepsAbsent(pass: Pass, s: string, from: nat, p: string)
    requires pass.Valid() && from <= |s| && Inert(p) && Absent(s, p)
    ensures Absent(PassFrom(pass, s, from), p)
    decreases |s| - from
  {
    hide NextStep;
    match NextStep(pass, s, from)
    case Stop =>
    case Skip(next) => PassKeepsAbsent(pass, s, next, p);
    case Redact(start, end) =>
      var t := Splice(s, start, end, pass.Mark());
      forall i
        ensures !OccursAt(t, p, i)
      {
        OccursBeforeSplice(s, start, end, pass.Mark(), p, i);
      }
      PassKeepsAbsent(pass, t, start + |pass.Mark()|, p);
  }

  // ----- a marker pass establishes its own claim -----

  ghost predicate CleanBefore(s: string, p: string, n: int) {
    forall i :: i < n ==> !Hot(s, p, i)
  }

  /** No occurrence overlaps a bare one from the right. */
  lemma OverlapNotFound(s: string, m: string, start: nat, i: nat)
    requires Safe(m) && OccursAt(s, m, start) && SecretRunEnd(s, start + |m|) == start + |m|
    requires start < i < start + |m|
    ensures !OccursAt(s, m, i)
  {
    var c := start + |m|;
    var k := c - i;
    assert s[start + (|m| - 1)] == m[|m| - 1];
    if i + |m| <= |s| {
      if IsTokenChar(m[k]) {
        assert s[i + k] != m[k];
      } else {
        assert s[i + (k - 1)] != m[k - 1];
      }
    }
  }

  lemma StepKeepsCleanBefore(s: string, m: string, from: nat)
    requires Safe(m) && from <= |s| && CleanBefore(s, m, from)
    ensures match NextStep(Marker(m), s, from)
            case Stop => Clean(s, m)
            case Skip(next) => CleanBefore(s, m, next)
            case Redact(start, end) => CleanBefore(Splice(s, start, end, REDACTED), m, start + |REDACTED|)
  {
    match NextStep(Marker(m), s, from)
    case Stop =>
    case Skip(next) =>
      var start := next - |m|;
      forall i | i < next
        ensures !Hot(s, m, i)
      {
        if start < i {
          OverlapNotFound(s, m, start, i);
        }
      }
    case Redact(start, end) =>
      forall i | i < start + |REDACTED|
        ensures !Hot(Splice(s, start, end, REDACTED), m, i)
      {
        HotBeforeSplice(s, start, end, REDACTED, m, i);
      }
  }

  lemma {:induction false} MarkerEstablishesClean(s: string, m: string, from: nat)
    requires Safe(m) && from <= |s| && CleanBefore(s, m, from)
    ensures Clean(PassFrom(Marker(m), s, from), m)
    decreases |s| - from
  {
    hide NextStep;
    StepKeepsCleanBefore(s, m, from);
    match NextStep(Marker(m), s, from)
    case Stop =>
    case Skip(next) => MarkerEstablishesClean(s, m, next);
    case Redact(start, end) =>
      MarkerEstablishesClean(Splice(s, start, end, REDACTED), m, start + |REDACTED|);
  }

  /** A clean text is left as it is. */
  lemma {:induction false} MarkerLeavesClean(s: string, m: string, from: nat)
    requires m != "" && from <= |s| && Clean(s, m)
    ensures PassFrom(Marker(m), s, from) == s
    decreases |s| - from
  {
    match NextStep(Marker(m), s, from)
    case Stop =>
    case Skip(next) => MarkerLeavesClean(s, m, next);
    case Redact(start, end) => assert Hot(s, m, start);
  }

  // ----- a pass from a position on sees only the text from there -----

  lemma SecretRunEndIs(s: string, from: nat, end: nat)
    requires from <= end <= |s|
    requires forall k :: from <= k < end ==> IsTokenChar(s[k])
    requires end < |s| ==> !IsTokenChar(s[end])
    ensures SecretRunEnd(s, from) == end
    decreases end - from
  {
    if from < end {
      SecretRunEndIs(s, from + 1, end);
    }
  }

  lemma SkipLineBreakShift(a: string, b: string, i: nat)
    requires i <= |b|
    ensures SkipLineBreak(a + b, |a| + i) == |a| + SkipLineBreak(b, i)
  {
    assert (a + b)[|a| + i..] == b[i..];
  }

  lemma BlockEndShift(a: string, b: string, kindStart: nat)
    requires kindStart <= |b|
    ensures BlockEnd(a + b, |a| + kindStart) == Shift(BlockEnd(b, kindStart), |a|)
  {
    hide Find, SkipLineBreak;
    FindShift(a, b, PEM_LINE_SUFFIX, kindStart);
    var kindEnd := Find(b, PEM_LINE_SUFFIX, kindStart);
    if kindEnd.Some? && kindEnd.value != kindStart {
      assert (a + b)[|a| + kindStart..|a| + kindEnd.value] == b[kindStart..kindEnd.value];
      var endMarker := "-----END " + b[kindStart..kindEnd.value] + "-----";
      FindShift(a, b, endMarker, kindEnd.value + |PEM_LINE_SUFFIX|);
      var endStart := Find(b, endMarker, kindEnd.value + |PEM_LINE_SUFFIX|);
      if endStart.Some? {
        SkipLineBreakShift(a, b, endStart.value + |endMarker|);
      }
    }
  }

  function ShiftStep(step: Step, n: nat): Step {
    match step
    case Stop => Stop
    case Skip(next) => Skip(n + next)
    case Redact(start, end) => Redact(n + start, n + end)
  }

  lemma MarkerStepShift(m: string, a: string, b: string, from: nat)
    requires m != "" && from <= |b|
    ensures NextStep(Marker(m), a + b, |a| + from) == ShiftStep(NextStep(Marker(m), b, from), |a|)
  {
    hide Find;
    FindShift(a, b, m, from);
    var found := Find(b, m, from);
    if found.Some? {
      var contentStart := found.value + |m|;
      SecretRunEndIs(a + b, |a| + contentStart, |a| + SecretRunEnd(b, contentStart));
    }
  }

  lemma PemStepShift(a: string, b: string, from: nat)
    requires from <= |b|
    ensures NextStep(PemBlocks, a + b, |a| + from) == ShiftStep(NextStep(PemBlocks, b, from), |a|)
  {
    hide Find, BlockEnd;
    FindShift(a, b, PEM_BEGIN, from);
    var found := Find(b, PEM_BEGIN, from);
    if found.Some? {
      BlockEndShift(a, b, found.value + |PEM_BEGIN|);
    }
  }

  lemma SpliceShift(a: string, b: string, start: nat, end: nat, mark: string)
    requires start <= end <= |b|
    ensures Splice(a + b, |a| + start, |a| + end, mark) == a + Splice(b, start, end, mark)
  {
  }

  lemma {:induction false} PassShift(pass: Pass, a: string, b: string, from: nat)
    requires pass.Valid() && from <= |b|
    ensures PassFrom(pass, a + b, |a| + from) == a + PassFrom(pass, b, from)
    decreases |b| - from
  {
    hide NextStep, Splice;
    match pass {
      case Marker(m) => MarkerStepShift(m, a, b, from);
      case PemBlocks => PemStepShift(a, b, from);
    }
    match NextStep(pass, b, from)
    case Stop =>
    case Skip(next) => PassShift(pass, a, b, next);
    case Redact(start, end) =>
      SpliceShift(a, b, start, end, pass.Mark());
      PassShift(pass, a, Splice(b, start, end, pass.Mark()), start + |pass.Mark()|);
  }

  // ----- a marker pass works line by line -----

  /** Left of a line break a search sees the line alone. */
  lemma FindInLine(a: string, b: string, p: string, from: nat)
    requires Inert(p) && from <= |a|
    ensures Find(a, p, from).Some? ==> Find(a + "\n" + b, p, from) == Find(a, p, from)
    ensures Find(a, p, from).None? ==> Find(a + "\n" + b, p, from) == Find(a + "\n" + b, p, |a| + 1)
  {
    var t := a + "\n" + b;
    forall j: nat | j <= |a|
      ensures OccursAt(t, p, j) <==> OccursAt(a, p, j)
    {
      if j + |p| <= |a| {
        assert t == a + ("\n" + b);
        OccursLeft(a, "\n" + b, p, j);
      } else if j + |p| <= |t| {
        assert t[j + (|a| - j)] != p[|a| - j];
      }
    }
    match Find(a, p, from)
    case None => FindLater(t, p, from, |a| + 1);
    case Some(i) => FindLater(t, p, from, i);
  }

  lemma StepInLine(a: string, b: string, m: string, from: nat)
    requires Safe(m) && from <= |a|
    ensures var t := a + "\n" + b;
            var step := NextStep(Marker(m), a, from);
            NextStep(Marker(m), t, from) == if step.Stop? then NextStep(Marker(m), t, |a| + 1) else step
  {
    hide Find;
    FindInLine(a, b, m, from);
    var found := Find(a, m, from);
    if found.Some? {
      var contentStart := found.value + |m|;
      SecretRunEndIs(a + "\n" + b, contentStart, SecretRunEnd(a, contentStart));
    }
  }

  lemma {:induction false} MarkerLine(a: string, b: string, m: string, from: nat)
    requires Safe(m) && from <= |a|
    ensures PassFrom(Marker(m), a + "\n" + b, from) == PassFrom(Marker(m), a, from) + "\n" + PassFrom(Marker(m), b, 0)
    decreases |a| - from
  {
    hide NextStep;
    StepInLine(a, b, m, from);
    match NextStep(Marker(m), a, from)
    case Stop =>
      PassShift(Marker(m), a + "\n", b, 0);
    case Skip(next) => MarkerLine(a, b, m, next);
    case Redact(start, end) =>
      var t := Splice(a, start, end, REDACTED);
      assert Splice(a + "\n" + b, start, end, REDACTED) == t + "\n" + b;
      MarkerLine(t, b, m, start + |REDACTED|);
  }
}
