/** The loops of src/security/scrub.rs, which rewrite one text in place. */
module ScrubLoops {
  import opened Strings
  import opened ScrubPatterns
  import opened Scrub
  import opened ScrubPipeline

  method TokenEnd(input: string, from: nat) returns (end: nat)
    requires from <= |input|
    ensures end == SecretRunEnd(input, from)
  {
    end := from;
    for i := from to |input|
      invariant end == i
      invariant SecretRunEnd(input, from) == SecretRunEnd(input, i)
    {
      if IsSecretChar(input[i]) {
        end := i + 1;
      } else {
        break;
      }
    }
  }

  /** One turn of the PEM loop. */
  lemma PemTurn(s: string, from: nat)
    requires from <= |s|
    ensures match Find(s, PEM_BEGIN, from)
            case None => PassFrom(PemBlocks, s, from) == s
            case Some(begin) =>
              var kindStart := begin + |PEM_BEGIN|;
              && kindStart <= |s| && s[begin] == '-'
              && PassFrom(PemBlocks, s, from) ==
                 match BlockEnd(s, kindStart)
                 case None => PassFrom(PemBlocks, s, kindStart)
                 case Some(end) => PassFrom(PemBlocks, Splice(s, begin, end, REDACTED_PEM), begin + |REDACTED_PEM|)
  {
    hide Splice, Find, OccursAt, BlockEnd, PassFrom;
    PassUnfold(PemBlocks, s, from);
    FoundStart(s, PEM_BEGIN, from);
  }

  /** One turn of the loop over a table. */
  lemma RunOne(s: string, patterns: seq<string>, i: nat)
    requires SafeTable(patterns) && i < |patterns|
    ensures RunPasses(s, patterns[i..]) ==
            RunPasses(if patterns[i] == PEM_BEGIN then s else PassFrom(Marker(patterns[i]), s, 0), patterns[i + 1..])
  {
    hide PassFrom;
    assert patterns[i..][1..] == patterns[i + 1..];
  }

  lemma RunNone(s: string, patterns: seq<string>)
    ensures RunPasses(s, patterns[|patterns|..]) == s
  {
  }

  /** The three ways a begin marker is skipped, and the end of the span to replace otherwise. */
  method FindBlockEnd(input: string, kindStart: nat) returns (r: Option<nat>)
    requires kindStart <= |input|
    ensures r == BlockEnd(input, kindStart)
  {
    hide Find;
    var foundKindEnd := Find(input, PEM_LINE_SUFFIX, kindStart);
    if foundKindEnd.None? {
      return None;
    }
    var kindEnd := foundKindEnd.value;
    if kindEnd == kindStart {
      return None;
    }
    var endMarker := "-----END " + input[kindStart..kindEnd] + "-----";
    var foundEnd := Find(input, endMarker, kindEnd + |PEM_LINE_SUFFIX|);
    if foundEnd.None? {
      return None;
    }
    var replaceEnd := foundEnd.value + |endMarker|;
    if "\r\n" <= input[replaceEnd..] {
      replaceEnd := replaceEnd + 2;
    } else if "\n" <= input[replaceEnd..] {
      replaceEnd := replaceEnd + 1;
    }
    return Some(replaceEnd);
  }

  class TextBuffer {
    var text: string

    constructor (input: string)
      ensures text == input
    {
      text := input;
    }

    method ReplaceRange(start: nat, end: nat, mark: string)
      requires start <= end <= |text|
      modifies this
      ensures text == Splice(old(text), start, end, mark)
      ensures forall k :: 0 <= k < start ==> text[k] == old(text)[k]
      ensures mark != "" ==> text[start] == mark[0]
    {
      text := text[..start] + mark + text[end..];
    }

    method ScrubAfterMarker(marker: string) returns (modified: bool)
      requires marker != ""
      modifies this
      ensures text == PassFrom(Marker(marker), old(text), 0)
      ensures !modified ==> text == old(text)
      ensures modified && marker[0] != '[' ==> text != old(text)
    {
      hide PassFrom, NextStep, Find, Splice, SecretRunEnd, OccursAt;
      modified := false;
      var searchFrom: nat := 0;
      ghost var first: nat := 0;
      while true
        invariant searchFrom <= |text|
        invariant PassFrom(Marker(marker), text, searchFrom) == PassFrom(Marker(marker), old(text), 0)
        invariant !modified ==> text == old(text)
        invariant modified ==> first < searchFrom && first < |old(text)|
        invariant modified ==> text[first] == '[' && old(text)[first] == marker[0]
        decreases |text| - searchFrom
      {
        MarkerTurn(text, marker, searchFrom);
        var found := Find(text, marker, searchFrom);
        if found.None? {
          break;
        }
        var start := found.value;
        var contentStart := start + |marker|;
        var end := TokenEnd(text, contentStart);
        if end == contentStart {
          searchFrom := contentStart;
          continue;
        }
        if !modified {
          first := start;
        }
        ReplaceRange(start, end, REDACTED);
        modified := true;
        searchFrom := start + |REDACTED|;
      }
    }

    method ScrubPemBlocks() returns (modified: bool)
      modifies this
      ensures text == PemPass(old(text))
      ensures modified <==> text != old(text)
    {
      hide PassFrom, NextStep, Find, Splice, BlockEnd;
      modified := false;
      var searchFrom: nat := 0;
      ghost var first: nat := 0;
      while true
        invariant searchFrom <= |text|
        invariant PassFrom(PemBlocks, text, searchFrom) == PemPass(old(text))
        invariant !modified ==> text == old(text)
        invariant modified ==> first < searchFrom && first < |old(text)|
        invariant modified ==> text[first] == '[' && old(text)[first] == '-'
        decreases |text| - searchFrom
      {
        PemTurn(text, searchFrom);
        var found := Find(text, PEM_BEGIN, searchFrom);
        if found.None? {
          break;
        }
        var begin := found.value;
        var kindStart := begin + |PEM_BEGIN|;
        var blockEnd := FindBlockEnd(text, kindStart);
        if blockEnd.None? {
          searchFrom := kindStart;
          continue;
        }
        var replaceEnd := blockEnd.value;
        if !modified {
          first := begin;
        }
        ReplaceRange(begin, replaceEnd, REDACTED_PEM);
        modified := true;
        searchFrom := begin + |REDACTED_PEM|;
      }
    }

    /** The loop over the prefix table, which leaves the PEM begin marker to the PEM pass. */
    method ScrubPrefixes(patterns: seq<string>)
      requires SafeTable(patterns)
      modifies this
      ensures text == RunPasses(old(text), patterns)
    {
      hide RunPasses, PassFrom, Inert, OverlapIsHot;
      assert patterns[0..] == patterns;
      for i := 0 to |patterns|
        invariant RunPasses(text, patterns[i..]) == RunPasses(old(text), patterns)
      {
        RunOne(text, patterns, i);
        if patterns[i] == PEM_BEGIN {
          continue;
        }
        var _ := ScrubAfterMarker(patterns[i]);
      }
      RunNone(text, patterns);
    }

    method ScrubMarkers(patterns: seq<string>)
      requires SafeTable(patterns) && PEM_BEGIN !in patterns
      modifies this
      ensures text == RunPasses(old(text), patterns)
    {
      hide RunPasses, PassFrom, Inert, OverlapIsHot;
      assert patterns[0..] == patterns;
      for i := 0 to |patterns|
        invariant RunPasses(text, patterns[i..]) == RunPasses(old(text), patterns)
      {
        RunOne(text, patterns, i);
        var _ := ScrubAfterMarker(patterns[i]);
      }
      RunNone(text, patterns);
    }
  }

  lemma NoBeginAmongMarkers()
    ensures PEM_BEGIN !in MARKER_PATTERNS
  {
    TablesAreSafe();
    assert forall k :: 0 <= k < |PEM_BEGIN| ==> IsPemChar(PEM_BEGIN[k]);
  }

  method ScrubSecrets(input: string) returns (scrubbed: string)
    ensures scrubbed == Scrubbed(input)
  {
    hide RunPasses, PassFrom, Safe, NeedsScrubbing;
    if !NeedsScrubbing(input) {
      ShortcutIsExact(input);
      return input;
    }
    TablesAreSafe();
    NoBeginAmongMarkers();
    var buffer := new TextBuffer(input);
    buffer.ScrubPrefixes(PREFIX_PATTERNS);
    buffer.ScrubMarkers(MARKER_PATTERNS);
    var _ := buffer.ScrubPemBlocks();
    scrubbed := buffer.text;
  }
}
