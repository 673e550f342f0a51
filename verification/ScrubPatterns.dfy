/** The pattern tables of src/security/scrub.rs and the facts about them that the scrubbing proofs rest on. */
module ScrubPatterns {
  import opened Strings

  const PEM_BEGIN := "-----BEGIN "
  const PEM_LINE_SUFFIX := "-----"
  const REDACTED := "[REDACTED]"
  const REDACTED_PEM := "[REDACTED-PEM]"

  const PREFIX_PATTERNS: seq<string> := [
    "sk-", "xoxb-", "xoxp-", "xoxs-", "xoxa-", "xoxe-", "xapp-", "ghp_",
    "github_pat_", "hf_", "glpat-", "ya29.", "AIza", "AKIA", "ASIA", "eyJ",
    "-----BEGIN ", "GOCSPX-", "gho_", "ghu_", "ghs_", "sshpass-",
    "AGE-SECRET-KEY-"
  ]

  const MARKER_PATTERNS: seq<string> := [
    "Authorization: Bearer ", "authorization: bearer ",
    "\"authorization\":\"Bearer ", "\"authorization\":\"bearer ",
    "api_key=", "access_token=", "refresh_token=", "id_token=",
    "\"api_key\":\"", "\"access_token\":\"", "\"refresh_token\":\"",
    "\"id_token\":\"", "\"token\":\"", "\"secret\":\"", "\"password\":\"",
    "\"private_key\":\"", "\"client_secret\":\"", "\"database_url\":\"",
    "password=", "secret=", "DATABASE_URL=", "PRIVATE_KEY=", "SECRET_KEY="
  ]

  predicate IsSecretChar(c: char) {
    IsAsciiAlphanumeric(c) || c == '-' || c == '_' || c == '.' || c == ':' || c == '+' || c == '/' || c == '='
  }

  /** The same class spelled out: ASCII letters, digits and seven signs. */
  predicate IsTokenChar(c: char) {
    'a' <= c <= 'z' || 'A' <= c <= 'Z' || '0' <= c <= '9' || c in "-_.:+/="
  }

  /** The characters of the two redaction marks. */
  predicate IsMarkChar(c: char) {
    c == '[' || c == ']' || c == '-' || c == 'R' || c == 'E' || c == 'D' || c == 'A' || c == 'C' || c == 'T'
    || c == 'P' || c == 'M'
  }

  /** The characters of the redaction marks and of a PEM begin line. */
  predicate IsPemChar(c: char) {
    IsMarkChar(c) || c == 'B' || c == 'G' || c == 'I' || c == 'N' || c == ' '
  }

  /** No redaction mark and no line break can overlap an occurrence of `p`. */
  ghost predicate Inert(p: string) {
    && (forall k :: 0 <= k < |p| ==> p[k] != '[' && p[k] != ']' && p[k] != '\n')
    && (exists k :: 0 <= k < |p| && !IsMarkChar(p[k]))
  }

  /** Wherever `p` overlaps itself, the character after the first copy is a secret character. */
  ghost predicate OverlapIsHot(p: string) {
    forall k {:trigger IsTokenChar(p[k])} :: 0 < k < |p| && p[k - 1] == p[|p| - 1] ==> IsTokenChar(p[k])
  }

  /** What every pattern but the PEM begin marker satisfies. */
  ghost predicate Safe(p: string) {
    && p != ""
    && Inert(p)
    && OverlapIsHot(p)
    && (exists k :: 0 <= k < |p| && !IsPemChar(p[k]))
  }

  /** Where a table entry has a character that occurs in no mark and no PEM begin line. */
  function Witness(p: string): nat {
    if |p| < 2 then 0
    else if p[1] == 'I' then 2
    else if p[1] == 'G' then 4
    else if p[0] == 'A' || p[0] == 'G' then 1
    else if p[0] == 'D' then 6
    else if p[0] == 'P' then 3
    else 0
  }

  lemma SafeBy(p: string)
    requires Witness(p) < |p| && !IsPemChar(p[Witness(p)])
    requires forall j :: 0 <= j < |p| ==> p[j] != '[' && p[j] != ']' && p[j] != '\n'
    requires OverlapIsHot(p)
    ensures Safe(p)
  {
  }

  lemma PemBeginIsInert()
    ensures Inert(PEM_BEGIN)
  {
    assert !IsMarkChar(PEM_BEGIN[5]);
  }

  // The tables, a few rows at a time.

  lemma PrefixRows0To7()
    ensures forall i :: 0 <= i < 8 ==> Safe(PREFIX_PATTERNS[i])
  {
    forall i | 0 <= i < 8 {
      SafeBy(PREFIX_PATTERNS[i]);
    }
  }

  lemma PrefixRows8To13()
    ensures forall i :: 8 <= i < 14 ==> Safe(PREFIX_PATTERNS[i])
  {
    forall i | 8 <= i < 14 {
      SafeBy(PREFIX_PATTERNS[i]);
    }
  }

  lemma PrefixRows14To15()
    ensures forall i :: 14 <= i < 16 ==> Safe(PREFIX_PATTERNS[i])
  {
    forall i | 14 <= i < 16 {
      SafeBy(PREFIX_PATTERNS[i]);
    }
  }

  lemma PrefixRows17To19()
    ensures forall i :: 17 <= i < 20 ==> Safe(PREFIX_PATTERNS[i])
  {
    forall i | 17 <= i < 20 {
      SafeBy(PREFIX_PATTERNS[i]);
    }
  }

  lemma PrefixRows20To22()
    ensures forall i :: 20 <= i < 23 ==> Safe(PREFIX_PATTERNS[i])
  {
    forall i | 20 <= i < 23 {
      SafeBy(PREFIX_PATTERNS[i]);
    }
  }

  lemma MarkerRows0To0()
    ensures forall i :: 0 <= i < 1 ==> Safe(MARKER_PATTERNS[i])
  {
    forall i | 0 <= i < 1 {
      SafeBy(MARKER_PATTERNS[i]);
    }
  }

  lemma MarkerRows1To1()
    ensures forall i :: 1 <= i < 2 ==> Safe(MARKER_PATTERNS[i])
  {
    forall i | 1 <= i < 2 {
      SafeBy(MARKER_PATTERNS[i]);
    }
  }

  lemma MarkerRows2To3()
    ensures forall i :: 2 <= i < 4 ==> Safe(MARKER_PATTERNS[i])
  {
    forall i | 2 <= i < 4 {
      SafeBy(MARKER_PATTERNS[i]);
    }
  }

  lemma MarkerRows4To5()
    ensures forall i :: 4 <= i < 6 ==> Safe(MARKER_PATTERNS[i])
  {
    forall i | 4 <= i < 6 {
      SafeBy(MARKER_PATTERNS[i]);
    }
  }

  lemma MarkerRows6To7()
    ensures forall i :: 6 <= i < 8 ==> Safe(MARKER_PATTERNS[i])
  {
    forall i | 6 <= i < 8 {
      SafeBy(MARKER_PATTERNS[i]);
    }
  }

  lemma MarkerRows8To9()
    ensures forall i :: 8 <= i < 10 ==> Safe(MARKER_PATTERNS[i])
  {
    forall i | 8 <= i < 10 {
      SafeBy(MARKER_PATTERNS[i]);
    }
  }

  lemma MarkerRows10To11()
    ensures forall i :: 10 <= i < 12 ==> Safe(MARKER_PATTERNS[i])
  {
    forall i | 10 <= i < 12 {
      SafeBy(MARKER_PATTERNS[i]);
    }
  }

  lemma MarkerRows12To13()
    ensures forall i :: 12 <= i < 14 ==> Safe(MARKER_PATTERNS[i])
  {
    forall i | 12 <= i < 14 {
      SafeBy(MARKER_PATTERNS[i]);
    }
  }

  lemma MarkerRows14To15()
    ensures forall i :: 14 <= i < 16 ==> Safe(MARKER_PATTERNS[i])
  {
    forall i | 14 <= i < 16 {
      SafeBy(MARKER_PATTERNS[i]);
    }
  }

  lemma MarkerRows16To17()
    ensures forall i :: 16 <= i < 18 ==> Safe(MARKER_PATTERNS[i])
  {
    forall i | 16 <= i < 18 {
      SafeBy(MARKER_PATTERNS[i]);
    }
  }

  lemma MarkerRows18To20()
    ensures forall i :: 18 <= i < 21 ==> Safe(MARKER_PATTERNS[i])
  {
    forall i | 18 <= i < 21 {
      SafeBy(MARKER_PATTERNS[i]);
    }
  }

  lemma MarkerRows21To22()
    ensures forall i :: 21 <= i < 23 ==> Safe(MARKER_PATTERNS[i])
  {
    forall i | 21 <= i < 23 {
      SafeBy(MARKER_PATTERNS[i]);
    }
  }

  /** Every table entry the marker passes use is safe. */
  lemma TablesAreSafe()
    ensures forall p :: p in PREFIX_PATTERNS && p != PEM_BEGIN ==> Safe(p)
    ensures forall p :: p in MARKER_PATTERNS ==> Safe(p)
  {
    PrefixRows0To7();
    PrefixRows8To13();
    PrefixRows14To15();
    PrefixRows17To19();
    PrefixRows20To22();
    MarkerRows0To0();
    MarkerRows1To1();
    MarkerRows2To3();
    MarkerRows4To5();
    MarkerRows6To7();
    MarkerRows8To9();
    MarkerRows10To11();
    MarkerRows12To13();
    MarkerRows14To15();
    MarkerRows16To17();
    MarkerRows18To20();
    MarkerRows21To22();
    assert forall i :: 0 <= i < |PREFIX_PATTERNS| && i != 16 ==> Safe(PREFIX_PATTERNS[i]);
    assert forall i :: 0 <= i < |MARKER_PATTERNS| ==> Safe(MARKER_PATTERNS[i]);
  }
}
