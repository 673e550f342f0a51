/**
 Base64 encoding (src/utils/encoding.rs) against a decoder written from
 sections 3.2, 3.5 and 4 of RFC 4648. The shifts and masks of the source are
 written as division and remainder by powers of two.
 */
module Base64 {
  import opened Strings

  // ----- the alphabet, table 1 of RFC 4648 -----

  function Value(c: char): (r: Option<nat>)
    ensures r.Some? ==> r.value < 64
  {
    if 'A' <= c <= 'Z' then Some((c - 'A') as nat)
    else if 'a' <= c <= 'z' then Some((c - 'a') as nat + 26)
    else if '0' <= c <= '9' then Some((c - '0') as nat + 52)
    else if c == '+' then Some(62)
    else if c == '/' then Some(63)
    else None
  }

  function Char(v: nat): (c: char)
    requires v < 64
    ensures Value(c) == Some(v)
  {
    if v < 26 then 'A' + v as char
    else if v < 52 then 'a' + (v - 26) as char
    else if v < 62 then '0' + (v - 52) as char
    else if v == 62 then '+' else '/'
  }

  /** The 64 characters in their order. */
  lemma AlphabetIs(v: nat)
    requires v < 64
    ensures Char(v) == if v < 26 then UPPER_LETTERS[v] else if v < 52 then LOWER_LETTERS[v - 26]
                       else if v < 62 then TEN_DIGITS[v - 52] else if v == 62 then '+' else '/'
  {
    if v < 26 {
      UpperAt(v);
    } else if v < 52 {
      LowerAt(v - 26);
    } else if v < 62 {
      DigitAt(v - 52);
    }
  }

  // ----- encoding -----

  function ByteOr0(chunk: seq<Byte>, i: nat): Byte {
    if i < |chunk| then chunk[i] else 0
  }

  /** The six bits of a 24-bit group that start `6 * i` bits from its top. */
  function Sextet(triple: nat, i: nat): (v: nat)
    requires triple < 0x100_0000 && i < 4
    ensures v < 64
  {
    if i == 0 then triple / 0x4_0000
    else if i == 1 then triple / 0x1000 % 64
    else if i == 2 then triple / 64 % 64
    else triple % 64
  }

  /** Four characters for one to three bytes, `=` for what is missing. */
  function EncodeChunk(chunk: seq<Byte>): (s: string)
    requires 1 <= |chunk| <= 3
    ensures |s| == 4
  {
    var triple := chunk[0] * 0x1_0000 + ByteOr0(chunk, 1) * 0x100 + ByteOr0(chunk, 2);
    [Char(Sextet(triple, 0)),
     Char(Sextet(triple, 1)),
     if |chunk| > 1 then Char(Sextet(triple, 2)) else '=',
     if |chunk| > 2 then Char(Sextet(triple, 3)) else '=']
  }

  function Encoded(bytes: seq<Byte>): string {
    if bytes == [] then ""
    else if |bytes| <= 3 then EncodeChunk(bytes)
    else EncodeChunk(bytes[..3]) + Encoded(bytes[3..])
  }

  lemma EncodedStep(out: string, bytes: seq<Byte>, at: nat)
    requires at < |bytes|
    ensures var end := if at + 3 <= |bytes| then at + 3 else |bytes|;
            out + Encoded(bytes[at..]) == (out + EncodeChunk(bytes[at..end])) + Encoded(bytes[end..])
  {
    hide EncodeChunk;
    var rest := bytes[at..];
    if |rest| <= 3 {
      assert bytes[at..|bytes|] == rest && bytes[|bytes|..] == [];
      assert out + EncodeChunk(rest) == (out + EncodeChunk(rest)) + "";
    } else {
      assert rest[..3] == bytes[at..at + 3] && rest[3..] == bytes[at + 3..];
    }
  }

  method EncodeBase64(bytes: seq<Byte>) returns (out: string)
    ensures out == Encoded(bytes)
  {
    out := "";
    var at := 0;
    assert bytes[0..] == bytes;
    while at < |bytes|
      invariant 0 <= at <= |bytes|
      invariant out + Encoded(bytes[at..]) == Encoded(bytes)
      decreases |bytes| - at
    {
      var end := if at + 3 <= |bytes| then at + 3 else |bytes|;
      var chunk := bytes[at..end];
      EncodedStep(out, bytes, at);
      out := out + EncodeChunk(chunk);
      at := end;
    }
    assert bytes[at..] == [] && out + "" == out;
  }

  // ----- decoding -----

  /** Four characters of the alphabet are three bytes. */
  function DecodeFull(g: string): Option<seq<Byte>>
    requires |g| == 4
  {
    var (a, b, c, d) := (Value(g[0]), Value(g[1]), Value(g[2]), Value(g[3]));
    if a.None? || b.None? || c.None? || d.None? then None
    else Some([a.value * 4 + b.value / 16, b.value % 16 * 16 + c.value / 4, c.value % 4 * 64 + d.value])
  }

  /** The last group may carry padding; the bits it leaves over have to be zero. */
  function DecodeLast(g: string): Option<seq<Byte>>
    requires |g| == 4
  {
    var (a, b, c) := (Value(g[0]), Value(g[1]), Value(g[2]));
    if g[3] != '=' then DecodeFull(g)
    else if a.None? || b.None? then None
    else if g[2] == '=' then
      if b.value % 16 != 0 then None else Some([a.value * 4 + b.value / 16])
    else if c.None? || c.value % 4 != 0 then None
    else Some([a.value * 4 + b.value / 16, b.value % 16 * 16 + c.value / 4])
  }

  function Decode(s: string): Option<seq<Byte>> {
    if s == "" then Some([])
    else if |s| < 4 then None
    else if |s| == 4 then DecodeLast(s)
    else
      var (first, rest) := (DecodeFull(s[..4]), Decode(s[4..]));
      if first.None? || rest.None? then None else Some(first.value + rest.value)
  }

  // ----- the two are inverse -----

  lemma Div64(x: nat, q: nat, r: nat)
    requires x == q * 64 + r && r < 64
    ensures x / 64 == q && x % 64 == r
  {
  }

  lemma DivDiv(x: nat)
    ensures x / 0x1000 == x / 64 / 64 && x / 0x4_0000 == x / 64 / 64 / 64
  {
  }

  /** The four six-bit fields of three bytes. */
  lemma Fields(b0: Byte, b1: Byte, b2: Byte)
    ensures var t := b0 * 0x1_0000 + b1 * 0x100 + b2;
            && Sextet(t, 0) == b0 / 4
            && Sextet(t, 1) == b0 % 4 * 16 + b1 / 16
            && Sextet(t, 2) == b1 % 16 * 4 + b2 / 64
            && Sextet(t, 3) == b2 % 64
  {
    var t := b0 * 0x1_0000 + b1 * 0x100 + b2;
    var (p, q) := (b0 / 4, b0 % 4 * 16 + b1 / 16);
    var (r, u) := (b1 % 16 * 4 + b2 / 64, b2 % 64);
    var (x, y) := (p * 64 + q, (p * 64 + q) * 64 + r);
    assert t == y * 64 + u;
    Div64(t, y, u);
    Div64(y, x, r);
    Div64(x, p, q);
    DivDiv(t);
  }

  /** The characters of a group in terms of the bytes. */
  lemma ChunkChars(chunk: seq<Byte>)
    requires 1 <= |chunk| <= 3
    ensures var (b0, b1, b2) := (chunk[0], ByteOr0(chunk, 1), ByteOr0(chunk, 2));
            var s := EncodeChunk(chunk);
            && s[0] == Char(b0 / 4)
            && s[1] == Char(b0 % 4 * 16 + b1 / 16)
            && s[2] == (if |chunk| > 1 then Char(b1 % 16 * 4 + b2 / 64) else '=')
            && s[3] == (if |chunk| > 2 then Char(b2 % 64) else '=')
  {
    hide Char, Sextet;
    Fields(chunk[0], ByteOr0(chunk, 1), ByteOr0(chunk, 2));
  }

  /** The bytes of the six-bit fields of three bytes. */
  lemma BytesBack(b0: Byte, b1: Byte, b2: Byte)
    ensures var (f0, f1, f2, f3) := (b0 / 4, b0 % 4 * 16 + b1 / 16, b1 % 16 * 4 + b2 / 64, b2 % 64);
            && f0 * 4 + f1 / 16 == b0 && f1 % 16 * 16 + f2 / 4 == b1 && f2 % 4 * 64 + f3 == b2
            && (b1 == 0 ==> f1 % 16 == 0) && (b2 == 0 ==> f2 % 4 == 0)
  {
    var (f1, f2) := (b0 % 4 * 16 + b1 / 16, b1 % 16 * 4 + b2 / 64);
    assert f1 / 16 == b0 % 4 && f1 % 16 == b1 / 16;
    assert f2 / 4 == b1 % 16 && f2 % 4 == b2 / 64;
  }

  lemma CharsAreNotPadding()
    ensures forall v: nat :: v < 64 ==> Char(v) != '='
    ensures Value('=').None?
  {
  }

  lemma ChunkRoundTrip(chunk: seq<Byte>)
    requires 1 <= |chunk| <= 3
    ensures DecodeLast(EncodeChunk(chunk)) == Some(chunk)
    ensures |chunk| == 3 ==> DecodeFull(EncodeChunk(chunk)) == Some(chunk)
  {
    hide EncodeChunk, Char, Value;
    ChunkChars(chunk);
    CharsAreNotPadding();
    BytesBack(chunk[0], ByteOr0(chunk, 1), ByteOr0(chunk, 2));
    if |chunk| == 1 {
      assert chunk == [chunk[0]];
    } else if |chunk| == 2 {
      assert chunk == [chunk[0], chunk[1]];
    } else {
      assert chunk == [chunk[0], chunk[1], chunk[2]];
    }
  }

  /** Four characters for every started group of three bytes. */
  lemma {:induction false} EncodedLength(bytes: seq<Byte>)
    ensures |Encoded(bytes)| == 4 * ((|bytes| + 2) / 3)
    decreases |bytes|
  {
    hide EncodeChunk;
    if |bytes| > 3 {
      EncodedLength(bytes[3..]);
    }
  }

  /** The decoder inverts the encoder on every byte sequence. */
  lemma {:induction false} DecodeEncoded(bytes: seq<Byte>)
    ensures Decode(Encoded(bytes)) == Some(bytes)
    decreases |bytes|
  {
    hide EncodeChunk, DecodeFull, DecodeLast;
    if bytes == [] {
    } else if |bytes| <= 3 {
      ChunkRoundTrip(bytes);
    } else {
      var s := Encoded(bytes);
      ChunkRoundTrip(bytes[..3]);
      DecodeEncoded(bytes[3..]);
      EncodedLength(bytes[3..]);
      assert s[..4] == EncodeChunk(bytes[..3]) && s[4..] == Encoded(bytes[3..]);
      assert bytes[..3] + bytes[3..] == bytes;
    }
  }

  lemma CharOfValue(c: char)
    ensures Value(c).Some? ==> Char(Value(c).value) == c
  {
  }

  /** The three bytes of four six-bit fields. */
  lemma FieldsBack(a: nat, b: nat, c: nat, d: nat)
    requires a < 64 && b < 64 && c < 64 && d < 64
    ensures var (b0, b1, b2) := (a * 4 + b / 16, b % 16 * 16 + c / 4, c % 4 * 64 + d);
            && b0 / 4 == a && b0 % 4 * 16 + b1 / 16 == b && b1 % 16 * 4 + b2 / 64 == c && b2 % 64 == d
  {
    var (b0, b1, b2) := (a * 4 + b / 16, b % 16 * 16 + c / 4, c % 4 * 64 + d);
    assert b0 / 4 == a && b0 % 4 == b / 16;
    assert b1 / 16 == b % 16 && b1 % 16 == c / 4;
    assert b2 / 64 == c % 4 && b2 % 64 == d;
  }

  lemma SameFour(s: string, t: string)
    requires |s| == 4 && |t| == 4 && s[0] == t[0] && s[1] == t[1] && s[2] == t[2] && s[3] == t[3]
    ensures s == t
  {
  }

  lemma FullRoundTrip(g: string)
    requires |g| == 4 && DecodeFull(g).Some?
    ensures |DecodeFull(g).value| == 3 && EncodeChunk(DecodeFull(g).value) == g
  {
    hide EncodeChunk, Char, Value;
    var bytes := DecodeFull(g).value;
    FieldsBack(Value(g[0]).value, Value(g[1]).value, Value(g[2]).value, Value(g[3]).value);
    ChunkChars(bytes);
    CharOfValue(g[0]);
    CharOfValue(g[1]);
    CharOfValue(g[2]);
    CharOfValue(g[3]);
    SameFour(EncodeChunk(bytes), g);
  }

  lemma PaddedRoundTrip(g: string)
    requires |g| == 4 && g[3] == '=' && DecodeLast(g).Some?
    ensures 1 <= |DecodeLast(g).value| <= 3 && EncodeChunk(DecodeLast(g).value) == g
  {
    hide EncodeChunk, Char, Value;
    var bytes := DecodeLast(g).value;
    FieldsBack(Value(g[0]).value, Value(g[1]).value, if g[2] == '=' then 0 else Value(g[2]).value, 0);
    ChunkChars(bytes);
    CharOfValue(g[0]);
    CharOfValue(g[1]);
    CharOfValue(g[2]);
    SameFour(EncodeChunk(bytes), g);
  }

  lemma GroupRoundTrip(g: string)
    requires |g| == 4 && DecodeLast(g).Some?
    ensures 1 <= |DecodeLast(g).value| <= 3 && EncodeChunk(DecodeLast(g).value) == g
  {
    hide EncodeChunk;
    if g[3] != '=' {
      FullRoundTrip(g);
    } else {
      PaddedRoundTrip(g);
    }
  }

  lemma NonEmpty(s: string)
    requires s != "" && Decode(s).Some?
    ensures Decode(s).value != []
  {
    if |s| == 4 {
      GroupRoundTrip(s);
    } else {
      FullRoundTrip(s[..4]);
    }
  }

  /** What the decoder accepts is exactly what the encoder writes. */
  lemma {:induction false} EncodedDecoded(s: string)
    requires Decode(s).Some?
    ensures Encoded(Decode(s).value) == s
    decreases |s|
  {
    hide EncodeChunk, DecodeFull, DecodeLast;
    if |s| == 4 {
      GroupRoundTrip(s);
    } else if |s| > 4 {
      FullRoundTrip(s[..4]);
      EncodedDecoded(s[4..]);
      var (first, rest) := (DecodeFull(s[..4]).value, Decode(s[4..]).value);
      NonEmpty(s[4..]);
      assert (first + rest)[..3] == first && (first + rest)[3..] == rest;
    }
  }

  lemma ChunkPadding(chunk: seq<Byte>)
    requires 1 <= |chunk| <= 3
    ensures var s := EncodeChunk(chunk);
            s[0] != '=' && s[1] != '=' && (s[2] == '=' <==> |chunk| == 1) && (s[3] == '=' <==> |chunk| <= 2)
  {
    hide EncodeChunk, Char, Value;
    ChunkChars(chunk);
    CharsAreNotPadding();
  }

  /** Padding follows the length: one byte over leaves two pad characters, two bytes leave one. */
  lemma {:induction false} PaddingFollowsLength(bytes: seq<Byte>)
    requires bytes != []
    ensures var s := Encoded(bytes);
            && |s| >= 4
            && (s[|s| - 1] == '=' <==> |bytes| % 3 != 0)
            && (s[|s| - 2] == '=' <==> |bytes| % 3 == 1)
            && forall i :: 0 <= i < |s| - 2 ==> s[i] != '='
    decreases |bytes|
  {
    hide EncodeChunk;
    if |bytes| <= 3 {
      ChunkPadding(bytes);
    } else {
      ChunkPadding(bytes[..3]);
      PaddingFollowsLength(bytes[3..]);
      assert (|bytes| - 3) % 3 == |bytes| % 3;
    }
  }
}
