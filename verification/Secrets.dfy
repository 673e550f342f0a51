/**
 The secret store of src/security/secrets.rs over an abstract cipher, key
 derivation and UTF-8 decoder. Random values and the outcome of creating the
 key file are inputs; stores on one key path share one `KeyPath`.
 */
module Secrets {
  import opened Strings

  type Bytes = seq<Byte>

  const KEY_LEN := 32
  const NONCE_LEN := 12
  const SALT_LEN := 16

  datatype Crypto = Crypto(
    seal: (Bytes, Bytes, Bytes) -> Bytes,
    open: (Bytes, Bytes, Bytes) -> Option<Bytes>,
    deriveKey: (string, Bytes) -> Bytes,
    fromUtf8: Bytes -> Option<string>,
    fromUtf8Lossy: Bytes -> string)

  /** Opening inverts sealing, sealed text carries a tag, derived keys fit the cipher. */
  ghost predicate Sound(c: Crypto) {
    && (forall k, n, p :: |k| == KEY_LEN && |n| == NONCE_LEN ==> c.open(k, n, c.seal(k, n, p)) == Some(p))
    && (forall k, n, p :: c.seal(k, n, p) != [])
    && (forall pw, s :: |c.deriveKey(pw, s)| == KEY_LEN)
    && (forall b :: c.fromUtf8(b).Some? ==> c.fromUtf8(b).value == c.fromUtf8Lossy(b))
  }

  /** Opening takes at least the tag off, and a UTF-8 text has no more characters than bytes. */
  ghost predicate Shrinking(c: Crypto) {
    && (forall k, n, b :: c.open(k, n, b).Some? ==> |c.open(k, n, b).value| <= |b|)
    && (forall b :: c.fromUtf8(b).Some? ==> |c.fromUtf8(b).value| <= |b|)
  }

  datatype SecretError =
    | KeyFileUnreadable | KeyFileCorrupt | KeyFileNotCreated | KeyHasWrongLength
    | CorruptHex | TooShort | OpenFailed | NotUtf8 | PasswordNeeded | NotPasswordEncrypted

  // ----- hex -----

  function HexDigit(n: nat): char
    requires n < 16
  {
    if n < 10 then '0' + n as char else 'a' + (n - 10) as char
  }

  function HexValue(c: char): (r: Option<nat>)
    ensures r.Some? ==> r.value < 16
  {
    if '0' <= c <= '9' then Some((c - '0') as nat)
    else if 'a' <= c <= 'f' then Some((c - 'a') as nat + 10)
    else if 'A' <= c <= 'F' then Some((c - 'A') as nat + 10)
    else None
  }

  function HexEncode(b: Bytes): (s: string)
    ensures |s| == 2 * |b|
    ensures forall i :: 0 <= i < |s| ==> HexValue(s[i]).Some?
  {
    if b == [] then "" else [HexDigit(b[0] / 16), HexDigit(b[0] % 16)] + HexEncode(b[1..])
  }

  function HexDecode(s: string): Option<Bytes> {
    if s == "" then Some([])
    else if |s| == 1 then None
    else
      var (hi, lo, rest) := (HexValue(s[0]), HexValue(s[1]), HexDecode(s[2..]));
      if hi.None? || lo.None? || rest.None? then None else Some([hi.value * 16 + lo.value] + rest.value)
  }

  lemma HexDigitValue(n: nat)
    requires n < 16
    ensures HexValue(HexDigit(n)) == Some(n)
  {
  }

  lemma {:induction false} HexRoundTrip(b: Bytes)
    ensures HexDecode(HexEncode(b)) == Some(b)
    decreases |b|
  {
    hide HexDigit, HexValue;
    if b != [] {
      HexRoundTrip(b[1..]);
      var s := HexEncode(b);
      var hi, lo := b[0] / 16, b[0] % 16;
      assert s[0] == HexDigit(hi) && s[1] == HexDigit(lo) && s[2..] == HexEncode(b[1..]);
      HexDigitValue(hi);
      HexDigitValue(lo);
      assert hi * 16 + lo == b[0];
      assert [b[0]] + b[1..] == b;
    }
  }

  const HEX_DIGITS: string := "0123456789abcdef"

  lemma HexDigitIs(n: nat)
    requires n < 16
    ensures HexDigit(n) == HEX_DIGITS[n]
  {
  }

  /** Two lower-case digits per byte, the high half first. */
  lemma {:induction false} HexEncodedAt(b: Bytes, i: nat)
    requires i < |b|
    ensures HexEncode(b)[2 * i] == HEX_DIGITS[b[i] / 16] && HexEncode(b)[2 * i + 1] == HEX_DIGITS[b[i] % 16]
    decreases i
  {
    hide HexValue, HexDigit;
    if i == 0 {
      HexDigitIs(b[0] / 16);
      HexDigitIs(b[0] % 16);
    } else {
      HexEncodedAt(b[1..], i - 1);
    }
  }

  function LowerHex(c: char): char {
    if 'A' <= c <= 'F' then (c as int + 32) as char else c
  }

  predicate IsLowerOf(t: string, s: string) {
    |t| == |s| && forall i :: 0 <= i < |s| ==> t[i] == LowerHex(s[i])
  }

  lemma HexValueIff(c: char, n: nat)
    requires n < 16
    ensures HexValue(c) == Some(n) <==> LowerHex(c) == HexDigit(n)
  {
  }

  lemma TailsLower(t: string, s: string)
    requires |t| >= 2 && |s| >= 2
    ensures IsLowerOf(t, s) <==> t[0] == LowerHex(s[0]) && t[1] == LowerHex(s[1]) && IsLowerOf(t[2..], s[2..])
  {
    hide LowerHex;
    if t[0] == LowerHex(s[0]) && t[1] == LowerHex(s[1]) && IsLowerOf(t[2..], s[2..]) {
      forall i | 0 <= i < |s|
        ensures t[i] == LowerHex(s[i])
      {
        if i >= 2 {
          assert t[2..][i - 2] == LowerHex(s[2..][i - 2]);
        }
      }
    }
  }

  lemma HexPairIff(hi: char, lo: char, b: Byte)
    ensures (HexValue(hi).Some? && HexValue(lo).Some? && HexValue(hi).value * 16 + HexValue(lo).value == b)
       <==> LowerHex(hi) == HexDigit(b / 16) && LowerHex(lo) == HexDigit(b % 16)
  {
    hide HexValue, HexDigit, LowerHex;
    HexValueIff(hi, b / 16);
    HexValueIff(lo, b % 16);
  }

  lemma FirstAndRest(first: Byte, rest: Bytes, b: Bytes)
    requires b != []
    ensures [first] + rest == b <==> first == b[0] && rest == b[1..]
  {
    assert b == [b[0]] + b[1..];
    assert ([first] + rest)[0] == first && ([first] + rest)[1..] == rest;
  }

  lemma HexDecodeTurn(s: string)
    requires |s| >= 2
    ensures var (hi, lo, rest) := (HexValue(s[0]), HexValue(s[1]), HexDecode(s[2..]));
            HexDecode(s) == if hi.None? || lo.None? || rest.None? then None
                            else Some([hi.value * 16 + lo.value] + rest.value)
  {
    hide HexValue;
  }

  lemma SomeTail(s: string, b: Bytes)
    requires |s| >= 2 && b != []
    ensures HexDecode(s) == Some(b) <==>
            && HexValue(s[0]).Some? && HexValue(s[1]).Some?
            && HexValue(s[0]).value * 16 + HexValue(s[1]).value == b[0] && HexDecode(s[2..]) == Some(b[1..])
  {
    hide HexValue, HexDecode;
    HexDecodeTurn(s);
    if HexDecode(s).Some? {
      FirstAndRest(HexValue(s[0]).value * 16 + HexValue(s[1]).value, HexDecode(s[2..]).value, b);
    }
  }

  /** A text decodes to the bytes that encode to it, upper case read as lower case, and to nothing else. */
  lemma {:induction false} HexDecodedIff(s: string, b: Bytes)
    ensures HexDecode(s) == Some(b) <==> IsLowerOf(HexEncode(b), s)
    decreases |s|
  {
    hide HexValue, HexDigit, LowerHex;
    var t := HexEncode(b);
    if |s| >= 2 && b != [] {
      var rest, c := s[2..], b[1..];
      HexDecodedIff(rest, c);
      HexPairIff(s[0], s[1], b[0]);
      assert t[2..] == HexEncode(c);
      assert t[0] == HexDigit(b[0] / 16) && t[1] == HexDigit(b[0] % 16);
      TailsLower(t, s);
      SomeTail(s, b);
    }
  }

  lemma HexIsTrimmed(b: Bytes)
    ensures Trim(HexEncode(b)) == HexEncode(b)
  {
    hide Trim;
    var s := HexEncode(b);
    hide HexEncode;
    assert s != "" ==> HexValue(s[0]).Some? && HexValue(s[|s| - 1]).Some?;
    TrimIdentity(s);
  }

  // ----- the key file -----

  datatype KeyFile = NoFile | Unreadable | Text(text: string)

  /** Creation is exclusive; a write that fails half way leaves the file with what was written. */
  datatype Creation = Created | NotCreated | Broken(partial: string)

  function LoadOrCreateKey(f: KeyFile, newKey: Bytes, creation: Creation): (Result<Bytes, SecretError>, KeyFile) {
    match f
    case Text(text) =>
      var key := HexDecode(Trim(text));
      (if key.Some? then Ok(key.value) else Err(KeyFileCorrupt), f)
    case Unreadable => (Err(KeyFileUnreadable), f)
    case NoFile => (
      match creation
      case Created => (Ok(newKey), Text(HexEncode(newKey)))
      case NotCreated => (Err(KeyFileNotCreated), f)
      case Broken(partial) => (Err(KeyFileNotCreated), Text(partial))
    )
  }

  // ----- the store -----

  /** Random bytes one call may draw, and the outcome of creating the key file. */
  datatype Draw = Draw(newKey: Bytes, nonce: Bytes, creation: Creation)

  predicate ValidDraw(d: Draw) {
    |d.newKey| == KEY_LEN && |d.nonce| == NONCE_LEN
  }

  function Encrypt(c: Crypto, enabled: bool, f: KeyFile, plain: Bytes, d: Draw)
    : (Result<string, SecretError>, KeyFile)
  {
    if plain == [] then (Ok(""), f)
    else if !enabled then (Ok(c.fromUtf8Lossy(plain)), f)
    else
      var (key, f') := LoadOrCreateKey(f, d.newKey, d.creation);
      if key.Err? then (Err(key.error), f')
      else if |key.value| != KEY_LEN then (Err(KeyHasWrongLength), f')
      else (Ok("enc2:" + HexEncode(d.nonce + c.seal(key.value, d.nonce, plain))), f')
  }

  function OpenBlob(c: Crypto, key: Bytes, nonce: Bytes, sealed: Bytes): Result<string, SecretError> {
    var plain := c.open(key, nonce, sealed);
    if plain.None? then Err(OpenFailed)
    else
      var text := c.fromUtf8(plain.value);
      if text.None? then Err(NotUtf8) else Ok(text.value)
  }

  /** Works the same on an enabled and on a disabled store; it too creates a missing key file. */
  function Decrypt(c: Crypto, f: KeyFile, value: string, d: Draw): (Result<string, SecretError>, KeyFile) {
    if "enc2:" <= value then
      var blob := HexDecode(value[5..]);
      if blob.None? then (Err(CorruptHex), f)
      else if |blob.value| <= NONCE_LEN then (Err(TooShort), f)
      else
        var (key, f') := LoadOrCreateKey(f, d.newKey, d.creation);
        if key.Err? then (Err(key.error), f')
        else if |key.value| != KEY_LEN then (Err(KeyHasWrongLength), f')
        else (OpenBlob(c, key.value, blob.value[..NONCE_LEN], blob.value[NONCE_LEN..]), f')
    else if "enc3:" <= value then (Err(PasswordNeeded), f)
    else (Ok(value), f)
  }

  function EncryptWithPassword(c: Crypto, plain: Bytes, password: string, salt: Bytes, nonce: Bytes): string {
    if plain == [] then ""
    else "enc3:" + HexEncode(salt + nonce + c.seal(c.deriveKey(password, salt), nonce, plain))
  }

  function DecryptWithPassword(c: Crypto, value: string, password: string): Result<string, SecretError> {
    if !("enc3:" <= value) then Err(NotPasswordEncrypted)
    else
      var blob := HexDecode(value[5..]);
      if blob.None? then Err(CorruptHex)
      else if |blob.value| < SALT_LEN + NONCE_LEN + 1 then Err(TooShort)
      else
        var (salt, rest) := (blob.value[..SALT_LEN], blob.value[SALT_LEN..]);
        OpenBlob(c, c.deriveKey(password, salt), rest[..NONCE_LEN], rest[NONCE_LEN..])
  }

  class KeyPath {
    var file: KeyFile

    constructor (file: KeyFile)
      ensures this.file == file
    {
      this.file := file;
    }
  }

  class SecretStore {
    const crypto: Crypto
    const enabled: bool
    const keyPath: KeyPath

    constructor (crypto: Crypto, enabled: bool, keyPath: KeyPath)
      ensures this.crypto == crypto && this.enabled == enabled && this.keyPath == keyPath
    {
      this.crypto := crypto;
      this.enabled := enabled;
      this.keyPath := keyPath;
    }

    method LoadOrCreate(newKey: Bytes, creation: Creation) returns (key: Result<Bytes, SecretError>)
      modifies keyPath
      ensures (key, keyPath.file) == LoadOrCreateKey(old(keyPath.file), newKey, creation)
    {
      if keyPath.file.Text? {
        var decoded := HexDecode(Trim(keyPath.file.text));
        return if decoded.Some? then Ok(decoded.value) else Err(KeyFileCorrupt);
      }
      if keyPath.file.Unreadable? {
        return Err(KeyFileUnreadable);
      }
      if creation.NotCreated? {
        return Err(KeyFileNotCreated);
      }
      if creation.Broken? {
        keyPath.file := Text(creation.partial);
        return Err(KeyFileNotCreated);
      }
      keyPath.file := Text(HexEncode(newKey));
      return Ok(newKey);
    }

    method EncryptSecret(plain: Bytes, d: Draw) returns (r: Result<string, SecretError>)
      modifies keyPath
      ensures (r, keyPath.file) == Encrypt(crypto, enabled, old(keyPath.file), plain, d)
    {
      if plain == [] {
        return Ok("");
      }
      if !enabled {
        return Ok(crypto.fromUtf8Lossy(plain));
      }
      var key := LoadOrCreate(d.newKey, d.creation);
      if key.Err? {
        return Err(key.error);
      }
      if |key.value| != KEY_LEN {
        return Err(KeyHasWrongLength);
      }
      var blob: Bytes := [];
      blob := blob + d.nonce;
      blob := blob + crypto.seal(key.value, d.nonce, plain);
      assert [] + d.nonce == d.nonce;
      return Ok("enc2:" + HexEncode(blob));
    }

    method DecryptSecret(value: string, d: Draw) returns (r: Result<string, SecretError>)
      modifies keyPath
      ensures (r, keyPath.file) == Decrypt(crypto, old(keyPath.file), value, d)
    {
      if "enc2:" <= value {
        var blob := HexDecode(value[5..]);
        if blob.None? {
          return Err(CorruptHex);
        }
        if |blob.value| <= NONCE_LEN {
          return Err(TooShort);
        }
        var key := LoadOrCreate(d.newKey, d.creation);
        if key.Err? {
          return Err(key.error);
        }
        if |key.value| != KEY_LEN {
          return Err(KeyHasWrongLength);
        }
        return OpenBlob(crypto, key.value, blob.value[..NONCE_LEN], blob.value[NONCE_LEN..]);
      } else if "enc3:" <= value {
        return Err(PasswordNeeded);
      }
      return Ok(value);
    }
  }

  // ----- any calls on one key path -----

  datatype Call =
    | EncryptCall(enabled: bool, plain: Bytes, draw: Draw)
    | DecryptCall(value: string, draw: Draw)

  function Next(c: Crypto, f: KeyFile, call: Call): KeyFile {
    match call
    case EncryptCall(enabled, plain, d) => Encrypt(c, enabled, f, plain, d).1
    case DecryptCall(value, d) => Decrypt(c, f, value, d).1
  }

  function Run(c: Crypto, f: KeyFile, calls: seq<Call>): KeyFile
    decreases |calls|
  {
    if calls == [] then f else Run(c, Next(c, f, calls[0]), calls[1..])
  }

  /** Once the key file exists, no call of any store changes it. */
  lemma {:induction false} KeyFileIsStable(c: Crypto, f: KeyFile, calls: seq<Call>)
    requires f.Text?
    ensures Run(c, f, calls) == f
    decreases |calls|
  {
    if calls != [] {
      hide HexDecode, HexEncode, Trim, OpenBlob;
      assert Next(c, f, calls[0]) == f;
      hide Next;
      KeyFileIsStable(c, f, calls[1..]);
    }
  }

  lemma SealedFormat(c: Crypto, f: KeyFile, plain: Bytes, d: Draw)
    requires ValidDraw(d) && plain != [] && Encrypt(c, true, f, plain, d).0.Ok?
    ensures var (r, f') := Encrypt(c, true, f, plain, d);
            && f'.Text? && HexDecode(Trim(f'.text)).Some?
            && var key := HexDecode(Trim(f'.text)).value;
               |key| == KEY_LEN && r.value == "enc2:" + HexEncode(d.nonce + c.seal(key, d.nonce, plain))
  {
    hide HexDecode, HexEncode, Trim;
    HexRoundTrip(d.newKey);
    HexIsTrimmed(d.newKey);
  }

  lemma PrefixedHex(prefix: string, b: Bytes)
    requires |prefix| == 5
    ensures prefix <= prefix + HexEncode(b) && HexDecode((prefix + HexEncode(b))[5..]) == Some(b)
  {
    HexRoundTrip(b);
    assert (prefix + HexEncode(b))[5..] == HexEncode(b);
  }

  /**
   A stored secret is "enc2:" and the hex of a 12-byte nonce and what the cipher
   made of it, opened with the 32-byte key whose hex is in the key file.
   */
  lemma StoredSecretOpens(c: Crypto, file: string, key: Bytes, nonce: Bytes, sealed: Bytes, d: Draw)
    requires HexDecode(Trim(file)) == Some(key) && |nonce| == 12 && sealed != []
    ensures Decrypt(c, Text(file), "enc2:" + HexEncode(nonce + sealed), d)
         == (if |key| == 32 then OpenBlob(c, key, nonce, sealed) else Err(KeyHasWrongLength), Text(file))
  {
    hide HexDecode, HexEncode, Trim, OpenBlob;
    PrefixedHex("enc2:", nonce + sealed);
    assert (nonce + sealed)[..12] == nonce && (nonce + sealed)[12..] == sealed;
  }

  lemma HexIsNoSpace(c: char)
    ensures HexValue(c).Some? ==> !IsWhitespace(c)
  {
  }

  lemma HexHasBareEnds(b: Bytes)
    ensures BareEnds(HexEncode(b))
  {
    hide IsWhitespace, IsBlank;
    var s := HexEncode(b);
    hide HexEncode;
    TrimmedIsBare(s);
    if s != "" {
      HexIsNoSpace(s[0]);
      HexIsNoSpace(s[|s| - 1]);
    }
  }

  /** A new key is written in hex to the file it creates; an existing file is read with its ends trimmed. */
  lemma KeyIsReadBack(newKey: Bytes, creation: Creation, pre: string, post: string)
    requires Blank(pre) && Blank(post)
    ensures LoadOrCreateKey(NoFile, newKey, Created) == (Ok(newKey), Text(HexEncode(newKey)))
    ensures var file := Text(pre + HexEncode(newKey) + post);
            LoadOrCreateKey(file, newKey, creation) == (Ok(newKey), file)
  {
    hide HexDecode, HexEncode, Trim, Blank;
    HexIsTrimmed(newKey);
    HexRoundTrip(newKey);
    HexHasBareEnds(newKey);
    TrimOf(pre, HexEncode(newKey), post);
  }

  // ----- what goes wrong -----

  /** The text is the hex of these bytes, in small or capital letters. */
  predicate IsHexOf(s: string, b: Bytes) {
    IsLowerOf(HexEncode(b), s)
  }

  ghost predicate IsHex(s: string) {
    exists b :: IsHexOf(s, b)
  }

  ghost predicate IsHexOfLength(s: string, n: nat) {
    exists b :: IsHexOf(s, b) && |b| == n
  }

  lemma IsHexOfUnfold(s: string, b: Bytes)
    ensures IsHexOf(s, b) <==> IsLowerOf(HexEncode(b), s)
  {
  }

  lemma HexRead(s: string)
    ensures HexDecode(s).Some? <==> IsHex(s)
    ensures forall n: nat :: IsHexOfLength(s, n) <==> HexDecode(s).Some? && |HexDecode(s).value| == n
  {
    hide HexDecode, IsHexOf;
    forall b
      ensures HexDecode(s) == Some(b) <==> IsHexOf(s, b)
    {
      HexDecodedIff(s, b);
      IsHexOfUnfold(s, b);
    }
    if HexDecode(s).Some? {
      assert IsHexOf(s, HexDecode(s).value);
    }
  }

  /**
   An enabled store encrypts a secret exactly if the key file holds the hex of 32
   bytes or is missing and can be created. Only a missing file is written to; a
   broken write leaves its part, and that stays.
   */
  lemma EncryptOutcome(c: Crypto, f: KeyFile, plain: Bytes, d: Draw)
    requires ValidDraw(d) && plain != []
    ensures var (r, f') := Encrypt(c, true, f, plain, d);
            && (r.Ok? <==> if f.NoFile? then d.creation.Created? else f.Text? && IsHexOfLength(Trim(f.text), 32))
            && (r == Err(KeyFileUnreadable) <==> f.Unreadable?)
            && (r == Err(KeyFileCorrupt) <==> f.Text? && !IsHex(Trim(f.text)))
            && (r == Err(KeyHasWrongLength) <==> f.Text? && IsHex(Trim(f.text)) && !IsHexOfLength(Trim(f.text), 32))
            && (r == Err(KeyFileNotCreated) <==> f.NoFile? && !d.creation.Created?)
            && (if !f.NoFile? || d.creation.NotCreated? then f' == f
                else f' == Text(if d.creation.Created? then HexEncode(d.newKey) else d.creation.partial))
  {
    hide HexDecode, HexEncode, Trim, IsHex, IsHexOfLength;
    if f.Text? {
      HexRead(Trim(f.text));
    }
  }

  lemma AfterMarker(marker: string, text: string)
    requires |marker| == 5
    ensures marker <= marker + text && (marker + text)[5..] == text
  {
  }

  /** A decryption needs the key as an encryption does, and fails or creates it the same way. */
  lemma DecryptNeedsKey(c: Crypto, f: KeyFile, plain: Bytes, text: string, d: Draw)
    requires IsHex(text) && plain != [] && forall n: nat :: n <= 12 ==> !IsHexOfLength(text, n)
    ensures var (e, f') := Encrypt(c, true, f, plain, d);
            var (r, g') := Decrypt(c, f, "enc2:" + text, d);
            g' == f' && (e.Err? ==> r == Err(e.error))
  {
    hide HexDecode, HexEncode, Trim, IsHex, IsHexOfLength, OpenBlob, LoadOrCreateKey;
    HexRead(text);
    AfterMarker("enc2:", text);
    assert IsHexOfLength(text, |HexDecode(text).value|);
  }

  /** Behind its marker a stored secret is the hex of more than 12 bytes, or refused before the key is looked for. */
  lemma StoredRefusedIff(c: Crypto, f: KeyFile, text: string, d: Draw)
    ensures var (r, f') := Decrypt(c, f, "enc2:" + text, d);
            && (r == Err(CorruptHex) <==> !IsHex(text))
            && (r == Err(TooShort) <==> exists n: nat :: n <= 12 && IsHexOfLength(text, n))
            && (r == Err(CorruptHex) || r == Err(TooShort) ==> f' == f)
  {
    hide HexDecode, HexEncode, Trim, IsHex, IsHexOfLength;
    HexRead(text);
    AfterMarker("enc2:", text);
    if HexDecode(text).Some? {
      assert IsHexOfLength(text, |HexDecode(text).value|);
    }
  }

  /** A password secret is the hex of at least 29 bytes behind its own marker. */
  lemma PasswordRefusedIff(c: Crypto, value: string, text: string, password: string)
    ensures DecryptWithPassword(c, value, password) == Err(NotPasswordEncrypted) <==> !("enc3:" <= value)
    ensures var r := DecryptWithPassword(c, "enc3:" + text, password);
            && (r == Err(CorruptHex) <==> !IsHex(text))
            && (r == Err(TooShort) <==> exists n: nat :: n <= 28 && IsHexOfLength(text, n))
  {
    hide HexDecode, HexEncode, IsHex, IsHexOfLength;
    HexRead(text);
    AfterMarker("enc3:", text);
    if HexDecode(text).Some? {
      assert IsHexOfLength(text, |HexDecode(text).value|);
    }
  }

  /** A ciphertext gives its plaintext exactly if the cipher accepts it and the bytes inside are a text. */
  lemma OpenedIff(c: Crypto, key: Bytes, nonce: Bytes, sealed: Bytes, text: string)
    ensures OpenBlob(c, key, nonce, sealed) == Ok(text)
       <==> exists plain :: c.open(key, nonce, sealed) == Some(plain) && c.fromUtf8(plain) == Some(text)
    ensures OpenBlob(c, key, nonce, sealed) == Err(OpenFailed) <==> c.open(key, nonce, sealed) == None
  {
  }

  /** What opening a secret's ciphertext gives back. */
  function Opened(c: Crypto, plain: Bytes): Result<string, SecretError> {
    if c.fromUtf8(plain).Some? then Ok(c.fromUtf8(plain).value) else Err(NotUtf8)
  }

  /**
   What an enabled store encrypts, any store on the same key path decrypts
   later, whatever calls any stores make in between.
   */
  lemma EncryptThenDecrypt(c: Crypto, f: KeyFile, plain: Bytes, d: Draw, calls: seq<Call>, d': Draw)
    requires Sound(c) && ValidDraw(d) && Encrypt(c, true, f, plain, d).0.Ok?
    ensures var (r, f') := Encrypt(c, true, f, plain, d);
            Decrypt(c, Run(c, f', calls), r.value, d').0 == if plain == [] then Ok("") else Opened(c, plain)
  {
    hide HexDecode, HexEncode, Trim, Run;
    if plain != [] {
      var (r, f') := Encrypt(c, true, f, plain, d);
      SealedFormat(c, f, plain, d);
      KeyFileIsStable(c, f', calls);
      var key := HexDecode(Trim(f'.text)).value;
      var sealed := c.seal(key, d.nonce, plain);
      PrefixedHex("enc2:", d.nonce + sealed);
      assert (d.nonce + sealed)[..NONCE_LEN] == d.nonce && (d.nonce + sealed)[NONCE_LEN..] == sealed;
    }
  }

  /** A value with this marker is taken for a ciphertext: hex of more than a nonce, or an error. */
  predicate ReadsAsCiphertext(value: string) {
    "enc2:" <= value && HexDecode(value[5..]).Some? && |HexDecode(value[5..]).value| > NONCE_LEN
  }

  lemma {:induction false} HexDecodedLength(s: string)
    ensures HexDecode(s).Some? ==> |s| == 2 * |HexDecode(s).value|
    decreases |s|
  {
    hide HexValue;
    if |s| > 1 {
      HexDecodedLength(s[2..]);
    }
  }

  lemma OpenedIsShort(c: Crypto, key: Bytes, nonce: Bytes, sealed: Bytes)
    requires Shrinking(c)
    ensures OpenBlob(c, key, nonce, sealed).Ok? ==> |OpenBlob(c, key, nonce, sealed).value| <= |sealed|
  {
    var plain := c.open(key, nonce, sealed);
    if plain.Some? && c.fromUtf8(plain.value).Some? {
      assert |c.fromUtf8(plain.value).value| <= |plain.value|;
    }
  }

  /** No ciphertext opens to itself: what is inside is shorter. */
  lemma MarkedIsNotReadBack(c: Crypto, f: KeyFile, value: string, d: Draw)
    requires Shrinking(c) && "enc2:" <= value
    ensures Decrypt(c, f, value, d).0 != Ok(value)
  {
    hide HexDecode, HexEncode, Trim, LoadOrCreateKey;
    HexDecodedLength(value[5..]);
    var blob := HexDecode(value[5..]);
    var key := LoadOrCreateKey(f, d.newKey, d.creation).0;
    if blob.Some? && |blob.value| > NONCE_LEN && key.Ok? {
      OpenedIsShort(c, key.value, blob.value[..NONCE_LEN], blob.value[NONCE_LEN..]);
    }
  }

  /**
   A disabled store keeps a secret as its text, and any store reads that text back
   as it is exactly if it carries no marker: one marker asks for a password, the
   other gives an error unless a ciphertext follows it.
   */
  lemma PlainPassesThrough(c: Crypto, f: KeyFile, plain: Bytes, d: Draw, d': Draw)
    requires Sound(c) && Shrinking(c)
    ensures var (r, f') := Encrypt(c, false, f, plain, d);
            && r.Ok? && f' == f
            && (Decrypt(c, f', r.value, d') == (r, f) <==> !("enc2:" <= r.value) && !("enc3:" <= r.value))
            && (plain == [] ==> r.value == "")
            && (plain != [] && c.fromUtf8(plain).Some? ==> r.value == c.fromUtf8(plain).value)
            && ("enc3:" <= r.value ==> Decrypt(c, f', r.value, d') == (Err(PasswordNeeded), f))
            && ("enc2:" <= r.value && !ReadsAsCiphertext(r.value) ==>
                  Decrypt(c, f', r.value, d') in {(Err(CorruptHex), f), (Err(TooShort), f)})
  {
    hide HexDecode, HexEncode, Trim, LoadOrCreateKey;
    if "enc2:" <= Encrypt(c, false, f, plain, d).0.value {
      MarkedIsNotReadBack(c, f, Encrypt(c, false, f, plain, d).0.value, d');
    }
    if "enc3:" <= Encrypt(c, false, f, plain, d).0.value {
      assert Encrypt(c, false, f, plain, d).0.value[3] == '3';
    }
  }

  lemma ThreeParts(salt: Bytes, nonce: Bytes, sealed: Bytes)
    requires |salt| == SALT_LEN && |nonce| == NONCE_LEN
    ensures var blob := salt + nonce + sealed;
            && blob[..SALT_LEN] == salt
            && blob[SALT_LEN..][..NONCE_LEN] == nonce && blob[SALT_LEN..][NONCE_LEN..] == sealed
  {
  }

  /** A password secret is "enc3:" and the hex of a 16-byte salt, a 12-byte nonce and what the cipher made of it. */
  lemma PasswordSecretOpens(c: Crypto, password: string, salt: Bytes, nonce: Bytes, sealed: Bytes)
    requires |salt| == 16 && |nonce| == 12 && sealed != []
    ensures DecryptWithPassword(c, "enc3:" + HexEncode(salt + nonce + sealed), password)
         == OpenBlob(c, c.deriveKey(password, salt), nonce, sealed)
  {
    hide HexDecode, HexEncode, OpenBlob;
    PrefixedHex("enc3:", salt + nonce + sealed);
    ThreeParts(salt, nonce, sealed);
  }

  /** The password format needs no key file and opens under the same password; the empty secret gets no format. */
  lemma PasswordRoundTrip(c: Crypto, plain: Bytes, password: string, salt: Bytes, nonce: Bytes)
    requires Sound(c) && |salt| == SALT_LEN && |nonce| == NONCE_LEN
    ensures DecryptWithPassword(c, EncryptWithPassword(c, plain, password, salt, nonce), password)
         == if plain == [] then Err(NotPasswordEncrypted) else Opened(c, plain)
  {
    hide HexDecode, HexEncode;
    if plain != [] {
      var sealed := c.seal(c.deriveKey(password, salt), nonce, plain);
      var blob := salt + nonce + sealed;
      PrefixedHex("enc3:", blob);
      ThreeParts(salt, nonce, sealed);
    }
  }
}
