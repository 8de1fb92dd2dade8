/** The secret tokens of encryption/encryption.go over the framing of crypto/aes_gcm.go:
    base64url("v1" || nonce || ciphertext || tag).  AES-256-GCM itself is an idealised pair of
    functions; base64 is the padded URL alphabet of section 5 of RFC 4648 as Go decodes it. */
module Encryption {
  import opened Option

  type Byte = b: int | 0 <= b < 256
  type Bytes = seq<Byte>

  // ---------------------------------------------------------------- base64url

  function CharOf(n: nat): char
    requires n < 64
  {
    if n < 26 then ('A' as int + n) as char
    else if n < 52 then ('a' as int + n - 26) as char
    else if n < 62 then ('0' as int + n - 52) as char
    else if n == 62 then '-'
    else '_'
  }

  /** The alphabet is table 2 of RFC 4648: A to Z, a to z, 0 to 9, minus and underscore. */
  lemma AlphabetRuns(n: nat)
    requires n < 64
    ensures [CharOf(0), CharOf(26), CharOf(52), CharOf(62), CharOf(63)] == ['A', 'a', '0', '-', '_']
    ensures 0 < n < 62 && n != 26 && n != 52 ==> CharOf(n) as int == CharOf(n - 1) as int + 1
  {}

  function ValueOf(c: char): (v: int)
    ensures -1 <= v < 64
  {
    if 'A' <= c <= 'Z' then c as int - 'A' as int
    else if 'a' <= c <= 'z' then c as int - 'a' as int + 26
    else if '0' <= c <= '9' then c as int - '0' as int + 52
    else if c == '-' then 62
    else if c == '_' then 63
    else -1
  }

  const PAD := '='

  function Encode(b: Bytes): string {
    if b == [] then ""
    else if |b| == 1 then [CharOf(b[0] / 4), CharOf(b[0] % 4 * 16), PAD, PAD]
    else if |b| == 2 then [CharOf(b[0] / 4), CharOf(b[0] % 4 * 16 + b[1] / 16), CharOf(b[1] % 16 * 4), PAD]
    else
      [CharOf(b[0] / 4), CharOf(b[0] % 4 * 16 + b[1] / 16), CharOf(b[1] % 16 * 4 + b[2] / 64), CharOf(b[2] % 64)]
      + Encode(b[3..])
  }

  /** The decoder skips line breaks wherever they stand. */
  function Strip(s: string): string {
    if s == "" then ""
    else (if s[0] == '\r' || s[0] == '\n' then "" else [s[0]]) + Strip(s[1..])
  }

  /** The bytes of four sextets; a padded group keeps only the first one or two. */
  function GroupBytes(v0: nat, v1: nat, v2: nat, v3: nat): (b: Bytes)
    requires v0 < 64 && v1 < 64 && v2 < 64 && v3 < 64
    ensures |b| == 3
  {
    [v0 * 4 + v1 / 16, v1 % 16 * 16 + v2 / 4, v2 % 4 * 64 + v3]
  }

  /** Decodes whole groups of four; padding may stand only at the very end. */
  function DecodeGroups(s: string): Option<Bytes> {
    if s == "" then Some([])
    else if |s| < 4 then None
    else
      var v0, v1, v2, v3 := ValueOf(s[0]), ValueOf(s[1]), ValueOf(s[2]), ValueOf(s[3]);
      if v0 < 0 || v1 < 0 then None
      else if s[2] == PAD then
        if s[3] == PAD && |s| == 4 then Some(GroupBytes(v0, v1, 0, 0)[..1]) else None
      else if v2 < 0 then None
      else if s[3] == PAD then
        if |s| == 4 then Some(GroupBytes(v0, v1, v2, 0)[..2]) else None
      else if v3 < 0 then None
      else match DecodeGroups(s[4..])
        case None => None
        case Some(rest) => Some(GroupBytes(v0, v1, v2, v3) + rest)
  }

  function Decode(s: string): Option<Bytes> {
    DecodeGroups(Strip(s))
  }

  lemma CharReadsBack(n: nat)
    requires n < 64
    ensures ValueOf(CharOf(n)) == n && CharOf(n) != PAD && CharOf(n) != '\r' && CharOf(n) != '\n'
  {}

  lemma Split16(q: nat, r: nat)
    requires r < 16
    ensures (q * 16 + r) / 16 == q && (q * 16 + r) % 16 == r
  {}

  lemma Split4(q: nat, r: nat)
    requires r < 4
    ensures (q * 4 + r) / 4 == q && (q * 4 + r) % 4 == r
  {}

  /** The three bytes of a group from its four sextets. */
  lemma SextetsReadBack(b0: Byte, b1: Byte, b2: Byte)
    ensures var v0, v1, v2, v3 := b0 / 4, b0 % 4 * 16 + b1 / 16, b1 % 16 * 4 + b2 / 64, b2 % 64;
            && 0 <= v0 < 64 && 0 <= v1 < 64 && 0 <= v2 < 64 && 0 <= v3 < 64
            && GroupBytes(v0, v1, v2, v3) == [b0, b1, b2]
  {
    var q0, r0 := b0 / 4, b0 % 4;
    var q1, r1 := b1 / 16, b1 % 16;
    var q2, r2 := b2 / 64, b2 % 64;
    assert b0 == q0 * 4 + r0 && b1 == q1 * 16 + r1 && b2 == q2 * 64 + r2;
    Split16(r0, q1);
    Split4(r1, q2);
  }

  lemma FullGroup(v0: nat, v1: nat, v2: nat, v3: nat, rest: string)
    requires v0 < 64 && v1 < 64 && v2 < 64 && v3 < 64 && DecodeGroups(rest).Some?
    ensures DecodeGroups([CharOf(v0), CharOf(v1), CharOf(v2), CharOf(v3)] + rest)
            == Some(GroupBytes(v0, v1, v2, v3) + DecodeGroups(rest).value)
  {
    hide CharOf, ValueOf, GroupBytes;
    CharReadsBack(v0);
    CharReadsBack(v1);
    CharReadsBack(v2);
    CharReadsBack(v3);
    var s := [CharOf(v0), CharOf(v1), CharOf(v2), CharOf(v3)] + rest;
    assert s[4..] == rest;
  }

  lemma PaddedGroup(v0: nat, v1: nat, v2: nat)
    requires v0 < 64 && v1 < 64 && v2 < 64
    ensures DecodeGroups([CharOf(v0), CharOf(v1), PAD, PAD]) == Some(GroupBytes(v0, v1, 0, 0)[..1])
    ensures DecodeGroups([CharOf(v0), CharOf(v1), CharOf(v2), PAD]) == Some(GroupBytes(v0, v1, v2, 0)[..2])
  {
    hide CharOf, ValueOf, GroupBytes;
    CharReadsBack(v0);
    CharReadsBack(v1);
    CharReadsBack(v2);
  }

  lemma {:induction false} GroupsReadBack(b: Bytes)
    ensures DecodeGroups(Encode(b)) == Some(b)
    decreases |b|
  {
    hide CharOf, ValueOf, DecodeGroups, GroupBytes;
    if b == [] {
      NothingToDecode();
    } else {
      var b1, b2 := if |b| > 1 then b[1] else 0, if |b| > 2 then b[2] else 0;
      var v0, v1, v2, v3 := b[0] / 4, b[0] % 4 * 16 + b1 / 16, b1 % 16 * 4 + b2 / 64, b2 % 64;
      SextetsReadBack(b[0], b1, b2);
      if |b| <= 2 {
        PaddedGroup(v0, v1, v2);
        assert b == [b[0], b1, b2][..|b|];
      } else {
        GroupsReadBack(b[3..]);
        FullGroup(v0, v1, v2, v3, Encode(b[3..]));
        assert [b[0], b[1], b[2]] + b[3..] == b;
      }
    }
  }

  lemma NothingToDecode()
    ensures DecodeGroups("") == Some([])
  {}

  lemma {:induction false} StripKeeps(s: string)
    requires '\r' !in s && '\n' !in s
    ensures Strip(s) == s
  {
    if s != "" {
      StripKeeps(s[1..]);
      assert [s[0]] + s[1..] == s;
    }
  }

  lemma {:induction false} NoLineBreaks(b: Bytes)
    ensures '\r' !in Encode(b) && '\n' !in Encode(b)
    decreases |b|
  {
    hide CharOf;
    if b == [] {
    } else {
      CharReadsBack(b[0] / 4);
      CharReadsBack(b[0] % 4 * 16);
      if |b| > 1 {
        CharReadsBack(b[0] % 4 * 16 + b[1] / 16);
        CharReadsBack(b[1] % 16 * 4);
      }
      if |b| > 2 {
        CharReadsBack(b[1] % 16 * 4 + b[2] / 64);
        CharReadsBack(b[2] % 64);
        NoLineBreaks(b[3..]);
      }
    }
  }

  predicate UrlSafe(c: char) {
    'A' <= c <= 'Z' || 'a' <= c <= 'z' || '0' <= c <= '9' || c == '-' || c == '_' || c == '='
  }

  lemma CharIsUrlSafe(n: nat)
    requires n < 64
    ensures UrlSafe(CharOf(n))
  {}

  /** Encoded text is URL-safe and comes in groups of four characters, one for every three bytes. */
  lemma {:induction false} EncodedIsUrlSafe(b: Bytes)
    ensures |Encode(b)| == (|b| + 2) / 3 * 4 && forall c :: c in Encode(b) ==> UrlSafe(c)
    decreases |b|
  {
    hide CharOf;
    if b == [] {
    } else {
      CharIsUrlSafe(b[0] / 4);
      CharIsUrlSafe(b[0] % 4 * 16);
      if |b| > 1 {
        CharIsUrlSafe(b[0] % 4 * 16 + b[1] / 16);
        CharIsUrlSafe(b[1] % 16 * 4);
      }
      if |b| > 2 {
        CharIsUrlSafe(b[1] % 16 * 4 + b[2] / 64);
        CharIsUrlSafe(b[2] % 64);
        EncodedIsUrlSafe(b[3..]);
      }
    }
  }

  lemma DecodeUndoesEncode(b: Bytes)
    ensures Decode(Encode(b)) == Some(b)
  {
    NoLineBreaks(b);
    StripKeeps(Encode(b));
    GroupsReadBack(b);
  }

  lemma ValueReadsBack(c: char)
    requires ValueOf(c) >= 0
    ensures CharOf(ValueOf(c)) == c
  {}

  lemma BytesReadBack(v0: nat, v1: nat, v2: nat, v3: nat)
    requires v0 < 64 && v1 < 64 && v2 < 64 && v3 < 64
    ensures var b := GroupBytes(v0, v1, v2, v3);
            b[0] / 4 == v0 && b[0] % 4 * 16 + b[1] / 16 == v1 && b[1] % 16 * 4 + b[2] / 64 == v2 && b[2] % 64 == v3
  {
    Split4(v0, v1 / 16);
    Split16(v1 % 16, v2 / 4);
    assert (v1 % 16 * 16 + v2 / 4) / 16 == v1 % 16 && (v1 % 16 * 16 + v2 / 4) % 16 == v2 / 4;
    assert (v2 % 4 * 64 + v3) / 64 == v2 % 4 && (v2 % 4 * 64 + v3) % 64 == v3;
  }

  /** The characters of a whole group are those of its three bytes. */
  lemma GroupIsEncoding(c0: char, c1: char, c2: char, c3: char, rest: Bytes)
    requires ValueOf(c0) >= 0 && ValueOf(c1) >= 0 && ValueOf(c2) >= 0 && ValueOf(c3) >= 0
    ensures Encode(GroupBytes(ValueOf(c0), ValueOf(c1), ValueOf(c2), ValueOf(c3)) + rest) == [c0, c1, c2, c3] + Encode(rest)
  {
    hide CharOf, GroupBytes, ValueOf;
    BytesReadBack(ValueOf(c0), ValueOf(c1), ValueOf(c2), ValueOf(c3));
    ValueReadsBack(c0);
    ValueReadsBack(c1);
    ValueReadsBack(c2);
    ValueReadsBack(c3);
    var b := GroupBytes(ValueOf(c0), ValueOf(c1), ValueOf(c2), ValueOf(c3));
    assert (b + rest)[3..] == rest;
  }

  /** Only text as long as the encoding of the bytes decodes to them, and for whole groups only that
      encoding itself; a padded last character may carry stray low bits, which Go ignores. */
  lemma {:induction false} DecodedIsEncoding(s: string)
    requires DecodeGroups(s).Some?
    ensures var b := DecodeGroups(s).value; |s| == |Encode(b)| && (|b| % 3 == 0 ==> s == Encode(b))
    decreases |s|
  {
    hide CharOf, GroupBytes, ValueOf;
    if s == "" {
    } else if s[2] == PAD || s[3] == PAD {
      assert |s| == 4 && 1 <= |DecodeGroups(s).value| <= 2;
    } else {
      hide Encode;
      DecodedIsEncoding(s[4..]);
      var rest := DecodeGroups(s[4..]).value;
      GroupIsEncoding(s[0], s[1], s[2], s[3], rest);
      assert s == [s[0], s[1], s[2], s[3]] + s[4..];
    }
  }

  // ---------------------------------------------------------------- AES-256-GCM, idealised

  const KEY_SIZE := 32
  const NONCE_SIZE := 12
  const TAG_SIZE := 16

  datatype Aead = Aead(seal: (Bytes, Bytes, Bytes, Bytes) -> Bytes,
                       open: (Bytes, Bytes, Bytes, Bytes) -> Option<Bytes>)

  /** Opening undoes sealing, a tag is appended, and nothing opens that was not sealed with the
      same key, nonce and additional data. */
  ghost predicate Ideal(a: Aead) {
    && (forall k: Bytes, n: Bytes, p: Bytes, d: Bytes ::
          |a.seal(k, n, p, d)| == |p| + TAG_SIZE && a.open(k, n, a.seal(k, n, p, d), d) == Some(p))
    && (forall k: Bytes, n: Bytes, c: Bytes, d: Bytes ::
          a.open(k, n, c, d).Some? ==> c == a.seal(k, n, a.open(k, n, c, d).value, d))
  }

  datatype Error = InvalidKey | InvalidToken | BadKeyLength | TooShort | OpenFailed

  /** crypto.Wrap with the random nonce as an argument. */
  function Wrap(a: Aead, kek: Bytes, plaintext: Bytes, aad: Bytes, nonce: Bytes): Result<Bytes, Error> {
    if |kek| != KEY_SIZE then Err(BadKeyLength) else Ok(nonce + a.seal(kek, nonce, plaintext, aad))
  }

  function Unwrap(a: Aead, kek: Bytes, blob: Bytes, aad: Bytes): Result<Bytes, Error> {
    if |kek| != KEY_SIZE then Err(BadKeyLength)
    else if |blob| < NONCE_SIZE then Err(TooShort)
    else match a.open(kek, blob[..NONCE_SIZE], blob[NONCE_SIZE..], aad)
      case None => Err(OpenFailed)
      case Some(p) => Ok(p)
  }

  /** A blob is the nonce followed by the ciphertext, and unwrapping it gives the plaintext back; a
      key of any other size than 32 bytes fails both ways. */
  lemma UnwrapUndoesWrap(a: Aead, kek: Bytes, plaintext: Bytes, aad: Bytes, nonce: Bytes)
    requires Ideal(a) && |nonce| == 12
    ensures match Wrap(a, kek, plaintext, aad, nonce)
            case Ok(blob) => && |kek| == 32 && |blob| >= 12 && blob[..12] == nonce && blob[12..] == a.seal(kek, nonce, plaintext, aad)
                             && Unwrap(a, kek, blob, aad) == Ok(plaintext)
            case Err(_) => |kek| != 32 && forall blob :: Unwrap(a, kek, blob, aad).Err?
  {
    var ct := a.seal(kek, nonce, plaintext, aad);
    assert (nonce + ct)[..NONCE_SIZE] == nonce && (nonce + ct)[NONCE_SIZE..] == ct;
  }

  // ---------------------------------------------------------------- tokens

  const VERSION_PREFIX: Bytes := [0x76, 0x31]  // "v1"

  /** "omkit.encryption.v1" */
  const AAD: Bytes := [0x6F, 0x6D, 0x6B, 0x69, 0x74, 0x2E, 0x65, 0x6E, 0x63, 0x72, 0x79, 0x70, 0x74, 0x69, 0x6F, 0x6E,
                       0x2E, 0x76, 0x31]

  function DecodeKey(key: string): Option<Bytes> {
    match Decode(key)
    case None => None
    case Some(k) => if |k| == KEY_SIZE then Some(k) else None
  }

  /** The raw bytes of the token Encrypt makes. */
  function RawToken(a: Aead, kek: Bytes, plaintext: Bytes, nonce: Bytes): Bytes {
    VERSION_PREFIX + (nonce + a.seal(kek, nonce, plaintext, AAD))
  }

  function Encrypted(a: Aead, plaintext: Bytes, key: string, nonce: Bytes): Result<string, Error> {
    match DecodeKey(key)
    case None => Err(InvalidKey)
    case Some(kek) => Ok(Encode(RawToken(a, kek, plaintext, nonce)))
  }

  function Decrypted(a: Aead, token: string, key: string): Result<Bytes, Error> {
    match DecodeKey(key)
    case None => Err(InvalidKey)
    case Some(kek) =>
      match Decode(token)
      case None => Err(InvalidToken)
      case Some(raw) =>
        if |raw| < 2 + NONCE_SIZE + TAG_SIZE || raw[..2] != VERSION_PREFIX then Err(InvalidToken)
        else match Unwrap(a, kek, raw[2..], AAD)
          case Err(_) => Err(InvalidToken)
          case Ok(p) => Ok(p)
  }

  method Encrypt(a: Aead, plaintext: Bytes, key: string, nonce: Bytes) returns (r: Result<string, Error>)
    ensures r == Encrypted(a, plaintext, key, nonce)
  {
    var kek := DecodeKey(key);
    if kek.None? {
      return Err(InvalidKey);
    }
    var out: Bytes := [];
    match Wrap(a, kek.value, plaintext, AAD, nonce) {
      case Err(e) => return Err(e);
      case Ok(blob) =>
        out := out + VERSION_PREFIX;
        out := out + blob;
    }
    assert out == RawToken(a, kek.value, plaintext, nonce);
    return Ok(Encode(out));
  }

  method Decrypt(a: Aead, token: string, key: string) returns (r: Result<Bytes, Error>)
    ensures r == Decrypted(a, token, key)
  {
    var kek := DecodeKey(key);
    if kek.None? {
      return Err(InvalidKey);
    }
    var raw := Decode(token);
    if raw.None? || |raw.value| < |VERSION_PREFIX| + NONCE_SIZE + TAG_SIZE {
      return Err(InvalidToken);
    }
    for i := 0 to |VERSION_PREFIX|
      invariant raw.value[..i] == VERSION_PREFIX[..i]
    {
      if raw.value[i] != VERSION_PREFIX[i] {
        assert raw.value[..2][i] != VERSION_PREFIX[i];
        return Err(InvalidToken);
      }
    }
    assert VERSION_PREFIX[..2] == VERSION_PREFIX;
    var plain := Unwrap(a, kek.value, raw.value[|VERSION_PREFIX|..], AAD);
    match plain {
      case Err(_) => r := Err(InvalidToken);
      case Ok(p) => r := Ok(p);
    }
  }

  /** Every key GenerateKey can produce decodes to the bytes it was made from. */
  lemma GeneratedKeyDecodes(k: Bytes)
    requires |k| == 32
    ensures DecodeKey(Encode(k)) == Some(k)
  {
    DecodeUndoesEncode(k);
  }

  /** The bytes of a text. */
  predicate Spells(b: Bytes, text: string) {
    |b| == |text| && forall i :: 0 <= i < |b| ==> b[i] == text[i] as int
  }

  lemma Texts()
    ensures Spells(VERSION_PREFIX, "v1") && Spells(AAD, "omkit.encryption.v1")
  {}

  /** For every key that decodes to 32 bytes, every plaintext and nonce, Decrypt undoes Encrypt, and
      the token is the URL-safe encoding of at least 30 bytes: the text v1, the nonce and the
      ciphertext sealed with the package's additional data.  Any other key fails both ways. */
  lemma DecryptUndoesEncrypt(a: Aead, plaintext: Bytes, key: string, nonce: Bytes)
    requires Ideal(a) && |nonce| == 12
    ensures var usable := Decode(key).Some? && |Decode(key).value| == 32;
            match Encrypted(a, plaintext, key, nonce)
            case Err(e) => e == InvalidKey && !usable && forall t :: Decrypted(a, t, key) == Err(InvalidKey)
            case Ok(token) =>
              && usable && Decrypted(a, token, key) == Ok(plaintext)
              && (forall c :: c in token ==> UrlSafe(c))
              && Decode(token).Some?
              && var raw := Decode(token).value;
                 && |raw| >= 30 && Spells(raw[..2], "v1") && raw[2..14] == nonce
                 && exists aad :: Spells(aad, "omkit.encryption.v1") && raw[14..] == a.seal(Decode(key).value, nonce, plaintext, aad)
  {
    if DecodeKey(key).Some? {
      var kek := DecodeKey(key).value;
      var raw := RawToken(a, kek, plaintext, nonce);
      DecodeUndoesEncode(raw);
      EncodedIsUrlSafe(raw);
      UnwrapUndoesWrap(a, kek, plaintext, AAD, nonce);
      var sealed := a.seal(kek, nonce, plaintext, AAD);
      assert raw[..2] == VERSION_PREFIX && raw[2..] == nonce + sealed;
      assert raw[2..14] == nonce && raw[14..] == sealed;
      Texts();
    }
  }

  /** Decrypt accepts exactly the tokens whose bytes Encrypt would have produced under this key with
      some nonce; in particular any other version prefix is rejected. */
  lemma OnlyEncryptedTokensDecrypt(a: Aead, token: string, key: string, plaintext: Bytes)
    requires Ideal(a)
    ensures Decrypted(a, token, key) == Ok(plaintext) <==>
            && DecodeKey(key).Some? && Decode(token).Some? && |Decode(token).value| >= 14
            && Decode(token).value == RawToken(a, DecodeKey(key).value, plaintext, Decode(token).value[2..14])
  {
    if DecodeKey(key).Some? && Decode(token).Some? && |Decode(token).value| >= 14 {
      var kek, raw := DecodeKey(key).value, Decode(token).value;
      var nonce, ct := raw[2..14], raw[14..];
      assert raw == raw[..2] + (nonce + ct);
      assert raw[2..][..NONCE_SIZE] == nonce && raw[2..][NONCE_SIZE..] == ct;
      var sealed := a.seal(kek, nonce, plaintext, AAD);
      if raw == RawToken(a, kek, plaintext, nonce) {
        assert raw[..2] == VERSION_PREFIX && raw[14..] == sealed;
      }
    }
  }

  lemma OtherVersionRejected(a: Aead, token: string, key: string)
    requires Decode(token).Some? && |Decode(token).value| >= 2 && Decode(token).value[..2] != VERSION_PREFIX
    ensures Decrypted(a, token, key).Err?
  {}
}
