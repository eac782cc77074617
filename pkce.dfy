/** Proof Key for Code Exchange (RFC 7636) as the background worker computes
    it (background.js:12-29): the code verifier and the anti-forgery state are
    random strings over the unreserved alphabet of section 4.1 of RFC 7636, and
    the S256 code challenge is the base64url encoding (section 5 of RFC 4648,
    padding removed) of the SHA-256 digest of the verifier. The random source
    and the digest are inputs of this model. */
module Pkce {
  import opened Wrappers
  import Text

  type byte = b: int | 0 <= b < 256


  /** The unreserved characters of section 2.3 of RFC 3986, which section 4.1
      of RFC 7636 allows in a code verifier. */
  predicate IsUnreserved(c: char)
  {
    ('A' <= c <= 'Z') || ('a' <= c <= 'z') || ('0' <= c <= '9')
    || c == '-' || c == '.' || c == '_' || c == '~'
  }

  const UpperLetters: string := "ABCDEFGHIJKLMNOPQRSTUVWXYZ"
  const LowerLetters: string := "abcdefghijklmnopqrstuvwxyz"
  const DecimalDigits: string := "0123456789"

  /** The alphabet `generate_random_string` indexes into,
      "ABCDEFGHIJKLMNOPQRSTUVWXYZabcdefghijklmnopqrstuvwxyz0123456789-._~",
      written as its four runs. */
  const Possible: string := UpperLetters + LowerLetters + DecimalDigits + "-._~"

  lemma UpperLettersAt()
    ensures forall k :: 0 <= k < 26 ==> UpperLetters[k] as int == 'A' as int + k
  {
  }

  lemma LowerLettersAt()
    ensures forall k :: 0 <= k < 26 ==> LowerLetters[k] as int == 'a' as int + k
  {
  }

  lemma DecimalDigitsAt()
    ensures forall k :: 0 <= k < 10 ==> DecimalDigits[k] as int == '0' as int + k
  {
  }

  lemma PossibleOnlyUnreserved(k: int)
    requires 0 <= k < |Possible|
    ensures IsUnreserved(Possible[k])
  {
    if k < 26 {
      UpperLettersAt();
      assert Possible[k] == UpperLetters[k];
    } else if k < 52 {
      LowerLettersAt();
      assert Possible[k] == LowerLetters[k - 26];
    } else if k < 62 {
      DecimalDigitsAt();
      assert Possible[k] == DecimalDigits[k - 52];
    } else {
      assert Possible[62..] == "-._~";
      assert Possible[k] == "-._~"[k - 62];
    }
  }

  lemma UnreservedInPossible(c: char)
    requires IsUnreserved(c)
    ensures c in Possible
  {
    if 'A' <= c <= 'Z' {
      UpperInPossible(c);
    } else if 'a' <= c <= 'z' {
      LowerInPossible(c);
    } else if '0' <= c <= '9' {
      DigitInPossible(c);
    } else {
      assert Possible[62..] == "-._~";
    }
  }

  lemma UpperInPossible(c: char)
    requires 'A' <= c <= 'Z'
    ensures c in Possible
  {
    UpperLettersAt();
    var k := c as int - 'A' as int;
    assert UpperLetters[k] == c;
    assert Possible[k] == UpperLetters[k];
  }

  lemma LowerInPossible(c: char)
    requires 'a' <= c <= 'z'
    ensures c in Possible
  {
    LowerLettersAt();
    var k := c as int - 'a' as int;
    assert LowerLetters[k] == c;
    assert Possible[26 + k] == LowerLetters[k];
  }

  lemma DigitInPossible(c: char)
    requires '0' <= c <= '9'
    ensures c in Possible
  {
    DecimalDigitsAt();
    var k := c as int - '0' as int;
    assert DecimalDigits[k] == c;
    assert Possible[52 + k] == DecimalDigits[k];
  }

  /** The alphabet holds 66 characters, and they are exactly the unreserved
      ones. */
  lemma PossibleIsUnreservedAlphabet()
    ensures |Possible| == 66
    ensures forall c :: c in Possible <==> IsUnreserved(c)
  {
    forall c | c in Possible ensures IsUnreserved(c) {
      var k :| 0 <= k < |Possible| && Possible[k] == c;
      PossibleOnlyUnreserved(k);
    }
    forall c | IsUnreserved(c) ensures c in Possible {
      UnreservedInPossible(c);
    }
  }

  /** The left fold `values.reduce((acc, x) => acc + possible[x % 66], acc)`. */
  function AppendChars(acc: string, values: seq<byte>): (r: string)
    ensures |r| == |acc| + |values|
    ensures r[..|acc|] == acc
    ensures forall i :: 0 <= i < |values| ==> r[|acc| + i] == Possible[values[i] % |Possible|]
    decreases |values|
  {
    if values == [] then acc
    else AppendChars(acc + [Possible[values[0] % |Possible|]], values[1..])
  }

  /** `generate_random_string(length)` given the `length` bytes that
      `crypto.getRandomValues` produced: character i is the alphabet letter
      picked by byte i modulo 66, so the string has one character per byte and
      every character is unreserved. */
  function GenerateRandomString(values: seq<byte>): (r: string)
    ensures |r| == |values|
    ensures forall i :: 0 <= i < |values| ==> r[i] == Possible[values[i] % |Possible|]
    ensures forall i :: 0 <= i < |r| ==> IsUnreserved(r[i])
  {
    PossibleIsUnreservedAlphabet();
    AppendChars("", values)
  }

  /** Section 4.1 of RFC 7636: a verifier has 43 to 128 unreserved characters.
      The 128-byte draw of background.js:43 meets it. */
  predicate IsValidVerifier(s: string)
  {
    43 <= |s| <= 128 && forall i :: 0 <= i < |s| ==> IsUnreserved(s[i])
  }

  lemma VerifierIsValid(values: seq<byte>)
    requires |values| == 128
    ensures IsValidVerifier(GenerateRandomString(values))
  {
  }

  // ---------------------------------------------------------------------
  // UTF-8 (what `TextEncoder.encode` produces)
  // ---------------------------------------------------------------------

  function Utf8Char(c: char): (r: seq<byte>)
    ensures 1 <= |r| <= 4
    ensures c as int < 128 ==> r == [c as int]
  {
    var n := c as int;
    if n < 0x80 then [n]
    else if n < 0x800 then [0xC0 + n / 64, 0x80 + n % 64]
    else if n < 0x10000 then [0xE0 + n / 4096, 0x80 + (n / 64) % 64, 0x80 + n % 64]
    else [0xF0 + n / 262144, 0x80 + (n / 4096) % 64, 0x80 + (n / 64) % 64, 0x80 + n % 64]
  }

  /** UTF-8 encoding of a string; an ASCII string encodes to its own codes. */
  function Utf8Encode(s: string): (r: seq<byte>)
    ensures (forall i :: 0 <= i < |s| ==> s[i] as int < 128) ==>
              |r| == |s| && forall i :: 0 <= i < |s| ==> r[i] == s[i] as int
  {
    if s == [] then [] else Utf8Char(s[0]) + Utf8Encode(s[1..])
  }

  // ---------------------------------------------------------------------
  // Base64 (section 4 of RFC 4648) and base64url (section 5)
  // ---------------------------------------------------------------------

  /** The 6-bit groups of a byte string, most significant bits first; a final
      group of one or two bytes is filled with zero bits to a whole sextet. */
  function Sextets(b: seq<byte>): (r: seq<int>)
    ensures |r| == (4 * |b| + 2) / 3
    ensures forall k :: 0 <= k < |r| ==> 0 <= r[k] < 64
    decreases |b|
  {
    if |b| == 0 then []
    else if |b| == 1 then [b[0] / 4, (b[0] % 4) * 16]
    else if |b| == 2 then [b[0] / 4, (b[0] % 4) * 16 + b[1] / 16, (b[1] % 16) * 4]
    else [b[0] / 4, (b[0] % 4) * 16 + b[1] / 16, (b[1] % 16) * 4 + b[2] / 64, b[2] % 64] + Sextets(b[3..])
  }

  /** The standard alphabet of section 4 of RFC 4648. */
  function StdDigit(v: int): char
    requires 0 <= v < 64
  {
    if v < 26 then ('A' as int + v) as char
    else if v < 52 then ('a' as int + v - 26) as char
    else if v < 62 then ('0' as int + v - 52) as char
    else if v == 62 then '+'
    else '/'
  }

  /** The URL- and filename-safe alphabet of section 5 of RFC 4648. */
  function UrlDigit(v: int): (c: char)
    requires 0 <= v < 64
    ensures c != '+' && c != '/' && c != '='
  {
    if v < 26 then ('A' as int + v) as char
    else if v < 52 then ('a' as int + v - 26) as char
    else if v < 62 then ('0' as int + v - 52) as char
    else if v == 62 then '-'
    else '_'
  }

  function StdDigits(v: seq<int>): (r: string)
    requires forall k :: 0 <= k < |v| ==> 0 <= v[k] < 64
    ensures |r| == |v|
  {
    if v == [] then [] else [StdDigit(v[0])] + StdDigits(v[1..])
  }

  function UrlDigits(v: seq<int>): (r: string)
    requires forall k :: 0 <= k < |v| ==> 0 <= v[k] < 64
    ensures |r| == |v|
    ensures '+' !in r && '/' !in r && '=' !in r
  {
    if v == [] then [] else [UrlDigit(v[0])] + UrlDigits(v[1..])
  }

  /** The `=` characters that fill the last group of four. */
  function Padding(n: nat): string
  {
    if n % 3 == 1 then "==" else if n % 3 == 2 then "=" else ""
  }

  /** `btoa` of the bytes: standard base64 with `=` padding to a multiple of
      four characters. */
  function Base64Encode(b: seq<byte>): string
  {
    StdDigits(Sextets(b)) + Padding(|b|)
  }

  /** Base64url without padding, the encoding section 4.2 of RFC 7636
      prescribes for the S256 challenge. */
  function Base64UrlEncode(b: seq<byte>): (r: string)
    ensures |r| == (4 * |b| + 2) / 3
    ensures '+' !in r && '/' !in r && '=' !in r
  {
    UrlDigits(Sextets(b))
  }

  function UrlValue(c: char): (r: Option<int>)
    ensures r.Some? ==> 0 <= r.value < 64
  {
    if 'A' <= c <= 'Z' then Some(c as int - 'A' as int)
    else if 'a' <= c <= 'z' then Some(c as int - 'a' as int + 26)
    else if '0' <= c <= '9' then Some(c as int - '0' as int + 52)
    else if c == '-' then Some(62)
    else if c == '_' then Some(63)
    else None
  }

  function UrlValues(s: string): (r: Option<seq<int>>)
    ensures r.Some? ==> |r.value| == |s| && forall k :: 0 <= k < |s| ==> 0 <= r.value[k] < 64
  {
    if s == [] then Some([])
    else match (UrlValue(s[0]), UrlValues(s[1..]))
      case (Some(v), Some(vs)) => Some([v] + vs)
      case _ => None
  }

  function BytesOfSextets(v: seq<int>): Option<seq<byte>>
    requires forall k :: 0 <= k < |v| ==> 0 <= v[k] < 64
    decreases |v|
  {
    if |v| == 0 then Some([])
    else if |v| == 1 then None
    else if |v| == 2 then Some([v[0] * 4 + v[1] / 16])
    else if |v| == 3 then Some([v[0] * 4 + v[1] / 16, (v[1] % 16) * 16 + v[2] / 4])
    else
      match BytesOfSextets(v[4..])
      case Some(rest) => Some([v[0] * 4 + v[1] / 16, (v[1] % 16) * 16 + v[2] / 4, (v[2] % 4) * 64 + v[3]] + rest)
      case None => None
  }

  /** Base64url decoding of an unpadded string; `None` for a character outside
      the alphabet or a length that leaves a lone sextet. */
  function Base64UrlDecode(s: string): Option<seq<byte>>
  {
    match UrlValues(s)
    case Some(v) => BytesOfSextets(v)
    case None => None
  }

  /** Regrouping the sextets of three bytes gives back the bytes. */
  lemma GroupInverse(x: byte, y: byte, z: byte)
    ensures (x / 4) * 4 + ((x % 4) * 16 + y / 16) / 16 == x
    ensures (((x % 4) * 16 + y / 16) % 16) * 16 + ((y % 16) * 4 + z / 64) / 4 == y
    ensures (((y % 16) * 4 + z / 64) % 4) * 64 + z % 64 == z
  {
  }

  lemma {:induction false} BytesOfSextetsInverse(b: seq<byte>)
    ensures BytesOfSextets(Sextets(b)) == Some(b)
    decreases |b|
  {
    if |b| >= 3 {
      BytesOfSextetsInverse(b[3..]);
      assert b == [b[0], b[1], b[2]] + b[3..];
      GroupDecodes(b[0], b[1], b[2], b[3..]);
    } else if |b| == 2 {
      assert b == [b[0], b[1]];
      PairDecodes(b[0], b[1]);
    } else if |b| == 1 {
      assert b == [b[0]];
      SingleDecodes(b[0]);
    }
  }

  /** A whole group of three bytes decodes back, given that the rest does. */
  lemma GroupDecodes(x: byte, y: byte, z: byte, rest: seq<byte>)
    requires BytesOfSextets(Sextets(rest)) == Some(rest)
    ensures BytesOfSextets(Sextets([x, y, z] + rest)) == Some([x, y, z] + rest)
  {
    var b := [x, y, z] + rest;
    assert b[0] == x && b[1] == y && b[2] == z && b[3..] == rest;
    var v := Sextets(b);
    var s0, s1, s2, s3 := x / 4, (x % 4) * 16 + y / 16, (y % 16) * 4 + z / 64, z % 64;
    assert v == [s0, s1, s2, s3] + Sextets(rest);
    assert v[4..] == Sextets(rest);
    GroupInverse(x, y, z);
  }

  /** A final group of two bytes decodes back. */
  lemma PairDecodes(x: byte, y: byte)
    ensures BytesOfSextets(Sextets([x, y])) == Some([x, y])
  {
    var v := Sextets([x, y]);
    assert v == [x / 4, (x % 4) * 16 + y / 16, (y % 16) * 4];
    GroupInverse(x, y, 0);
  }

  /** A final lone byte decodes back. */
  lemma SingleDecodes(x: byte)
    ensures BytesOfSextets(Sextets([x])) == Some([x])
  {
    var v := Sextets([x]);
    assert v == [x / 4, (x % 4) * 16];
    GroupInverse(x, 0, 0);
  }

  lemma {:induction false} UrlValuesOfDigits(v: seq<int>)
    requires forall k :: 0 <= k < |v| ==> 0 <= v[k] < 64
    ensures UrlValues(UrlDigits(v)) == Some(v)
    decreases |v|
  {
    if v != [] {
      UrlValuesOfDigits(v[1..]);
      assert UrlValue(UrlDigit(v[0])) == Some(v[0]);
      assert UrlDigits(v)[1..] == UrlDigits(v[1..]);
      assert v == [v[0]] + v[1..];
    }
  }

  /** Decoding undoes base64url encoding: no information of the digest is
      lost by the rewriting. */
  lemma Base64UrlRoundTrip(b: seq<byte>)
    ensures Base64UrlDecode(Base64UrlEncode(b)) == Some(b)
  {
    UrlValuesOfDigits(Sextets(b));
    BytesOfSextetsInverse(b);
  }

  // ---------------------------------------------------------------------
  // The code challenge
  // ---------------------------------------------------------------------

  /** background.js:24-28: base64 of the digest, then `+` to `-`, `/` to `_`
      and every `=` removed. */
  function CodeChallengeOfDigest(digest: seq<byte>): string
  {
    UrlSafe(Base64Encode(digest))
  }

  /** The three `replace` calls of background.js:25-28. */
  function UrlSafe(s: string): string
  {
    Text.ReplaceChar(Text.ReplaceChar(Text.ReplaceChar(s, '+', "-"), '/', "_"), '=', "")
  }

  lemma UrlSafeAppend(a: string, b: string)
    ensures UrlSafe(a + b) == UrlSafe(a) + UrlSafe(b)
  {
    Text.ReplaceCharAppend(a, b, '+', "-");
    var a1, b1 := Text.ReplaceChar(a, '+', "-"), Text.ReplaceChar(b, '+', "-");
    Text.ReplaceCharAppend(a1, b1, '/', "_");
    var a2, b2 := Text.ReplaceChar(a1, '/', "_"), Text.ReplaceChar(b1, '/', "_");
    Text.ReplaceCharAppend(a2, b2, '=', "");
  }

  lemma {:induction false} UrlSafeStdDigits(v: seq<int>)
    requires forall k :: 0 <= k < |v| ==> 0 <= v[k] < 64
    ensures UrlSafe(StdDigits(v)) == UrlDigits(v)
    decreases |v|
  {
    if v != [] {
      UrlSafeStdDigits(v[1..]);
      UrlSafeAppend([StdDigit(v[0])], StdDigits(v[1..]));
    }
  }

  lemma UrlSafePadding(n: nat)
    ensures UrlSafe(Padding(n)) == []
  {
    var pad := Padding(n);
    Text.ReplaceCharAbsent(pad, '+', "-");
    Text.ReplaceCharAbsent(pad, '/', "_");
    if pad != [] {
      assert pad[1..] == [] || pad[1..] == "=";
      assert Text.ReplaceChar(pad[1..], '=', "") == [];
    }
  }

  /** The rewriting pipeline of background.js:25-28 yields exactly the
      unpadded base64url encoding of the digest. */
  lemma CodeChallengeIsBase64Url(digest: seq<byte>)
    ensures CodeChallengeOfDigest(digest) == Base64UrlEncode(digest)
  {
    var v := Sextets(digest);
    var pad := Padding(|digest|);
    UrlSafeAppend(StdDigits(v), pad);
    UrlSafeStdDigits(v);
    UrlSafePadding(|digest|);
    assert CodeChallengeOfDigest(digest) == UrlSafe(StdDigits(v) + pad);
  }

  /** `create_code_challenge(code_verifier)` with SHA-256 as a parameter: the
      unpadded base64url encoding of the digest of the verifier's UTF-8 bytes,
      hence free of `+`, `/` and `=` and decodable back to the digest. */
  function CreateCodeChallenge(verifier: string, sha256: seq<byte> -> seq<byte>): (r: string)
    ensures r == Base64UrlEncode(sha256(Utf8Encode(verifier)))
    ensures '+' !in r && '/' !in r && '=' !in r
    ensures Base64UrlDecode(r) == Some(sha256(Utf8Encode(verifier)))
  {
    var digest := sha256(Utf8Encode(verifier));
    CodeChallengeIsBase64Url(digest);
    Base64UrlRoundTrip(digest);
    CodeChallengeOfDigest(digest)
  }

  /** A SHA-256 digest has 32 bytes, so the challenge has 43 characters, the
      length section 4.2 of RFC 7636 gives for S256. */
  lemma ChallengeLength(verifier: string, sha256: seq<byte> -> seq<byte>)
    requires |sha256(Utf8Encode(verifier))| == 32
    ensures |CreateCodeChallenge(verifier, sha256)| == 43
  {
  }
}
