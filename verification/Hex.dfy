// Hexadecimal text for bytes, and the fingerprint notation of RFC 4572, section 5.

module Hex {
  import opened Wrappers

  const LOWER := "0123456789abcdef"
  const UPPER := "0123456789ABCDEF"

  function HexOfByte(b: Byte, digits: string): string
    requires |digits| == 16
  {
    [digits[b / 16], digits[b % 16]]
  }

  /** Two digits per byte, as the byte array's hex conversion prints them. */
  function ToHex(bytes: seq<Byte>, digits: string): string
    requires |digits| == 16
  {
    if bytes == [] then "" else ToHex(bytes[..|bytes| - 1], digits) + HexOfByte(bytes[|bytes| - 1], digits)
  }

  function HexValue(c: char): Option<nat> {
    if '0' <= c <= '9' then Some(c as int - '0' as int)
    else if 'a' <= c <= 'f' then Some(c as int - 'a' as int + 10)
    else if 'A' <= c <= 'F' then Some(c as int - 'A' as int + 10)
    else None
  }

  type Nibble = n: int | 0 <= n < 16

  /** The values of the hex digits in a text; every other character is skipped. */
  function Nibbles(s: string): seq<Nibble> {
    if s == "" then []
    else Nibbles(s[..|s| - 1]) + (match HexValue(s[|s| - 1]) case Some(v) => [v] case None => [])
  }

  /** Pairs digits up from the end; an odd digit at the front becomes a byte of its own. */
  function BytesOfNibbles(n: seq<Nibble>): seq<Byte> {
    if n == [] then []
    else if |n| == 1 then [n[0]]
    else
      var high: int, low: int := n[|n| - 2], n[|n| - 1];
      var last: Byte := 16 * high + low;
      BytesOfNibbles(n[..|n| - 2]) + [last]
  }

  function FromHex(s: string): seq<Byte> { BytesOfNibbles(Nibbles(s)) }

  lemma NibblesAppend(s: string, c: char)
    ensures Nibbles(s + [c]) == Nibbles(s) + (match HexValue(c) case Some(v) => [v] case None => [])
  {
    assert (s + [c])[..|s|] == s;
  }

  lemma HexValueOfDigit(n: Nibble)
    ensures HexValue(LOWER[n]) == Some(n) && HexValue(UPPER[n]) == Some(n)
  {}

  /** A hex digit of either case has its place in the digits as value. */
  lemma HexDigitIff(c: char, n: Nibble)
    ensures HexValue(c) == Some(n) <==> c == "0123456789abcdef"[n] || c == "0123456789ABCDEF"[n]
  {
    assert n < 10 ==> "0123456789abcdef"[n] as int == 48 + n;
    assert n >= 10 ==> "0123456789abcdef"[n] as int == 87 + n && "0123456789ABCDEF"[n] as int == 55 + n;
  }

  lemma NibblesOfByte(s: string, b: Byte, digits: string)
    requires digits == LOWER || digits == UPPER
    ensures Nibbles(s + HexOfByte(b, digits)) == Nibbles(s) + [b / 16, b % 16]
  {
    HexValueOfDigit(b / 16);
    HexValueOfDigit(b % 16);
    NibblesAppend(s, digits[b / 16]);
    NibblesAppend(s + [digits[b / 16]], digits[b % 16]);
    assert s + [digits[b / 16]] + [digits[b % 16]] == s + HexOfByte(b, digits);
  }

  lemma BytesOfNibblesAppend(n: seq<Nibble>, b: Byte)
    ensures BytesOfNibbles(n + [b / 16, b % 16]) == BytesOfNibbles(n) + [b]
  {
    var m := n + [b / 16, b % 16];
    assert m[..|m| - 2] == n;
    assert b / 16 * 16 + b % 16 == b;
  }

  /** Reading hex digits back gives the bytes, in either case. */
  lemma {:induction false} HexRoundTrip(bytes: seq<Byte>, digits: string)
    requires digits == LOWER || digits == UPPER
    ensures FromHex(ToHex(bytes, digits)) == bytes
  {
    if bytes != [] {
      var front, last := bytes[..|bytes| - 1], bytes[|bytes| - 1];
      HexRoundTrip(front, digits);
      NibblesOfByte(ToHex(front, digits), last, digits);
      BytesOfNibblesAppend(Nibbles(ToHex(front, digits)), last);
    }
  }

  // ---------------------------------------------------------------- fingerprints

  /** Upper-case byte pairs separated by colons. */
  function Fingerprint(digest: seq<Byte>): string {
    if digest == [] then ""
    else
      var front := Fingerprint(digest[..|digest| - 1]);
      (if front == "" then "" else front + ":") + HexOfByte(digest[|digest| - 1], UPPER)
  }

  lemma {:induction false} ToHexAt(bytes: seq<Byte>, digits: string, k: nat)
    requires |digits| == 16 && k < |bytes|
    ensures |ToHex(bytes, digits)| == 2 * |bytes|
    ensures ToHex(bytes, digits)[2 * k..2 * k + 2] == HexOfByte(bytes[k], digits)
  {
    var front := bytes[..|bytes| - 1];
    if front != [] {
      ToHexAt(front, digits, if k < |front| then k else 0);
    }
    assert |ToHex(front, digits)| == 2 * |front|;
    if k < |front| {
      assert ToHex(bytes, digits)[2 * k..2 * k + 2] == ToHex(front, digits)[2 * k..2 * k + 2];
    }
  }

  lemma FingerprintGrows(digest: seq<Byte>, k: nat)
    requires k < |digest|
    ensures var front := Fingerprint(digest[..k]);
            Fingerprint(digest[..k + 1]) == (if front == "" then "" else front + ":") + HexOfByte(digest[k], UPPER)
  {
    assert digest[..k + 1][..k] == digest[..k];
  }

  method FormatFingerprint(digest: seq<Byte>) returns (fingerprint: string)
    ensures fingerprint == Fingerprint(digest)
  {
    hide HexOfByte;
    fingerprint := "";
    assert Fingerprint(digest[..0]) == "";
    var hx := ToHex(digest, UPPER);
    if digest != [] {
      ToHexAt(digest, UPPER, 0);
    }
    var i := 0;
    while i < |hx|
      invariant 0 <= i <= |hx| == 2 * |digest| && i % 2 == 0
      invariant fingerprint == Fingerprint(digest[..i / 2])
    {
      if fingerprint != "" {
        fingerprint := fingerprint + ":";
      }
      ToHexAt(digest, UPPER, i / 2);
      FingerprintGrows(digest, i / 2);
      fingerprint := fingerprint + hx[i..i + 2];
      i := i + 2;
    }
    assert digest[..|digest|] == digest;
  }

  /** Every colon becomes a null character. */
  function NullColons(s: string): string {
    seq(|s|, k requires 0 <= k < |s| => if s[k] == ':' then '\0' else s[k])
  }

  function ParseFingerprint(fingerprint: string): seq<Byte> { FromHex(NullColons(fingerprint)) }

  lemma {:induction false} NibblesIgnoreColons(s: string)
    ensures Nibbles(NullColons(s)) == Nibbles(s)
  {
    if s != "" {
      NibblesIgnoreColons(s[..|s| - 1]);
      assert NullColons(s)[..|s| - 1] == NullColons(s[..|s| - 1]);
    }
  }

  lemma {:induction false} ColonsAddNoNibbles(digest: seq<Byte>)
    ensures Nibbles(Fingerprint(digest)) == Nibbles(ToHex(digest, UPPER))
  {
    if digest != [] {
      var front, last := digest[..|digest| - 1], digest[|digest| - 1];
      ColonsAddNoNibbles(front);
      var printed := Fingerprint(front);
      var prefix := if printed == "" then "" else printed + ":";
      NibblesAppend(printed, ':');
      assert Nibbles(prefix) == Nibbles(printed);
      NibblesOfByte(prefix, last, UPPER);
      NibblesOfByte(ToHex(front, UPPER), last, UPPER);
      assert Fingerprint(digest) == prefix + HexOfByte(last, UPPER);
    }
  }

  /** Parsing a formatted fingerprint gives back the digest, for every byte string. */
  lemma FingerprintRoundTrip(digest: seq<Byte>)
    ensures ParseFingerprint(Fingerprint(digest)) == digest
  {
    NibblesIgnoreColons(Fingerprint(digest));
    ColonsAddNoNibbles(digest);
    HexRoundTrip(digest, UPPER);
  }

  /** A fingerprint has no character that would end a line or a field of a session description. */
  lemma {:induction false} FingerprintCharacters(digest: seq<Byte>)
    ensures forall c :: c in Fingerprint(digest) ==> c == ':' || c in UPPER
    ensures Fingerprint(digest) == "" <==> digest == []
  {
    if digest != [] {
      FingerprintCharacters(digest[..|digest| - 1]);
    }
  }

  /** Three characters a byte: two digits, and a colon before the next byte. */
  lemma {:induction false} FingerprintAt(digest: seq<Byte>, k: nat)
    requires k < |digest|
    ensures |Fingerprint(digest)| == 3 * |digest| - 1
    ensures Fingerprint(digest)[3 * k] == "0123456789ABCDEF"[digest[k] / 16]
    ensures Fingerprint(digest)[3 * k + 1] == "0123456789ABCDEF"[digest[k] % 16]
    ensures k + 1 < |digest| ==> Fingerprint(digest)[3 * k + 2] == ':'
  {
    var n := |digest| - 1;
    var front := Fingerprint(digest[..n]);
    if n > 0 {
      FingerprintAt(digest[..n], if k < n then k else n - 1);
      assert Fingerprint(digest) == front + ":" + HexOfByte(digest[n], UPPER);
    }
  }

  /** A fingerprint is read as the bytes of its hex digits, whatever stands between them. */
  lemma FingerprintIsHex(fingerprint: string)
    ensures ParseFingerprint(fingerprint) == FromHex(fingerprint)
  {
    NibblesIgnoreColons(fingerprint);
  }
}
