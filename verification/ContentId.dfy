// Content ids and cid URLs of Bits of Binary (XEP-0231).

module ContentIds {
  import opened Wrappers
  import opened Text
  import Hex

  datatype Algorithm =
    | Sha1 | Md4 | Md5 | Sha224 | Sha256 | Sha384 | Sha512 | Sha3_224 | Sha3_256 | Sha3_384 | Sha3_512
    | Blake2b256 | Blake2b512 | Unsupported

  /** Bytes of a digest. */
  function HashLength(a: Algorithm): nat {
    match a
    case Sha1 => 20 case Md4 => 16 case Md5 => 16
    case Sha224 => 28 case Sha256 => 32 case Sha384 => 48 case Sha512 => 64
    case Sha3_224 => 28 case Sha3_256 => 32 case Sha3_384 => 48 case Sha3_512 => 64
    case Blake2b256 => 32 case Blake2b512 => 64
    case Unsupported => 0
  }

  function AlgorithmName(a: Algorithm): Option<string> {
    match a
    case Sha1 => Some("sha1") case Md4 => Some("md4") case Md5 => Some("md5")
    case Sha224 => Some("sha-224") case Sha256 => Some("sha-256") case Sha384 => Some("sha-384") case Sha512 => Some("sha-512")
    case Sha3_224 => Some("sha3-224") case Sha3_256 => Some("sha3-256")
    case Sha3_384 => Some("sha3-384") case Sha3_512 => Some("sha3-512")
    case Blake2b256 => Some("blake2b-256") case Blake2b512 => Some("blake2b-512")
    case Unsupported => None
  }

  const ALGORITHMS: seq<Algorithm> :=
    [Sha1, Md4, Md5, Sha224, Sha256, Sha384, Sha512, Sha3_224, Sha3_256, Sha3_384, Sha3_512, Blake2b256, Blake2b512]

  /** The first algorithm with the given name. */
  function AlgorithmOf(name: string, among: seq<Algorithm>): Option<Algorithm> {
    if among == [] then None
    else if AlgorithmName(among[0]) == Some(name) then Some(among[0])
    else AlgorithmOf(name, among[1..])
  }

  datatype ContentId = ContentId(algorithm: Algorithm, hash: seq<Byte>)

  const EMPTY := ContentId(Sha1, [])

  const URL := "cid:"
  const POSTFIX := "@bob.xmpp.org"

  predicate IsValid(c: ContentId) {
    c.hash != [] && AlgorithmName(c.algorithm).Some? && |c.hash| == HashLength(c.algorithm)
  }

  function ToContentId(c: ContentId): string {
    if !IsValid(c) then ""
    else AlgorithmName(c.algorithm).value + "+" + Hex.ToHex(c.hash, Hex.LOWER) + POSTFIX
  }

  function ToCidUrl(c: ContentId): string { if !IsValid(c) then "" else URL + ToContentId(c) }

  function FromContentId(input: string): ContentId {
    if StartsWith(input, URL) || !EndsWith(input, POSTFIX) then EMPTY
    else
      var parts := Split(input[..|input| - |POSTFIX|], '+');
      if |parts| != 2 then EMPTY
      else match AlgorithmOf(parts[0], ALGORITHMS)
        case None => EMPTY
        case Some(a) => ContentId(a, Hex.FromHex(parts[1]))
  }

  function FromCidUrl(input: string): ContentId {
    if StartsWith(input, URL) then FromContentId(input[|URL|..]) else EMPTY
  }

  predicate IsBitsOfBinaryContentId(input: string, checkIsCidUrl: bool) {
    EndsWith(input, POSTFIX) && '+' in input && (!checkIsCidUrl || StartsWith(input, URL))
  }

  // -------------------------------------------------------------- names and lengths

  datatype Family = Sha2 | Sha3 | Blake2b

  /** The newer algorithms: their family and the bits of their digests. */
  const MODERN: seq<(Algorithm, Family, nat)> :=
    [(Sha224, Sha2, 224), (Sha256, Sha2, 256), (Sha384, Sha2, 384), (Sha512, Sha2, 512),
     (Sha3_224, Sha3, 224), (Sha3_256, Sha3, 256), (Sha3_384, Sha3, 384), (Sha3_512, Sha3, 512),
     (Blake2b256, Blake2b, 256), (Blake2b512, Blake2b, 512)]

  function FamilyName(f: Family): string { match f case Sha2 => "sha" case Sha3 => "sha3" case Blake2b => "blake2b" }

  /** The name of a newer algorithm is its family, a hyphen and its bits; the oldest three have one word. */
  lemma NamesTellFamilyAndBits(row: (Algorithm, Family, nat))
    requires row in MODERN
    ensures AlgorithmName(row.0) == Some(FamilyName(row.1) + "-" + Number(row.2))
    ensures AlgorithmName(Sha1) == Some("sha1") && AlgorithmName(Md4) == Some("md4") && AlgorithmName(Md5) == Some("md5")
  {
    hide Number;
    NumbersOfBits();
    var name := FamilyName(row.1) + "-" + Number(row.2);
    match row.1
    case Sha2 =>
      assert row.2 == 224 ==> name == "sha-224";
      assert row.2 == 256 ==> name == "sha-256";
      assert row.2 == 384 ==> name == "sha-384";
      assert row.2 == 512 ==> name == "sha-512";
    case Sha3 =>
      assert row.2 == 224 ==> name == "sha3-224";
      assert row.2 == 256 ==> name == "sha3-256";
      assert row.2 == 384 ==> name == "sha3-384";
      assert row.2 == 512 ==> name == "sha3-512";
    case Blake2b =>
      assert row.2 == 256 ==> name == "blake2b-256";
      assert row.2 == 512 ==> name == "blake2b-512";
  }

  /** A digest has as many bytes as its bits fill. */
  lemma LengthsAreBits(row: (Algorithm, Family, nat))
    requires row in MODERN
    ensures 8 * HashLength(row.0) == row.2
    ensures 8 * HashLength(Sha1) == 160 && 8 * HashLength(Md4) == 8 * HashLength(Md5) == 128
  {}

  lemma NumbersOfBits()
    ensures Number(224) == "224" && Number(256) == "256" && Number(384) == "384" && Number(512) == "512"
  {
    assert Natural(22) == "22" && Natural(25) == "25" && Natural(38) == "38" && Natural(51) == "51";
  }

  // -------------------------------------------------------------------- properties

  lemma {:induction false} NameIsFound(a: Algorithm, among: seq<Algorithm>)
    requires a in among && AlgorithmName(a).Some?
    ensures AlgorithmOf(AlgorithmName(a).value, among) == Some(a)
  {
    if AlgorithmName(among[0]) == AlgorithmName(a) {
    } else {
      NameIsFound(a, among[1..]);
    }
  }

  lemma NameCharacters(a: Algorithm)
    requires AlgorithmName(a).Some?
    ensures a in ALGORITHMS && Lacks(AlgorithmName(a).value, '+') && AlgorithmName(a).value != "" && AlgorithmName(a).value[0] != 'c'
  {
    assert ALGORITHMS[0] == Sha1 && ALGORITHMS[1] == Md4 && ALGORITHMS[2] == Md5 && ALGORITHMS[3] == Sha224;
    assert ALGORITHMS[4] == Sha256 && ALGORITHMS[5] == Sha384 && ALGORITHMS[6] == Sha512 && ALGORITHMS[7] == Sha3_224;
    assert ALGORITHMS[8] == Sha3_256 && ALGORITHMS[9] == Sha3_384 && ALGORITHMS[10] == Sha3_512;
    assert ALGORITHMS[11] == Blake2b256 && ALGORITHMS[12] == Blake2b512;
  }

  lemma {:induction false} HexLacksPlus(bytes: seq<Byte>)
    ensures Lacks(Hex.ToHex(bytes, Hex.LOWER), '+')
  {
    if bytes != [] { HexLacksPlus(bytes[..|bytes| - 1]); }
  }

  /** How the text of a valid id is taken apart again. */
  lemma TextOfValidId(name: string, digits: string, s: string)
    requires name != "" && name[0] != 'c' && Lacks(name, '+') && Lacks(digits, '+')
    requires s == name + "+" + digits + POSTFIX
    ensures !StartsWith(s, URL) && EndsWith(s, POSTFIX) && '+' in s
    ensures Split(s[..|s| - |POSTFIX|], '+') == [name, digits]
  {
    hide Split;
    assert s[0] == name[0];
    assert s[|name|] == '+';
    assert s[|s| - |POSTFIX|..] == POSTFIX;
    assert s[..|s| - |POSTFIX|] == name + ['+'] + digits;
    SplitPrefix(name, '+', digits);
    SplitNothing(digits, '+');
  }

  lemma ValidIdIsRead(c: ContentId)
    requires IsValid(c)
    ensures FromContentId(ToContentId(c)) == c && ToContentId(c) != "" && !StartsWith(ToContentId(c), URL)
    ensures IsBitsOfBinaryContentId(ToContentId(c), false)
  {
    hide AlgorithmName, AlgorithmOf, HashLength, Split, Hex.ToHex, Hex.FromHex, StartsWith, EndsWith;
    var name, digits := AlgorithmName(c.algorithm).value, Hex.ToHex(c.hash, Hex.LOWER);
    NameCharacters(c.algorithm);
    HexLacksPlus(c.hash);
    TextOfValidId(name, digits, ToContentId(c));
    NameIsFound(c.algorithm, ALGORITHMS);
    Hex.HexRoundTrip(c.hash, Hex.LOWER);
  }

  lemma NothingIsEmpty()
    ensures FromContentId("") == EMPTY && FromCidUrl("") == EMPTY && !IsValid(EMPTY)
  {}

  /** An id survives being written and read exactly when it is valid, or is the empty id itself. */
  lemma ContentIdRoundTripIff(c: ContentId)
    ensures FromContentId(ToContentId(c)) == c <==> IsValid(c) || c == EMPTY
  {
    NothingIsEmpty();
    if IsValid(c) { ValidIdIsRead(c); }
  }

  lemma CidUrlRoundTripIff(c: ContentId)
    ensures FromCidUrl(ToCidUrl(c)) == c <==> IsValid(c) || c == EMPTY
    ensures IsValid(c) ==> IsBitsOfBinaryContentId(ToCidUrl(c), true)
  {
    NothingIsEmpty();
    if IsValid(c) {
      ValidIdIsRead(c);
      var id, url := ToContentId(c), ToCidUrl(c);
      assert url[|URL|..] == id && url[..|URL|] == URL;
      assert url[|url| - |POSTFIX|..] == id[|id| - |POSTFIX|..];
      var k :| 0 <= k < |id| && id[k] == '+';
      assert url[|URL| + k] == '+';
    }
  }

  /** Neither form is read as the other. */
  lemma FormsAreNotConfused(c: ContentId)
    requires IsValid(c)
    ensures FromContentId(ToCidUrl(c)) == EMPTY && FromCidUrl(ToContentId(c)) == EMPTY
  {
    hide ToContentId, AlgorithmName;
    ValidIdIsRead(c);
    var id, url := ToContentId(c), ToCidUrl(c);
    assert url[..|URL|] == URL;
  }

  /** Different valid ids are written differently. */
  lemma ContentIdsAreUnique(c: ContentId, d: ContentId)
    requires IsValid(c) && IsValid(d)
    ensures ToContentId(c) == ToContentId(d) <==> c == d
  {
    ValidIdIsRead(c);
    ValidIdIsRead(d);
  }

  /** What a valid id and its URL look like, character for character. */
  lemma TextOfId(c: ContentId)
    requires IsValid(c)
    ensures var name, id, url := AlgorithmName(c.algorithm).value, ToContentId(c), ToCidUrl(c);
            && |id| == |name| + 1 + 2 * HashLength(c.algorithm) + 13 && url[..4] == "cid:" && url[4..] == id
            && id[..|name|] == name && id[|name|] == '+' && id[|id| - 13..] == "@bob.xmpp.org"
            && forall k :: 0 <= k < |c.hash| ==>
                 && id[|name| + 1 + 2 * k] == "0123456789abcdef"[c.hash[k] / 16]
                 && id[|name| + 2 + 2 * k] == "0123456789abcdef"[c.hash[k] % 16]
  {
    hide AlgorithmName, Hex.ToHex;
    var name, digits, id := AlgorithmName(c.algorithm).value, Hex.ToHex(c.hash, Hex.LOWER), ToContentId(c);
    Hex.ToHexAt(c.hash, Hex.LOWER, 0);
    assert id == name + "+" + digits + "@bob.xmpp.org";
    forall k | 0 <= k < |c.hash|
      ensures id[|name| + 1 + 2 * k] == "0123456789abcdef"[c.hash[k] / 16] && id[|name| + 2 + 2 * k] == "0123456789abcdef"[c.hash[k] % 16]
    {
      Hex.ToHexAt(c.hash, Hex.LOWER, k);
      assert digits[2 * k] == digits[2 * k..2 * k + 2][0] && digits[2 * k + 1] == digits[2 * k..2 * k + 2][1];
    }
  }

  /** A text is read as an id only if it has no URL prefix, ends in the domain and holds one plus sign after the
      name of a supported algorithm; any other text is the empty id. */
  lemma ReadIdIff(input: string, name: string, digits: string)
    requires Lacks(name, '+') && Lacks(digits, '+') && !StartsWith(input, "cid:")
    requires input == name + "+" + digits + "@bob.xmpp.org"
    ensures FromContentId(input)
            == match AlgorithmOf(name, ALGORITHMS) case Some(a) => ContentId(a, Hex.FromHex(digits)) case None => ContentId(Sha1, [])
  {
    hide Split, AlgorithmOf, Hex.FromHex;
    assert input[|input| - 13..] == "@bob.xmpp.org" && input[..|input| - 13] == name + ['+'] + digits;
    SplitPrefix(name, '+', digits);
    SplitNothing(digits, '+');
  }

  lemma OthersAreEmpty(input: string)
    requires StartsWith(input, "cid:") || !EndsWith(input, "@bob.xmpp.org") || |Split(input[..|input| - 13], '+')| != 2
    ensures FromContentId(input) == ContentId(Sha1, [])
  {}

  /** The name finds the algorithm that bears it, and nothing is found for another name. */
  lemma {:induction false} FoundBearsTheName(name: string, among: seq<Algorithm>)
    ensures match AlgorithmOf(name, among)
            case Some(a) => a in among && AlgorithmName(a) == Some(name)
            case None => forall a :: a in among ==> AlgorithmName(a) != Some(name)
  {
    hide AlgorithmName;
    if among != [] { FoundBearsTheName(name, among[1..]); }
  }

  /** A URL is an id after "cid:", and anything else is the empty id. */
  lemma ReadUrlIff(input: string)
    ensures FromCidUrl(input) == if |input| >= 4 && input[..4] == "cid:" then FromContentId(input[4..]) else ContentId(Sha1, [])
  {}
}
