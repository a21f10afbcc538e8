// Hash algorithm identifiers of XMPP (XEP-0300) and of the Qt hashing backend,
// the conversions between them, and the strength order used to pick a hash.

module HashAlgorithms {
  import opened Wrappers

  datatype HashAlgorithm =
    | Unknown | Md2 | Md5 | Shake128 | Shake256 | Sha1
    | Sha224 | Sha256 | Sha384 | Sha512 | Sha3_256 | Sha3_512
    | Blake2b_256 | Blake2b_512

  datatype QtAlgorithm =
    | QtMd4 | QtMd5 | QtSha1 | QtSha224 | QtSha256 | QtSha384 | QtSha512
    | QtKeccak_224 | QtKeccak_256 | QtKeccak_384 | QtKeccak_512
    | QtSha3_224 | QtSha3_256 | QtSha3_384 | QtSha3_512
    | QtBlake2b_160 | QtBlake2b_256 | QtBlake2b_384 | QtBlake2b_512
    | QtBlake2s_128 | QtBlake2s_160 | QtBlake2s_224 | QtBlake2s_256

  function ToHashAlgorithm(algorithm: QtAlgorithm): HashAlgorithm {
    match algorithm
    case QtMd5 => Md5
    case QtSha1 => Sha1
    case QtSha224 => Sha224
    case QtSha256 => Sha256
    case QtSha384 => Sha384
    case QtSha512 => Sha512
    case QtSha3_256 => Sha3_256
    case QtSha3_512 => Sha3_512
    case QtBlake2b_256 => Blake2b_256
    case QtBlake2b_512 => Blake2b_512
    case _ => Unknown
  }

  function ToCryptographicHashAlgorithm(algorithm: HashAlgorithm): Option<QtAlgorithm> {
    match algorithm
    case Unknown | Md2 | Shake128 | Shake256 => None
    case Md5 => Some(QtMd5)
    case Sha1 => Some(QtSha1)
    case Sha224 => Some(QtSha224)
    case Sha256 => Some(QtSha256)
    case Sha384 => Some(QtSha384)
    case Sha512 => Some(QtSha512)
    case Sha3_256 => Some(QtSha3_256)
    case Sha3_512 => Some(QtSha3_512)
    case Blake2b_256 => Some(QtBlake2b_256)
    case Blake2b_512 => Some(QtBlake2b_512)
  }

  predicate IsHashingAlgorithmSecure(algorithm: HashAlgorithm) {
    match algorithm
    case Unknown | Md2 | Md5 | Shake128 | Shake256 | Sha1 => false
    case _ => true
  }

  function HashPriority(algorithm: HashAlgorithm): nat {
    match algorithm
    case Unknown => 0
    case Md2 => 1
    case Md5 => 2
    case Shake128 => 3
    case Shake256 => 4
    case Sha1 => 5
    case Sha224 => 6
    case Sha256 => 7
    case Sha384 => 8
    case Sha512 => 9
    // BLAKE2 is preferred over SHA-3, and 512 bits over 256 bits.
    case Sha3_256 => 10
    case Blake2b_256 => 11
    case Sha3_512 => 12
    case Blake2b_512 => 13
  }

  // ------------------------------------------------ what the tables say of the algorithms

  datatype Family =
    | NoFamily | Md2Family | Md4Family | Md5Family | Sha1Family | ShakeFamily | Sha2Family | KeccakFamily | Sha3Family
    | Blake2bFamily | Blake2sFamily

  /** The construction an identifier stands for and the bits of its digest; for Shake the bits of its strength. */
  datatype Kind = Kind(family: Family, bits: nat)

  function KindOf(algorithm: HashAlgorithm): Kind {
    match algorithm
    case Unknown => Kind(NoFamily, 0)
    case Md2 => Kind(Md2Family, 128)
    case Md5 => Kind(Md5Family, 128)
    case Shake128 => Kind(ShakeFamily, 128)
    case Shake256 => Kind(ShakeFamily, 256)
    case Sha1 => Kind(Sha1Family, 160)
    case Sha224 => Kind(Sha2Family, 224)
    case Sha256 => Kind(Sha2Family, 256)
    case Sha384 => Kind(Sha2Family, 384)
    case Sha512 => Kind(Sha2Family, 512)
    case Sha3_256 => Kind(Sha3Family, 256)
    case Sha3_512 => Kind(Sha3Family, 512)
    case Blake2b_256 => Kind(Blake2bFamily, 256)
    case Blake2b_512 => Kind(Blake2bFamily, 512)
  }

  function QtKindOf(algorithm: QtAlgorithm): Kind {
    match algorithm
    case QtMd4 => Kind(Md4Family, 128)
    case QtMd5 => Kind(Md5Family, 128)
    case QtSha1 => Kind(Sha1Family, 160)
    case QtSha224 => Kind(Sha2Family, 224)
    case QtSha256 => Kind(Sha2Family, 256)
    case QtSha384 => Kind(Sha2Family, 384)
    case QtSha512 => Kind(Sha2Family, 512)
    case QtKeccak_224 => Kind(KeccakFamily, 224)
    case QtKeccak_256 => Kind(KeccakFamily, 256)
    case QtKeccak_384 => Kind(KeccakFamily, 384)
    case QtKeccak_512 => Kind(KeccakFamily, 512)
    case QtSha3_224 => Kind(Sha3Family, 224)
    case QtSha3_256 => Kind(Sha3Family, 256)
    case QtSha3_384 => Kind(Sha3Family, 384)
    case QtSha3_512 => Kind(Sha3Family, 512)
    case QtBlake2b_160 => Kind(Blake2bFamily, 160)
    case QtBlake2b_256 => Kind(Blake2bFamily, 256)
    case QtBlake2b_384 => Kind(Blake2bFamily, 384)
    case QtBlake2b_512 => Kind(Blake2bFamily, 512)
    case QtBlake2s_128 => Kind(Blake2sFamily, 128)
    case QtBlake2s_160 => Kind(Blake2sFamily, 160)
    case QtBlake2s_224 => Kind(Blake2sFamily, 224)
    case QtBlake2s_256 => Kind(Blake2sFamily, 256)
  }

  /** The families that are not broken and have a fixed digest. */
  predicate IsModern(algorithm: HashAlgorithm) {
    KindOf(algorithm).family in {Sha2Family, Sha3Family, Blake2bFamily}
  }

  /** The order of preference among modern algorithms: SHA-2 last and by size, then by size, then BLAKE2 over SHA-3. */
  predicate IsPreferred(a: HashAlgorithm, b: HashAlgorithm) {
    var x, y := KindOf(a), KindOf(b);
    if x.family == Sha2Family || y.family == Sha2Family then
      y.family == Sha2Family && (x.family != Sha2Family || x.bits > y.bits)
    else
      x.bits > y.bits || (x.bits == y.bits && x.family == Blake2bFamily && y.family == Sha3Family)
  }

  /** The strength filter lets exactly the modern algorithms through, and the priorities are the preferences. */
  lemma SecurityIsModernity(a: HashAlgorithm, b: HashAlgorithm)
    ensures IsHashingAlgorithmSecure(a) <==> IsModern(a)
    ensures IsModern(a) && IsModern(b) ==> (HashPriority(a) > HashPriority(b) <==> IsPreferred(a, b))
    ensures KindOf(a) == KindOf(b) ==> a == b
  {}

  /** Conversions keep family and digest size; every algorithm with a counterpart converts. */
  lemma ConversionsKeepTheKind(algorithm: HashAlgorithm, qt: QtAlgorithm)
    ensures ToHashAlgorithm(qt) == algorithm && algorithm != Unknown <==> KindOf(algorithm) == QtKindOf(qt)
    ensures ToCryptographicHashAlgorithm(algorithm) == Some(qt) <==> KindOf(algorithm) == QtKindOf(qt)
  {}

  /** An algorithm that passes the strength filter can always be handed to the backend. */
  lemma SecureAlgorithmsAreSupported(algorithm: HashAlgorithm)
    requires IsHashingAlgorithmSecure(algorithm)
    ensures ToCryptographicHashAlgorithm(algorithm).Some?
  {}

  /** Converting to the backend's enumeration and back loses nothing. */
  lemma BackendConversionRoundTrip(algorithm: HashAlgorithm)
    ensures ToCryptographicHashAlgorithm(algorithm).Some? ==>
              ToHashAlgorithm(ToCryptographicHashAlgorithm(algorithm).value) == algorithm
  {}

  /** All algorithms from the weakest to the strongest. */
  const RANKING: seq<HashAlgorithm> :=
    [Unknown, Md2, Md5, Shake128, Shake256, Sha1, Sha224, Sha256, Sha384, Sha512, Sha3_256, Blake2b_256, Sha3_512, Blake2b_512]

  lemma PriorityIsRank(k: nat)
    requires k < |RANKING|
    ensures HashPriority(RANKING[k]) == k
  {}

  /** The strength order separates secure from insecure algorithms and never ties. */
  lemma PriorityOrder(a: HashAlgorithm, b: HashAlgorithm)
    ensures HashPriority(a) == HashPriority(b) ==> a == b
    ensures IsHashingAlgorithmSecure(a) && !IsHashingAlgorithmSecure(b) ==> HashPriority(a) > HashPriority(b)
  {}
}
