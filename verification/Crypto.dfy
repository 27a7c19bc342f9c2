/** The library primitives as a record of functions with the laws the program
    relies on, and the program's own wrappers around them: the AES-GCM helper
    (crypto.h), the session (session.h) and the KEM wrapper (kem_kyber.cpp).
    Randomness and library failures are arguments. */
module Crypto {
  import opened ByteStrings

  const KEY_SIZE := 32
  const NONCE_SIZE := 12
  const TAG_SIZE := 16

  // Kyber-512 sizes
  const PK_LEN := 800
  const SK_LEN := 1632
  const CT_LEN := 768
  const SS_LEN := 32

  datatype Error =
    | IdentityNotLoaded | LibraryFailure | SizeMismatch | SerializeFailed
    | SendFailed | ReceiveFailed | Malformed | SignatureRejected
    | SessionMissing | KeySize | NonceSize | TooShort | TagRejected
    | OpenFailed | BadMagic | BadVersion | Corrupt | ReadFailed | WriteFailed

  datatype Primitives = Primitives(
    gcmSeal: (Bytes, Bytes, Bytes) -> (Bytes, Bytes),
    gcmOpen: (Bytes, Bytes, Bytes, Bytes) -> Option<Bytes>,
    publicOf: Bytes -> Bytes,
    sign: (Bytes, Bytes) -> Bytes,
    verify: (Bytes, Bytes, Bytes) -> bool,
    kemKeypair: Bytes -> (Bytes, Bytes),
    kemEncaps: (Bytes, Bytes) -> (Bytes, Bytes),
    kemDecaps: (Bytes, Bytes) -> Bytes,
    hkdf: Bytes -> Bytes,
    sha256: Bytes -> Bytes,
    pbkdf2: (Bytes, Bytes, nat) -> Option<Bytes>)

  ghost predicate GcmLaws(p: Primitives)
  {
    forall k, n, x :: var (ct, tag) := p.gcmSeal(k, n, x);
                      |ct| == |x| && |tag| == TAG_SIZE && p.gcmOpen(k, n, ct, tag) == Some(x)
  }

  ghost predicate SignatureLaws(p: Primitives)
  {
    && (forall priv :: |p.publicOf(priv)| == 32)
    && (forall priv, m :: |p.sign(priv, m)| == 64 && p.verify(p.publicOf(priv), m, p.sign(priv, m)))
  }

  ghost predicate KemLaws(p: Primitives)
  {
    && (forall coins :: |p.kemKeypair(coins).0| == PK_LEN && |p.kemKeypair(coins).1| == SK_LEN)
    && (forall pk, coins :: |p.kemEncaps(pk, coins).0| == CT_LEN && |p.kemEncaps(pk, coins).1| == SS_LEN)
    && (forall c, d :: p.kemDecaps(p.kemKeypair(c).1, p.kemEncaps(p.kemKeypair(c).0, d).0)
                       == p.kemEncaps(p.kemKeypair(c).0, d).1)
  }

  ghost predicate DigestLaws(p: Primitives)
  {
    && (forall x :: |p.hkdf(x)| == KEY_SIZE)
    && (forall x :: |p.sha256(x)| == 32)
    && (forall pw, salt, n :: p.pbkdf2(pw, salt, n).Some? ==> |p.pbkdf2(pw, salt, n).value| == KEY_SIZE)
  }

  ghost predicate Lawful(p: Primitives)
  {
    GcmLaws(p) && SignatureLaws(p) && KemLaws(p) && DigestLaws(p)
  }

  /** The laws can hold together. */
  lemma LawsHoldTogether() returns (p: Primitives)
    ensures Lawful(p)
  {
    p := Primitives(
      (k, n, x) => (x, seq(TAG_SIZE, _ => 0)),
      (k, n, ct, tag) => Some(ct),
      priv => seq(32, _ => 0),
      (priv, m) => seq(64, _ => 0),
      (pub, m, sig) => true,
      coins => (seq(PK_LEN, _ => 0), seq(SK_LEN, _ => 0)),
      (pk, coins) => (seq(CT_LEN, _ => 0), seq(SS_LEN, _ => 0)),
      (sk, ct) => seq(SS_LEN, _ => 0),
      x => seq(KEY_SIZE, _ => 0),
      x => seq(32, _ => 0),
      (pw, salt, n) => Some(seq(KEY_SIZE, _ => 0)));
  }

  // ----- AES-GCM helper -----

  function Seal(p: Primitives, key: Bytes, nonce: Bytes, plain: Bytes): (r: Result<Bytes, Error>)
  {
    if |key| != KEY_SIZE then Err(KeySize)
    else if |nonce| != NONCE_SIZE then Err(NonceSize)
    else Ok(p.gcmSeal(key, nonce, plain).0 + p.gcmSeal(key, nonce, plain).1)
  }

  function Open(p: Primitives, key: Bytes, nonce: Bytes, box: Bytes): (r: Result<Bytes, Error>)
  {
    if |key| != KEY_SIZE then Err(KeySize)
    else if |nonce| != NONCE_SIZE then Err(NonceSize)
    else if |box| < TAG_SIZE then Err(TooShort)
    else match p.gcmOpen(key, nonce, box[..|box| - TAG_SIZE], box[|box| - TAG_SIZE..])
         case None => Err(TagRejected)
         case Some(plain) => Ok(plain)
  }

  /** The outcome when the cipher calls may fail: they are made once the sizes are in order,
      and the tag is looked at last. */
  function IfWorks(works: bool, r: Result<Bytes, Error>): Result<Bytes, Error>
  {
    if !works && (r.Ok? || r.error.TagRejected?) then Err(LibraryFailure) else r
  }

  lemma OpenSeal(p: Primitives, key: Bytes, nonce: Bytes, plain: Bytes)
    requires GcmLaws(p)
    ensures |key| == KEY_SIZE && |nonce| == NONCE_SIZE <==> Seal(p, key, nonce, plain).Ok?
    ensures Seal(p, key, nonce, plain).Ok? ==>
              && |Seal(p, key, nonce, plain).value| == |plain| + TAG_SIZE
              && Open(p, key, nonce, Seal(p, key, nonce, plain).value) == Ok(plain)
  {
  }

  /** The ciphertext comes first and the 16 octets of the tag last. */
  lemma SealLayout(p: Primitives, key: Bytes, nonce: Bytes, plain: Bytes)
    requires GcmLaws(p) && Seal(p, key, nonce, plain).Ok?
    ensures var box := Seal(p, key, nonce, plain).value;
            && (box[..|plain|], box[|plain|..]) == p.gcmSeal(key, nonce, plain)
            && |box| - |plain| == 16
  {
    var (ct, tag) := p.gcmSeal(key, nonce, plain);
    assert |p.gcmSeal(key, nonce, plain).0| == |plain| && |p.gcmSeal(key, nonce, plain).1| == TAG_SIZE;
    assert (ct + tag)[..|ct|] == ct && (ct + tag)[|ct|..] == tag;
  }

  /** Success needs working cipher calls, and a failed call hides whatever they would have said. */
  lemma FailedCipher(r: Result<Bytes, Error>, works: bool)
    ensures IfWorks(works, r).Ok? <==> works && r.Ok?
    ensures IfWorks(false, r) != Err(TagRejected) && IfWorks(true, r) == r
  {
  }

  class AesGcm {
    const key: Bytes

    constructor (key: Bytes)
      requires |key| == KEY_SIZE
      ensures this.key == key
    {
      this.key := key;
    }

    method Encrypt(p: Primitives, plain: Bytes, nonce: Bytes, works: bool) returns (r: Result<Bytes, Error>)
      requires |key| == KEY_SIZE
      ensures r == IfWorks(works, Seal(p, key, nonce, plain))
    {
      if |nonce| != NONCE_SIZE {
        return Err(NonceSize);
      }
      if !works {
        return Err(LibraryFailure);
      }
      var (ct, tag) := p.gcmSeal(key, nonce, plain);
      var out := [];
      out := out + ct;
      out := out + tag;
      assert out == ct + tag;
      return Ok(out);
    }

    method Decrypt(p: Primitives, box: Bytes, nonce: Bytes, works: bool) returns (r: Result<Bytes, Error>)
      requires |key| == KEY_SIZE
      ensures r == IfWorks(works, Open(p, key, nonce, box))
    {
      if |nonce| != NONCE_SIZE {
        return Err(NonceSize);
      }
      if |box| < TAG_SIZE {
        return Err(TooShort);
      }
      if !works {
        return Err(LibraryFailure);
      }
      var ctLen := |box| - TAG_SIZE;
      match p.gcmOpen(key, nonce, box[..ctLen], box[ctLen..])
      case None => return Err(TagRejected);
      case Some(plain) => return Ok(plain);
    }
  }

  // ----- Session -----

  function SessionSeal(p: Primitives, key: Bytes, nonce: Bytes, plain: Bytes): Result<Bytes, Error>
  {
    if key == [] then Err(SessionMissing) else Seal(p, key, nonce, plain)
  }

  function SessionOpen(p: Primitives, key: Bytes, nonce: Bytes, box: Bytes): Result<Bytes, Error>
  {
    if key == [] then Err(SessionMissing) else Open(p, key, nonce, box)
  }

  class Session {
    var key: Bytes

    constructor ()
      ensures key == []
    {
      key := [];
    }

    method SetKey(k: Bytes)
      modifies this
      ensures key == k
    {
      key := k;
    }

    method Encrypt(p: Primitives, plain: Bytes, nonce: Bytes, works: bool) returns (r: Result<Bytes, Error>)
      ensures r == IfWorks(works, SessionSeal(p, key, nonce, plain))
    {
      if key == [] {
        return Err(SessionMissing);
      }
      if |key| != KEY_SIZE {
        return Err(KeySize);
      }
      var crypto := new AesGcm(key);
      r := crypto.Encrypt(p, plain, nonce, works);
    }

    method Decrypt(p: Primitives, box: Bytes, nonce: Bytes, works: bool) returns (r: Result<Bytes, Error>)
      ensures r == IfWorks(works, SessionOpen(p, key, nonce, box))
    {
      if key == [] {
        return Err(SessionMissing);
      }
      if |key| != KEY_SIZE {
        return Err(KeySize);
      }
      var crypto := new AesGcm(key);
      r := crypto.Decrypt(p, box, nonce, works);
    }
  }

  // ----- KEM wrapper -----

  /** `coins` is None when the library call fails. */
  function Encapsulated(p: Primitives, pk: Bytes, coins: Option<Bytes>): Result<(Bytes, Bytes), Error>
  {
    if |pk| != PK_LEN then Err(SizeMismatch)
    else if coins.None? then Err(LibraryFailure)
    else Ok(p.kemEncaps(pk, coins.value))
  }

  function Decapsulated(p: Primitives, ct: Bytes, sk: Bytes, works: bool): Result<Bytes, Error>
  {
    if |ct| != CT_LEN || |sk| != SK_LEN then Err(SizeMismatch)
    else if !works then Err(LibraryFailure)
    else Ok(p.kemDecaps(sk, ct))
  }

  class KyberKem {
    var ready: bool

    constructor ()
      ensures !ready
    {
      ready := false;
    }

    method Init(available: bool) returns (r: Result<(), Error>)
      modifies this
      ensures ready == available
      ensures r == if available then Ok(()) else Err(LibraryFailure)
    {
      ready := available;
      r := if ready then Ok(()) else Err(LibraryFailure);
    }

    method Keypair(p: Primitives, coins: Option<Bytes>) returns (r: Result<(Bytes, Bytes), Error>)
      ensures r == if ready && coins.Some? then Ok(p.kemKeypair(coins.value)) else Err(LibraryFailure)
    {
      if !ready {
        return Err(LibraryFailure);
      }
      match coins
      case None => return Err(LibraryFailure);
      case Some(c) => return Ok(p.kemKeypair(c));
    }

    method Encapsulate(p: Primitives, pk: Bytes, coins: Option<Bytes>) returns (r: Result<(Bytes, Bytes), Error>)
      ensures r == if ready then Encapsulated(p, pk, coins) else Err(LibraryFailure)
    {
      if !ready {
        return Err(LibraryFailure);
      }
      if |pk| != PK_LEN {
        return Err(SizeMismatch);
      }
      match coins
      case None => return Err(LibraryFailure);
      case Some(c) => return Ok(p.kemEncaps(pk, c));
    }

    method Decapsulate(p: Primitives, ct: Bytes, sk: Bytes, works: bool) returns (r: Result<Bytes, Error>)
      ensures r == if ready then Decapsulated(p, ct, sk, works) else Err(LibraryFailure)
    {
      if !ready {
        return Err(LibraryFailure);
      }
      if |ct| != CT_LEN || |sk| != SK_LEN {
        return Err(SizeMismatch);
      }
      if !works {
        return Err(LibraryFailure);
      }
      return Ok(p.kemDecaps(sk, ct));
    }
  }
}
