/** The password-protected identity file (identity.cpp): its byte layout, the
    printer, and the parser over an input stream whose failure is sticky. */
module IdentityStore {
  import opened ByteStrings
  import opened Crypto

  const FILE_VERSION := 1
  const PBKDF2_ITERS := 200000
  const MAGIC: Bytes := Ascii("E2EEID01")
  const MAX_SALT := 1024
  const PUB_LEN := 32
  const MAX_BOX := 4096
  const MAX_PROFILE := 5196

  datatype Identity = Identity(pub: Bytes, priv: Bytes) {
    predicate IsLoaded() { pub != [] && priv != [] }
  }

  /** Both halves are there and belong together. */
  predicate Genuine(p: Primitives, id: Identity) { id.IsLoaded() && id.pub == p.publicOf(id.priv) }

  const EMPTY := Identity([], [])

  /** What a profile file holds. */
  datatype Profile = Profile(iterations: nat, salt: Bytes, nonce: Bytes, pub: Bytes, box: Bytes)

  predicate ValidProfile(f: Profile)
  {
    && f.iterations < TWO_32
    && 1 <= |f.salt| <= MAX_SALT
    && |f.nonce| == NONCE_SIZE
    && |f.pub| == PUB_LEN
    && TAG_SIZE <= |f.box| <= MAX_BOX
  }

  /** A counted field: its length in network order, then its octets. */
  function Counted(x: Bytes): Bytes { Be32(|x|) + x }

  function PrintProfile(f: Profile): Bytes
  {
    MAGIC + (Be32(FILE_VERSION) + (Be32(f.iterations)
                                   + (Counted(f.salt) + (Counted(f.nonce) + (Counted(f.pub) + Counted(f.box))))))
  }

  // ----- Reference parser: whole fields off the front, no partial reads -----

  function TakeU32(b: Bytes): (r: Option<(nat, Bytes)>)
    ensures r.Some? ==> r.value.0 < TWO_32
  {
    if |b| < 4 then None else Some((FromBe32(b[..4]), b[4..]))
  }

  function TakeCounted(b: Bytes, least: nat, most: nat): (r: Option<(Bytes, Bytes)>)
    ensures r.Some? ==> least <= |r.value.0| <= most
  {
    var (n, rest) :- TakeU32(b);
    if n < least || most < n || |rest| < n then None else Some((rest[..n], rest[n..]))
  }

  /** What stands before the public key, and what follows. */
  function HeadOf(b: Bytes): (r: Option<((nat, Bytes, Bytes), Bytes)>)
    ensures r.Some? ==> r.value.0.0 < TWO_32 && 1 <= |r.value.0.1| <= MAX_SALT && |r.value.0.2| == NONCE_SIZE
  {
    if |b| < 8 || b[..8] != MAGIC then None
    else
      var (version, b1) :- TakeU32(b[8..]);
      if version != FILE_VERSION then None
      else
        var (iterations, b2) :- TakeU32(b1);
        var (salt, b3) :- TakeCounted(b2, 1, MAX_SALT);
        var (nonce, b4) :- TakeCounted(b3, NONCE_SIZE, NONCE_SIZE);
        Some(((iterations, salt, nonce), b4))
  }

  function ProfileOf(b: Bytes): (r: Option<Profile>)
    ensures r.Some? ==> ValidProfile(r.value)
  {
    var ((iterations, salt, nonce), b4) :- HeadOf(b);
    var (pub, b5) :- TakeCounted(b4, PUB_LEN, PUB_LEN);
    var (box, _) :- TakeCounted(b5, TAG_SIZE, MAX_BOX);
    Some(Profile(iterations, salt, nonce, pub, box))
  }

  lemma TakeU32Exact(b: Bytes, n: nat, rest: Bytes)
    ensures TakeU32(b) == Some((n, rest)) <==> n < TWO_32 && b == Be32(n) + rest
  {
    Be32RoundTrip(n);
    if TakeU32(b) == Some((n, rest)) {
      FromBe32RoundTrip(b[..4]);
      assert b == b[..4] + b[4..];
    } else if b == Be32(n) + rest {
      assert b[..4] == Be32(n) && b[4..] == rest;
    }
  }

  lemma TakeCountedExact(b: Bytes, least: nat, most: nat, x: Bytes, rest: Bytes)
    requires most < TWO_32
    ensures TakeCounted(b, least, most) == Some((x, rest)) <==> least <= |x| <= most && b == Counted(x) + rest
  {
    TakeU32Exact(b, |x|, x + rest);
    assert Counted(x) + rest == Be32(|x|) + (x + rest);
    assert (x + rest)[..|x|] == x && (x + rest)[|x|..] == rest;
    if TakeCounted(b, least, most) == Some((x, rest)) {
      var r := TakeU32(b).value.1;
      assert r == x + rest;
    }
  }

  /** Printer and parser undo each other: a file is accepted as f exactly when f is
      in range and the printed f is what the file starts with. */
  lemma AcceptedIffPrinted(b: Bytes, f: Profile)
    ensures ProfileOf(b) == Some(f) <==> ValidProfile(f) && PrintProfile(f) <= b
  {
    if ProfileOf(b) == Some(f) {
      AcceptedReprints(b, f);
    }
    if ValidProfile(f) && PrintProfile(f) <= b {
      PrintedParses(f, b[|PrintProfile(f)|..]);
      assert b == PrintProfile(f) + b[|PrintProfile(f)|..];
    }
  }

  lemma PrintedParses(f: Profile, rest: Bytes)
    requires ValidProfile(f)
    ensures ProfileOf(PrintProfile(f) + rest) == Some(f)
  {
    var b5 := Counted(f.box) + rest;
    var b4 := Counted(f.pub) + b5;
    var b3 := Counted(f.nonce) + b4;
    var b2 := Counted(f.salt) + b3;
    var b1 := Be32(f.iterations) + b2;
    var b0 := Be32(FILE_VERSION) + b1;
    var b := PrintProfile(f) + rest;
    assert b == MAGIC + b0;
    assert b[..8] == MAGIC && b[8..] == b0;
    TakeU32Exact(b0, FILE_VERSION, b1);
    TakeU32Exact(b1, f.iterations, b2);
    TakeCountedExact(b2, 1, MAX_SALT, f.salt, b3);
    TakeCountedExact(b3, NONCE_SIZE, NONCE_SIZE, f.nonce, b4);
    TakeCountedExact(b4, PUB_LEN, PUB_LEN, f.pub, b5);
    TakeCountedExact(b5, TAG_SIZE, MAX_BOX, f.box, rest);
  }

  lemma AcceptedReprints(b: Bytes, f: Profile)
    requires ProfileOf(b) == Some(f)
    ensures PrintProfile(f) <= b && |PrintProfile(f)| <= MAX_PROFILE
  {
    var (version, b1) := TakeU32(b[8..]).value;
    var (iterations, b2) := TakeU32(b1).value;
    var (salt, b3) := TakeCounted(b2, 1, MAX_SALT).value;
    var (nonce, b4) := TakeCounted(b3, NONCE_SIZE, NONCE_SIZE).value;
    var (pub, b5) := TakeCounted(b4, PUB_LEN, PUB_LEN).value;
    var (box, rest) := TakeCounted(b5, TAG_SIZE, MAX_BOX).value;
    TakeCountedExact(b5, TAG_SIZE, MAX_BOX, box, rest);
    TakeCountedExact(b4, PUB_LEN, PUB_LEN, pub, b5);
    Prepend(b4, Counted(pub), b5, Counted(box), rest);
    TakeCountedExact(b3, NONCE_SIZE, NONCE_SIZE, nonce, b4);
    Prepend(b3, Counted(nonce), b4, Counted(pub) + Counted(box), rest);
    TakeCountedExact(b2, 1, MAX_SALT, salt, b3);
    Prepend(b2, Counted(salt), b3, Counted(nonce) + (Counted(pub) + Counted(box)), rest);
    var s2 := Counted(salt) + (Counted(nonce) + (Counted(pub) + Counted(box)));
    TakeU32Exact(b1, iterations, b2);
    Prepend(b1, Be32(iterations), b2, s2, rest);
    TakeU32Exact(b[8..], version, b1);
    Prepend(b[8..], Be32(version), b1, Be32(iterations) + s2, rest);
    Prepend(b, MAGIC, b[8..], Be32(version) + (Be32(iterations) + s2), rest);
  }

  lemma Prepend(b: Bytes, front: Bytes, tail: Bytes, middle: Bytes, rest: Bytes)
    requires |front| <= |b| && b[..|front|] == front && b[|front|..] == tail && tail == middle + rest
    ensures b == (front + middle) + rest
  {
  }

  /** Every strict prefix of a printed profile is rejected, wherever the cut falls,
      and whatever follows a printed profile changes nothing. */
  lemma TruncatedOrExtended(f: Profile, b: Bytes)
    requires ValidProfile(f)
    ensures b <= PrintProfile(f) && b != PrintProfile(f) ==> ProfileOf(b).None?
    ensures PrintProfile(f) <= b ==> ProfileOf(b) == Some(f)
  {
    AcceptedIffPrinted(b, f);
    if b <= PrintProfile(f) && b != PrintProfile(f) && ProfileOf(b).Some? {
      var g := ProfileOf(b).value;
      AcceptedIffPrinted(b, g);
      assert PrintProfile(g) <= PrintProfile(f);
      AcceptedIffPrinted(PrintProfile(f), g);
      AcceptedIffPrinted(PrintProfile(f), f);
    }
  }

  // ----- The stream the loader reads: failure is sticky -----

  function Overwrite(buffer: Bytes, input: Bytes): (r: Bytes)
    ensures |r| == |buffer|
  {
    if |buffer| <= |input| then input[..|buffer|] else input + buffer[|input|..]
  }

  /** vector::resize: keeps what fits, pads with zeros. */
  function Resize(b: Bytes, n: nat): (r: Bytes)
    ensures |r| == n
  {
    if n <= |b| then b[..n] else b + seq(n - |b|, _ => 0)
  }

  class InputStream {
    const data: Bytes
    var pos: nat
    var good: bool

    predicate Valid()
      reads this
    {
      pos <= |data|
    }

    function Rest(): Bytes
      requires Valid()
      reads this
    {
      data[pos..]
    }

    constructor (data: Bytes)
      ensures this.data == data && pos == 0 && good && Valid()
    {
      this.data := data;
      pos, good := 0, true;
    }

    /** istream::read into a buffer: a failed stream leaves the buffer alone; a short
        one fills what there is, keeps the remainder of the buffer, and fails. */
    method Read(into: Bytes) returns (buffer: Bytes)
      requires Valid()
      modifies this
      ensures Valid()
      ensures good <==> old(good) && |into| <= |old(Rest())|
      ensures good ==> old(Rest()) == buffer + Rest()
      ensures buffer == if old(good) then Overwrite(into, old(Rest())) else into
    {
      if !good {
        return into;
      }
      var n := |into|;
      buffer := Overwrite(into, data[pos..]);
      if n <= |data| - pos {
        pos := pos + n;
      } else {
        pos, good := |data|, false;
      }
    }

    /** A 4-octet read into a zeroed integer, then ntohl. */
    method ReadU32() returns (n: nat)
      requires Valid()
      modifies this
      ensures Valid()
      ensures good <==> old(good) && TakeU32(old(Rest())).Some?
      ensures good ==> TakeU32(old(Rest())) == Some((n, Rest()))
      ensures !good ==> n % 256 == 0
      ensures !old(good) ==> n == 0
    {
      var buffer := Read([0, 0, 0, 0]);
      n := FromBe32(buffer);
      assert good ==> old(Rest())[..4] == buffer && old(Rest())[4..] == Rest();
    }

    /** A length, its range check, then that many octets into a resized vector. */
    method ReadCounted(least: nat, most: nat, vector: Bytes) returns (r: Option<Bytes>)
      requires Valid() && 0 < least
      modifies this
      ensures Valid()
      ensures r.Some? && good <==> old(good) && TakeCounted(old(Rest()), least, most).Some?
      ensures r.Some? && good ==> TakeCounted(old(Rest()), least, most) == Some((r.value, Rest()))
      ensures !old(good) ==> r.None?
      ensures least == most && least % 256 != 0 ==>
                (r.Some? <==> old(good) && TakeU32(old(Rest())).Some? && TakeU32(old(Rest())).value.0 == least)
      ensures least == most && least % 256 != 0 && r.Some? ==>
                r.value == Overwrite(Resize(vector, least), TakeU32(old(Rest())).value.1)
    {
      var n := ReadU32();
      if n < least || most < n {
        return None;
      }
      ghost var rest := Rest();
      var buffer := Read(Resize(vector, n));
      assert good ==> rest[..n] == buffer && rest[n..] == Rest();
      return Some(buffer);
    }
  }

  // ----- Loading and creating -----

  function Unlock(p: Primitives, f: Profile, password: Bytes): Result<Bytes, Error>
  {
    match p.pbkdf2(password, f.salt, f.iterations)
    case None => Err(LibraryFailure)
    case Some(key) => Open(p, key, f.nonce, f.box)
  }

  /** What follows the public-key length, if the file is in order up to there. */
  function AfterPubLength(b: Bytes): Option<Bytes>
  {
    var (_, b4) :- HeadOf(b);
    var (n, b5) :- TakeU32(b4);
    if n != PUB_LEN then None else Some(b5)
  }

  /** The identity a failed load leaves behind: the private key is the old one, the
      public key is overwritten as soon as its length has been accepted. */
  function AfterFailedLoad(b: Bytes, before: Identity): Identity
  {
    match AfterPubLength(b)
    case None => before
    case Some(rest) => before.(pub := Overwrite(Resize(before.pub, PUB_LEN), rest))
  }

  method DecryptProfile(p: Primitives, f: Profile, password: Bytes, works: bool) returns (r: Result<Bytes, Error>)
    ensures r == IfWorks(works, Unlock(p, f, password))
  {
    match p.pbkdf2(password, f.salt, f.iterations)
    case None => return Err(LibraryFailure);
    case Some(key) =>
      if |key| != KEY_SIZE {
        return Err(KeySize);
      }
      var crypto := new AesGcm(key);
      r := crypto.Decrypt(p, f.box, f.nonce, works);
  }

  /** The identity in a file, None if the file or the password is wrong. */
  function Loaded(p: Primitives, file: Option<Bytes>, password: Bytes): Option<Identity>
  {
    var b :- file;
    var f :- ProfileOf(b);
    match Unlock(p, f, password)
    case Err(_) => None
    case Ok(priv) => Some(Identity(f.pub, priv))
  }

  /** The stream up to the nonce; `junk` is the uninitialised buffer the magic is read into. */
  method ReadHead(f: InputStream, junk: Bytes) returns (r: Result<(nat, Bytes, Bytes), Error>)
    requires f.Valid() && f.pos == 0 && f.good && |junk| == 8
    modifies f
    ensures f.Valid()
    ensures r.Ok? && f.good <==> HeadOf(f.data).Some?
    ensures r.Ok? && f.good ==> HeadOf(f.data) == Some((r.value, f.Rest()))
  {
    var magic := f.Read(junk);
    assert f.good ==> f.data[..8] == magic && f.data[8..] == f.Rest();
    if magic != MAGIC {
      return Err(BadMagic);
    }
    var version := f.ReadU32();
    if version != FILE_VERSION {
      return Err(BadVersion);
    }
    var iterations := f.ReadU32();
    var salt := f.ReadCounted(1, MAX_SALT, []);
    if salt.None? {
      return Err(Corrupt);
    }
    var nonce := f.ReadCounted(NONCE_SIZE, NONCE_SIZE, []);
    if nonce.None? {
      return Err(Corrupt);
    }
    return Ok((iterations, salt.value, nonce.value));
  }

  /** The whole reading part. */
  method ReadProfile(b: Bytes, junk: Bytes, before: Identity) returns (r: Result<Profile, Error>, out: Identity)
    requires |junk| == 8
    ensures r.Ok? <==> ProfileOf(b).Some?
    ensures r.Ok? ==> r.value == ProfileOf(b).value && out == before.(pub := r.value.pub)
    ensures out == AfterFailedLoad(b, before)
  {
    out := before;
    var f := new InputStream(b);
    var head := ReadHead(f, junk);
    if head.Err? {
      return Err(head.error), out;
    }
    var (iterations, salt, nonce) := head.value;
    var pub := f.ReadCounted(PUB_LEN, PUB_LEN, out.pub);
    if pub.None? {
      return Err(Corrupt), out;
    }
    out := out.(pub := pub.value);
    assert out == AfterFailedLoad(f.data, before);
    var box := f.ReadCounted(TAG_SIZE, MAX_BOX, []);
    if box.None? {
      return Err(Corrupt), out;
    }
    if !f.good {
      return Err(ReadFailed), out;
    }
    return Ok(Profile(iterations, salt, nonce, pub.value, box.value)), out;
  }

  /** `works` is whether the cipher calls succeed. */
  method LoadProfile(p: Primitives, file: Option<Bytes>, password: Bytes, junk: Bytes, before: Identity, works: bool)
    returns (r: Result<(), Error>, out: Identity)
    requires |junk| == 8
    ensures r.Ok? <==> Loaded(p, file, password).Some? && works
    ensures r.Ok? ==> Some(out) == Loaded(p, file, password)
    ensures r.Err? ==> out == if file.None? then before else AfterFailedLoad(file.value, before)
  {
    if file.None? {
      return Err(OpenFailed), before;
    }
    var profile;
    profile, out := ReadProfile(file.value, junk, before);
    if profile.Err? {
      return Err(profile.error), out;
    }
    var unlocked := DecryptProfile(p, profile.value, password, works);
    match unlocked
    case Err(e) => return Err(e), out;
    case Ok(priv) => return Ok(()), out.(priv := priv);
  }

  /** A wrong password on a well-formed profile replaces the public key and keeps the
      private one; only a load that never gets to the public key changes nothing. */
  lemma FailedLoadEffect(b: Bytes, before: Identity)
    ensures ProfileOf(b).Some? ==> AfterFailedLoad(b, before) == Identity(ProfileOf(b).value.pub, before.priv)
    ensures AfterFailedLoad(b, EMPTY).IsLoaded() == false
    ensures |before.pub| == PUB_LEN ==> (AfterFailedLoad(b, before) == before <==> PublicKeyKept(b, before.pub))
  {
  }

  /** The file fails before the public key, or has nothing but this key there, cut perhaps. */
  predicate PublicKeyKept(b: Bytes, pub: Bytes)
  {
    match AfterPubLength(b)
    case None => true
    case Some(rest) => rest <= pub || pub <= rest
  }

  /** A failed load keeps a genuine identity genuine exactly when it keeps the public key;
      in any case the identity stays loaded. */
  lemma FailedLoadGenuine(p: Primitives, b: Bytes, before: Identity)
    requires SignatureLaws(p) && Genuine(p, before)
    ensures AfterFailedLoad(b, before).IsLoaded()
    ensures Genuine(p, AfterFailedLoad(b, before)) <==> PublicKeyKept(b, before.pub)
  {
  }

  /** Another identity's profile, whole under a wrong password or cut anywhere behind its
      public key, leaves a loaded identity whose halves do not belong together. */
  lemma FailedLoadMixesKeys(p: Primitives, f: Profile, b: Bytes, before: Identity)
    requires SignatureLaws(p) && Genuine(p, before) && ValidProfile(f) && f.pub != before.pub
    requires b <= PrintProfile(f) && |PrintProfile(f)| <= |b| + |Counted(f.box)|
    ensures b != PrintProfile(f) ==> ProfileOf(b).None?
    ensures AfterFailedLoad(b, before) == Identity(f.pub, before.priv)
    ensures AfterFailedLoad(b, before).IsLoaded() && !Genuine(p, AfterFailedLoad(b, before))
  {
    TruncatedOrExtended(f, b);
    CutBehindKey(f, b);
    FailedLoadGenuine(p, b, before);
  }

  lemma CutBehindKey(f: Profile, b: Bytes)
    requires ValidProfile(f) && b <= PrintProfile(f) && |PrintProfile(f)| <= |b| + |Counted(f.box)|
    ensures AfterPubLength(b).Some? && f.pub <= AfterPubLength(b).value
  {
    HeadPrinted(f);
    var rest := b[|Head(f)|..];
    assert b == Head(f) + rest;
    HeadParses(f, rest);
  }

  /** A profile up to its public-key length. */
  function Head(f: Profile): Bytes
  {
    MAGIC + (Be32(FILE_VERSION) + (Be32(f.iterations) + (Counted(f.salt) + (Counted(f.nonce) + Be32(PUB_LEN)))))
  }

  lemma HeadParses(f: Profile, rest: Bytes)
    requires ValidProfile(f)
    ensures AfterPubLength(Head(f) + rest) == Some(rest)
  {
    var b4 := Be32(PUB_LEN) + rest;
    var b3 := Counted(f.nonce) + b4;
    var b2 := Counted(f.salt) + b3;
    var b1 := Be32(f.iterations) + b2;
    var b0 := Be32(FILE_VERSION) + b1;
    var b := Head(f) + rest;
    assert b == MAGIC + b0;
    assert b[..8] == MAGIC && b[8..] == b0;
    TakeU32Exact(b0, FILE_VERSION, b1);
    TakeU32Exact(b1, f.iterations, b2);
    TakeCountedExact(b2, 1, MAX_SALT, f.salt, b3);
    TakeCountedExact(b3, NONCE_SIZE, NONCE_SIZE, f.nonce, b4);
    TakeU32Exact(b4, PUB_LEN, rest);
  }

  lemma HeadPrinted(f: Profile)
    requires ValidProfile(f)
    ensures PrintProfile(f) == Head(f) + (f.pub + Counted(f.box))
  {
  }

  // ----- Creating -----

  /** The profile written for a private key with the drawn salt and nonce. */
  function CreatedProfile(p: Primitives, password: Bytes, priv: Bytes, salt: Bytes, nonce: Bytes)
    : Result<Profile, Error>
  {
    match p.pbkdf2(password, salt, PBKDF2_ITERS)
    case None => Err(LibraryFailure)
    case Some(key) =>
      match Seal(p, key, nonce, priv)
      case Err(e) => Err(e)
      case Ok(box) => Ok(Profile(PBKDF2_ITERS, salt, nonce, p.publicOf(priv), box))
  }

  /** Key generation: it fails, it fails while the raw keys are read out and leaves `left`
      behind, or it draws a private key. */
  datatype KeyDraw = NoKey | HalfRead(left: Identity) | Key(priv: Bytes)

  /** What creating a profile depends on: the draws, None if the generator fails; whether
      the cipher calls succeed and the file opens; whether the stream is still good at the
      check that ends the writing, and how many octets get to the file, which is flushed
      only after that check. */
  datatype Draws = Draws(key: KeyDraw, salt: Option<Bytes>, nonce: Option<Bytes>,
                         seals: bool, writable: bool, good: bool, takes: nat)
  {
    predicate Sized() { (salt.Some? ==> |salt.value| == 16) && (nonce.Some? ==> |nonce.value| == NONCE_SIZE) }

    function Left(p: Primitives, before: Identity): Identity
    {
      match key
      case NoKey => before
      case HalfRead(left) => left
      case Key(priv) => Identity(p.publicOf(priv), priv)
    }
  }

  /** The profile the draws give, None if anything fails before the file is opened. */
  function DrawnProfile(p: Primitives, password: Bytes, d: Draws): Option<Profile>
  {
    if !d.key.Key? || d.salt.None? || d.nonce.None? || !d.seals then None
    else match CreatedProfile(p, password, d.key.priv, d.salt.value, d.nonce.value)
         case Err(_) => None
         case Ok(f) => Some(f)
  }

  /** The first octets of b, as many as are taken. */
  function FirstOf(b: Bytes, takes: nat): Bytes { if |b| <= takes then b else b[..takes] }

  /** The part that seals the private key. */
  method SealProfile(p: Primitives, password: Bytes, d: Draws) returns (r: Result<Profile, Error>)
    requires d.Sized() && d.key.Key?
    ensures r.Ok? <==> DrawnProfile(p, password, d).Some?
    ensures r.Ok? ==> Some(r.value) == DrawnProfile(p, password, d)
  {
    if d.salt.None? {
      return Err(LibraryFailure);
    }
    var salt, priv := d.salt.value, d.key.priv;
    match p.pbkdf2(password, salt, PBKDF2_ITERS)
    case None => return Err(LibraryFailure);
    case Some(key) =>
      if d.nonce.None? {
        return Err(LibraryFailure);
      }
      var nonce := d.nonce.value;
      if |key| != KEY_SIZE {
        return Err(KeySize);
      }
      var crypto := new AesGcm(key);
      var sealed := crypto.Encrypt(p, priv, nonce, d.seals);
      match sealed
      case Err(e) => return Err(e);
      case Ok(box) => return Ok(Profile(PBKDF2_ITERS, salt, nonce, p.publicOf(priv), box));
  }

  /** The part that writes the fields one after the other. */
  method WriteFields(f: Profile) returns (b: Bytes)
    ensures b == PrintProfile(f)
  {
    b := MAGIC + Be32(FILE_VERSION);
    b := b + Be32(f.iterations);
    b := b + Be32(|f.salt|) + f.salt;
    b := b + Be32(|f.nonce|) + f.nonce;
    b := b + Be32(|f.pub|) + f.pub;
    b := b + Be32(|f.box|) + f.box;
  }

  /** `file` is what the profile path holds afterwards, None if it was not opened. */
  method CreateProfile(p: Primitives, password: Bytes, before: Identity, d: Draws)
    returns (r: Result<(), Error>, out: Identity, file: Option<Bytes>)
    requires d.Sized()
    ensures out == d.Left(p, before)
    ensures r.Ok? <==> DrawnProfile(p, password, d).Some? && d.writable && d.good
    ensures file == if DrawnProfile(p, password, d).Some? && d.writable
                    then Some(FirstOf(PrintProfile(DrawnProfile(p, password, d).value), d.takes)) else None
  {
    out := d.Left(p, before);
    if !d.key.Key? {
      return Err(LibraryFailure), out, None;
    }
    var profile := SealProfile(p, password, d);
    if profile.Err? {
      return Err(profile.error), out, None;
    }
    if !d.writable {
      return Err(WriteFailed), out, None;
    }
    var b := WriteFields(profile.value);
    return if d.good then Ok(()) else Err(WriteFailed), out, Some(FirstOf(b, d.takes));
  }

  /** Loading what was created, with the same password, gives back the identity, also
      when the file has grown at the end; a cut file gives nothing. */
  lemma CreateThenLoad(p: Primitives, password: Bytes, priv: Bytes, salt: Bytes, nonce: Bytes, file: Bytes)
    requires Lawful(p) && |salt| == 16 && |nonce| == NONCE_SIZE && |priv| == 32
    requires CreatedProfile(p, password, priv, salt, nonce).Ok?
    ensures var f := CreatedProfile(p, password, priv, salt, nonce).value;
            && (PrintProfile(f) <= file ==>
                  ProfileOf(file) == Some(f) && f.pub == p.publicOf(priv) && Unlock(p, f, password) == Ok(priv))
            && (file <= PrintProfile(f) && file != PrintProfile(f) ==> ProfileOf(file).None?)
  {
    var f := CreatedProfile(p, password, priv, salt, nonce).value;
    OpenSeal(p, p.pbkdf2(password, salt, PBKDF2_ITERS).value, nonce, priv);
    TruncatedOrExtended(f, file);
  }

  /** After creating, the same password loads the identity exactly when the whole profile
      got to the file; the check that ends the writing does not tell. */
  lemma CreatedLoads(p: Primitives, password: Bytes, d: Draws)
    requires Lawful(p) && d.Sized() && DrawnProfile(p, password, d).Some? && |d.key.priv| == 32
    ensures var whole := PrintProfile(DrawnProfile(p, password, d).value);
            Loaded(p, Some(FirstOf(whole, d.takes)), password) ==
            if |whole| <= d.takes then Some(Identity(p.publicOf(d.key.priv), d.key.priv)) else None
  {
    var whole := PrintProfile(DrawnProfile(p, password, d).value);
    CreateThenLoad(p, password, d.key.priv, d.salt.value, d.nonce.value, FirstOf(whole, d.takes));
  }

  // ----- Octets on disk -----

  lemma ProfileLimits(f: Profile)
    ensures ValidProfile(f) <==>
            && f.iterations < 4294967296 && 1 <= |f.salt| <= 1024 && |f.nonce| == 12
            && |f.pub| == 32 && 16 <= |f.box| <= 4096
    ensures ValidProfile(f) ==> |PrintProfile(f)| == 76 + |f.salt| + |f.box|
  {
  }

  lemma MagicOctets()
    ensures MAGIC == [69, 50, 69, 69, 73, 68, 48, 49]
  {
    var s := "E2EEID01";
    assert s[0] == 'E' && s[1] == '2' && s[2] == 'E' && s[3] == 'E';
    assert s[4] == 'I' && s[5] == 'D' && s[6] == '0' && s[7] == '1';
  }

  /** A created profile is these 140 octets: the magic, version 1, 200000 iterations, and four
      fields, each behind its length. */
  lemma CreatedLayout(p: Primitives, password: Bytes, priv: Bytes, salt: Bytes, nonce: Bytes)
    requires Lawful(p) && |salt| == 16 && |nonce| == NONCE_SIZE && |priv| == 32
    requires CreatedProfile(p, password, priv, salt, nonce).Ok?
    ensures var f := CreatedProfile(p, password, priv, salt, nonce).value;
            && PrintProfile(f) ==
               [69, 50, 69, 69, 73, 68, 48, 49] + [0, 0, 0, 1] + [0, 3, 13, 64] + [0, 0, 0, 16] + salt
               + [0, 0, 0, 12] + nonce + [0, 0, 0, 32] + p.publicOf(priv) + [0, 0, 0, 48] + f.box
            && |PrintProfile(f)| == 140 && |f.box| == 48
  {
    var f := CreatedProfile(p, password, priv, salt, nonce).value;
    OpenSeal(p, p.pbkdf2(password, salt, PBKDF2_ITERS).value, nonce, priv);
    assert |p.publicOf(priv)| == 32;
    MagicOctets();
    SmallNumbers();
    FlatProfile(f);
  }

  lemma SmallNumbers()
    ensures Be32(1) == [0, 0, 0, 1] && Be32(200000) == [0, 3, 13, 64] && Be32(16) == [0, 0, 0, 16]
    ensures Be32(12) == [0, 0, 0, 12] && Be32(32) == [0, 0, 0, 32] && Be32(48) == [0, 0, 0, 48]
  {
  }

  lemma FlatProfile(f: Profile)
    ensures PrintProfile(f) ==
            MAGIC + Be32(FILE_VERSION) + Be32(f.iterations) + Be32(|f.salt|) + f.salt
            + Be32(|f.nonce|) + f.nonce + Be32(|f.pub|) + f.pub + Be32(|f.box|) + f.box
  {
  }

  /** Loading takes the salt and the number of iterations from the file: a profile sealed under
      the key derived with its own numbers loads, whatever they are. */
  lemma StoredNumbersUsed(p: Primitives, f: Profile, password: Bytes, key: Bytes, priv: Bytes, rest: Bytes)
    requires Lawful(p) && ValidProfile(f)
    requires p.pbkdf2(password, f.salt, f.iterations) == Some(key) && Seal(p, key, f.nonce, priv) == Ok(f.box)
    ensures Loaded(p, Some(PrintProfile(f) + rest), password) == Some(Identity(f.pub, priv))
  {
    assert |p.pbkdf2(password, f.salt, f.iterations).value| == KEY_SIZE;
    OpenSeal(p, key, f.nonce, priv);
    PrintedParses(f, rest);
  }

  /** A file cut inside its public key: the octets that are there replace the old ones, and
      an identity without a key gets zeros behind them. */
  lemma CutInKey(f: Profile, k: nat, before: Identity)
    requires ValidProfile(f) && k <= PUB_LEN
    ensures var after := AfterFailedLoad(Head(f) + f.pub[..k], before);
            && after.priv == before.priv
            && (|before.pub| == PUB_LEN ==> after.pub == f.pub[..k] + before.pub[k..])
            && (before.pub == [] ==> after.pub == f.pub[..k] + seq(PUB_LEN - k, _ => 0))
  {
    HeadParses(f, f.pub[..k]);
    Overlaid(f.pub[..k], before.pub);
  }

  lemma Overlaid(front: Bytes, was: Bytes)
    requires |front| <= PUB_LEN
    ensures |was| == PUB_LEN ==> Overwrite(Resize(was, PUB_LEN), front) == front + was[|front|..]
    ensures was == [] ==> Overwrite(Resize(was, PUB_LEN), front) == front + seq(PUB_LEN - |front|, _ => 0)
  {
  }

  // ----- Fingerprints -----

  const HEX_DIGITS := "0123456789abcdef"

  function Hex(h: Bytes): (s: string)
    ensures |s| == 2 * |h|
    ensures forall c :: c in s ==> c in HEX_DIGITS
  {
    if h == [] then ""
    else [HEX_DIGITS[h[0] as int / 16], HEX_DIGITS[h[0] as int % 16]] + Hex(h[1..])
  }

  lemma HexAppend(a: Bytes, b: Bytes)
    ensures Hex(a + b) == Hex(a) + Hex(b)
  {
    if a == [] {
      assert a + b == b;
    } else {
      assert (a + b)[1..] == a[1..] + b;
    }
  }

  lemma {:induction false} HexInjective(a: Bytes, b: Bytes)
    requires Hex(a) == Hex(b)
    ensures a == b
  {
    if a != [] && b != [] {
      assert Hex(a)[0] == Hex(b)[0] && Hex(a)[1] == Hex(b)[1];
      assert a[0] == b[0] by { HexDigitsDistinct(); }
      assert Hex(a)[2..] == Hex(a[1..]) && Hex(b)[2..] == Hex(b[1..]);
      HexInjective(a[1..], b[1..]);
      assert a == [a[0]] + a[1..] && b == [b[0]] + b[1..];
    }
  }

  lemma HexDigitsDistinct()
    ensures forall i, j :: 0 <= i < j < 16 ==> HEX_DIGITS[i] != HEX_DIGITS[j]
  {
  }

  /** Two lower-case digits an octet, the high half first. */
  lemma {:induction false} HexAt(h: Bytes, i: nat)
    requires i < |h|
    ensures Hex(h)[2 * i] == LowerDigit(h[i] as nat / 16) && Hex(h)[2 * i + 1] == LowerDigit(h[i] as nat % 16)
  {
    DigitValues(h[0] as nat / 16);
    DigitValues(h[0] as nat % 16);
    if i > 0 {
      HexAt(h[1..], i - 1);
      assert Hex(h)[2..] == Hex(h[1..]);
    }
  }

  function LowerDigit(d: nat): char
    requires d < 16
  {
    if d < 10 then '0' + d as char else 'a' + (d - 10) as char
  }

  lemma DigitValues(d: nat)
    requires d < 16
    ensures HEX_DIGITS[d] == LowerDigit(d)
  {
  }

  function Fingerprint(p: Primitives, pub: Bytes): string { Hex(p.sha256(pub)) }

  /** The fingerprint spells the digest of the public key. */
  lemma FingerprintAt(p: Primitives, pub: Bytes, i: nat)
    requires DigestLaws(p) && i < 32
    ensures var s, h := Fingerprint(p, pub), p.sha256(pub);
            |s| == 64 && s[2 * i] == LowerDigit(h[i] as nat / 16) && s[2 * i + 1] == LowerDigit(h[i] as nat % 16)
  {
    assert |p.sha256(pub)| == 32;
    HexAt(p.sha256(pub), i);
  }

  method FingerprintHex(p: Primitives, pub: Bytes) returns (s: string)
    ensures s == Fingerprint(p, pub)
  {
    var h := p.sha256(pub);
    s := "";
    for i := 0 to |h|
      invariant s == Hex(h[..i])
    {
      s := s + [HEX_DIGITS[h[i] as int / 16]] + [HEX_DIGITS[h[i] as int % 16]];
      HexAppend(h[..i], [h[i]]);
      assert h[..i + 1] == h[..i] + [h[i]];
    }
    assert h[..|h|] == h;
  }
}
