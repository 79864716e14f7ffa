/** encryption.js: key-bit validation, PBKDF2-SHA256 key derivation from the
    packed key bits, AES-256-GCM encryption into a seven-field package, the
    package schema check, the two-way package parser and decryption.
    PBKDF2 and AES-GCM are not modelled; a `Crypto` value stands for the
    platform's implementation and `Sound` states the one law decryption
    needs: opening what was sealed under the same key, IV and associated
    data gives the plaintext back. */
module Encryption {
  import opened JsValue
  import opened Base64Text
  import opened Codec
  import opened KeyBits
  import opened BitPacking

  const Alg: string := "AES-256-GCM"
  const Kdf: string := "PBKDF2-SHA256"
  const DefaultIterations: int := 100000

  /** A derived AES-256 key, as the platform holds it. */
  type Key = seq<Byte>

  datatype Crypto = Crypto(
    /** importKey('raw', bytes, 'PBKDF2') then deriveKey(PBKDF2 SHA-256 with
        salt and iterations, AES-GCM 256); None is a rejected promise */
    pbkdf2: (seq<Byte>, seq<Byte>, int) -> Option<Key>,
    /** subtle.encrypt(AES-GCM, key, iv, additional data, plaintext):
        ciphertext with the tag appended; None is a rejected promise */
    seal: (Key, seq<Byte>, Option<seq<Byte>>, seq<Byte>) -> Option<seq<Byte>>,
    /** subtle.decrypt; None is a failed integrity check or any other rejection */
    open: (Key, seq<Byte>, Option<seq<Byte>>, seq<Byte>) -> Option<seq<Byte>>
  )

  ghost predicate Sound(cr: Crypto) {
    forall k, iv, aad, p :: cr.seal(k, iv, aad, p).Some? ==>
      cr.open(k, iv, aad, cr.seal(k, iv, aad, p).value) == Some(p)
  }

  /** The exceptions these functions throw (their promises reject with). */
  datatype Failure =
    | InvalidKeyBits       // 'Invalid quantum key bits (expected array of 0/1, min length 16)'
    | EmptyPlaintext       // 'Plaintext is empty'
    | InvalidPackage       // 'Invalid encrypted package'
    | MalformedBase64      // atob rejecting a package field
    | KeyDerivationFailed  // importKey / deriveKey rejecting
    | EncryptionFailed     // subtle.encrypt rejecting

  /** A call either returns a value or throws. */
  datatype Outcome<+T> = Returned(value: T) | Threw(failure: Failure)

  // ---------- Key bits ----------

  /** `assertKeyBits`: passes exactly for arrays of at least 16 elements,
      each the number 0 or 1, and yields those bits. */
  function AssertKeyBits(bits: Value): (r: Outcome<seq<int>>)
    ensures r.Returned? <==> ValidBits(bits, MinKeyBits)
    ensures r.Threw? ==> r.failure == InvalidKeyBits
    ensures r.Returned? ==> BitValues(r.value) == bits.items && |r.value| >= MinKeyBits
  {
    if ValidBits(bits, MinKeyBits) then Returned(BitInts(bits.items)) else Threw(InvalidKeyBits)
  }

  /** The cases of the unit test: sixteen alternating bits pass, `[]` and `[2]` do not. */
  lemma AssertKeyBitsCases()
    ensures AssertKeyBits(Arr(BitValues([0, 1, 0, 1, 0, 1, 0, 1, 0, 1, 0, 1, 0, 1, 0, 1]))).Returned?
    ensures AssertKeyBits(Arr([])) == Threw(InvalidKeyBits)
    ensures AssertKeyBits(Arr([Num(2)])) == Threw(InvalidKeyBits)
  {
    var items := BitValues([0, 1, 0, 1, 0, 1, 0, 1, 0, 1, 0, 1, 0, 1, 0, 1]);
    assert AllBits(items);
  }

  // ---------- Key derivation ----------

  datatype Derived = Derived(key: Key, salt: seq<Byte>, iterations: int)

  /** `deriveAesGcmKeyFromBits`: checks the bits before any cryptography,
      packs them into bytes, and derives the key with the caller's salt or,
      when none is given, `freshSalt` (the 16 random bytes the source draws). */
  function DeriveKey(cr: Crypto, bits: Value, salt: Option<seq<Byte>>, freshSalt: seq<Byte>, iterations: int): (r: Outcome<Derived>)
    ensures !ValidBits(bits, MinKeyBits) <==> r == Threw(InvalidKeyBits)
    ensures r.Returned? ==> r.value.salt == salt.GetOr(freshSalt) && r.value.iterations == iterations
    ensures r.Returned? ==>
      (ValidBits(bits, MinKeyBits) && cr.pbkdf2(PackBits(BitInts(bits.items)), r.value.salt, iterations) == Some(r.value.key))
    ensures ValidBits(bits, MinKeyBits) && cr.pbkdf2(PackBits(BitInts(bits.items)), salt.GetOr(freshSalt), iterations).None? ==>
      r == Threw(KeyDerivationFailed)
  {
    match AssertKeyBits(bits)
    case Threw(e) => Threw(e)
    case Returned(ints) =>
      var usedSalt := salt.GetOr(freshSalt);
      match cr.pbkdf2(PackBits(ints), usedSalt, iterations)
      case None => Threw(KeyDerivationFailed)
      case Some(key) => Returned(Derived(key, usedSalt, iterations))
  }

  /** Key arrays that differ only by zeros appended up to the next multiple
      of 8 derive the same key: derivation sees only the packed bytes. */
  lemma DeriveKeyIgnoresZeroPadding(cr: Crypto, bits: seq<int>, k: nat, salt: Option<seq<Byte>>, freshSalt: seq<Byte>, iterations: int)
    requires PackedLength(|bits| + k) == PackedLength(|bits|)
    ensures DeriveKey(cr, Arr(BitValues(bits)), salt, freshSalt, iterations).Returned? ==>
      DeriveKey(cr, Arr(BitValues(bits + seq(k, _ => 0))), salt, freshSalt, iterations)
      == DeriveKey(cr, Arr(BitValues(bits)), salt, freshSalt, iterations)
  {
    var padded := bits + seq(k, _ => 0);
    if ValidBits(Arr(BitValues(bits)), MinKeyBits) {
      assert BitInts(BitValues(bits)) == bits;
      assert BitInts(BitValues(padded)) == padded;
      assert ValidBits(Arr(BitValues(padded)), MinKeyBits);
      PackZeroPadding(bits, k);
    }
  }

  // ---------- The package ----------

  /** The variable fields of a package; `v`, `alg` and `kdf` are fixed. */
  datatype Package = Package(iter: int, iv: string, salt: string, ct: string)

  /** The package object `{v: 1, alg, kdf, iter, iv, salt, ct}`. */
  function PackageValue(p: Package): Value {
    Obj(map[
      "v" := Num(1), "alg" := Str(Alg), "kdf" := Str(Kdf), "iter" := Num(p.iter),
      "iv" := Str(p.iv), "salt" := Str(p.salt), "ct" := Str(p.ct)])
  }

  /** `validateEncryptedPackage` */
  predicate ValidatePackage(v: Value) {
    && Truthy(v)
    && Get(v, "v") == Some(Num(1))
    && Get(v, "alg") == Some(Str(Alg))
    && Get(v, "kdf") == Some(Str(Kdf))
    && Get(v, "iter").Some? && Get(v, "iter").value.Num?
    && HasString(v, "iv")
    && HasString(v, "salt")
    && HasString(v, "ct")
  }

  /** The fields of an object that passed the schema check. */
  function PackageOf(v: Value): Package
    requires ValidatePackage(v)
  {
    Package(v.fields["iter"].n, v.fields["iv"].s, v.fields["salt"].s, v.fields["ct"].s)
  }

  /** `v` carries, under the seven schema keys, exactly what package `p` carries. */
  ghost predicate AgreesWith(v: Value, p: Package) {
    forall k :: k in PackageValue(p).fields ==> Get(v, k) == Get(PackageValue(p), k)
  }

  /** Every package the encrypter can build passes the schema check, and the
      check reads back the fields that were put in. */
  lemma PackageValidates(p: Package)
    ensures ValidatePackage(PackageValue(p))
    ensures PackageOf(PackageValue(p)) == p
  {
  }

  /** The schema check holds exactly of the values that carry the seven
      fields of some package, whatever else they carry. */
  lemma ValidateCharacterised(v: Value)
    ensures ValidatePackage(v) <==> exists p :: AgreesWith(v, p)
  {
    if ValidatePackage(v) {
      ValidatedAgrees(v);
    }
    if p :| AgreesWith(v, p) {
      AgreementValidates(v, p);
    }
  }

  lemma ValidatedAgrees(v: Value)
    requires ValidatePackage(v)
    ensures AgreesWith(v, PackageOf(v))
  {
    var m := PackageValue(PackageOf(v)).fields;
    forall k | k in m ensures Get(v, k) == Get(PackageValue(PackageOf(v)), k) {
      assert k == "v" || k == "alg" || k == "kdf" || k == "iter" || k == "iv" || k == "salt" || k == "ct";
    }
  }

  lemma AgreementValidates(v: Value, p: Package)
    requires AgreesWith(v, p)
    ensures ValidatePackage(v)
  {
    var m := PackageValue(p).fields;
    assert "v" in m && "alg" in m && "kdf" in m && "iter" in m;
    assert "iv" in m && "salt" in m && "ct" in m;
    assert Get(v, "v") == Get(PackageValue(p), "v") == Some(Num(1));
    assert Get(v, "alg") == Get(PackageValue(p), "alg") == Some(Str(Alg));
    assert Get(v, "kdf") == Get(PackageValue(p), "kdf") == Some(Str(Kdf));
    assert Get(v, "iter") == Get(PackageValue(p), "iter") == Some(Num(p.iter));
    assert Get(v, "iv") == Get(PackageValue(p), "iv") == Some(Str(p.iv));
    assert Get(v, "salt") == Get(PackageValue(p), "salt") == Some(Str(p.salt));
    assert Get(v, "ct") == Get(PackageValue(p), "ct") == Some(Str(p.ct));
  }

  /** The parsed object, kept only if it passes the schema check. */
  function Validated(o: Option<Value>): (r: Option<Value>)
    ensures r.Some? ==> ValidatePackage(r.value) && o == r
  {
    match o
    case None => None
    case Some(v) => if ValidatePackage(v) then Some(v) else None
  }

  /** `parseEncryptedPackage`: a non-empty string entirely in the base64
      alphabet is base64-decoded and UTF-8-decoded; any other string is taken
      as JSON text; any other value is re-serialised. The JSON text is parsed
      and the result kept only if it validates; every failure gives `null`. */
  function ParsePackage(c: Codecs, input: Value): (r: Option<Value>)
    ensures r.Some? ==> ValidatePackage(r.value)
    ensures input.Str? && |input.s| > 0 && IsBase64Text(input.s) && c.base64Decode(input.s).None? ==> r.None?
    ensures input.Str? && |input.s| > 0 && IsBase64Text(input.s) && c.base64Decode(input.s).Some? ==>
      r == Validated(c.parse(c.utf8Decode(c.base64Decode(input.s).value)))
  {
    var text :=
      if input.Str? && |input.s| > 0 && IsBase64Text(input.s) then
        match c.base64Decode(input.s)
        case None => None
        case Some(bytes) => Some(c.utf8Decode(bytes))
      else if input.Str? then Some(input.s)
      else Some(c.stringify(input));
    match text
    case None => None
    case Some(t) => Validated(c.parse(t))
  }

  /** A string in the base64 alphabet that does not decode is not a package,
      so decrypting it throws the invalid-package error. */
  lemma DecryptUndecodable(c: Codecs, cr: Crypto, s: string, bits: Value, aad: Aad)
    requires |s| > 0 && IsBase64Text(s) && c.base64Decode(s).None?
    ensures ParsePackage(c, Str(s)).None?
    ensures Decrypt(c, cr, Str(s), bits, aad) == Threw(InvalidPackage)
  {
  }

  /** Strings that are not a base64 token are parsed as JSON text directly. */
  lemma ParseRawText(c: Codecs, s: string)
    requires |s| == 0 || !IsBase64Text(s)
    ensures ParsePackage(c, Str(s)) == Validated(c.parse(s))
  {
  }

  /** A value that is not a string comes back as itself exactly when it
      validates. */
  lemma ParseObject(c: Codecs, input: Value)
    requires Lawful(c)
    requires !input.Str?
    ensures ParsePackage(c, input) == if ValidatePackage(input) then Some(input) else None
  {
  }

  /** The base64 token of any JSON value parses back to that value when it
      validates, and to `null` otherwise. */
  lemma ParseToken(c: Codecs, v: Value)
    requires Lawful(c)
    ensures ParsePackage(c, Str(Token(c, v))) == if ValidatePackage(v) then Some(v) else None
  {
    TokenShape(c, v);
  }

  /** The empty string is not a package. */
  lemma ParseEmpty(c: Codecs)
    requires Lawful(c)
    ensures ParsePackage(c, Str("")) == None
  {
  }

  // ---------- Encryption ----------

  /** The `aad` option: a string is UTF-8 encoded, bytes are used as they are,
      and a falsy value (absent, or the empty string) means no associated data. */
  datatype Aad = NoAad | AadText(text: string) | AadBytes(bytes: seq<Byte>)

  function AdditionalData(c: Codecs, aad: Aad): Option<seq<Byte>> {
    match aad
    case NoAad => None
    case AadText(t) => if |t| > 0 then Some(c.utf8Encode(t)) else None
    case AadBytes(b) => Some(b)
  }

  /** The options object of `encryptTextWithQuantumKey`; an absent `iv` or
      `salt` (or one that is not a Uint8Array) is replaced by random bytes. */
  datatype EncryptOptions = EncryptOptions(iv: Option<seq<Byte>>, salt: Option<seq<Byte>>, iterations: Option<int>, aad: Aad)

  /** The random bytes a call would draw: `randomBytes(16)` for the salt and
      `randomBytes(12)` for the IV. */
  datatype Entropy = Entropy(salt: seq<Byte>, iv: seq<Byte>)

  /** `{ok: true, package, b64}` */
  datatype Encrypted = Encrypted(package: Package, token: string)

  /** `encryptTextWithQuantumKey` */
  function Encrypt(c: Codecs, cr: Crypto, plaintext: Value, bits: Value, opts: EncryptOptions, entropy: Entropy): (r: Outcome<Encrypted>)
    ensures r == Threw(EmptyPlaintext) <==> !(plaintext.Str? && |plaintext.s| > 0)
    ensures plaintext.Str? && |plaintext.s| > 0 && !ValidBits(bits, MinKeyBits) ==> r == Threw(InvalidKeyBits)
    ensures r.Returned? ==> ValidBits(bits, MinKeyBits)
    ensures r.Returned? ==> r.value.package.iter == opts.iterations.GetOr(DefaultIterations)
    ensures r.Returned? ==> r.value.token == Token(c, PackageValue(r.value.package))
    ensures plaintext.Str? && |plaintext.s| > 0 && ValidBits(bits, MinKeyBits) ==>
      var key := cr.pbkdf2(PackBits(BitInts(bits.items)), opts.salt.GetOr(entropy.salt), opts.iterations.GetOr(DefaultIterations));
      && (key.None? ==> r == Threw(KeyDerivationFailed))
      && (key.Some? ==>
            var sealed := cr.seal(key.value, opts.iv.GetOr(entropy.iv), AdditionalData(c, opts.aad), c.utf8Encode(plaintext.s));
            && (sealed.None? <==> r == Threw(EncryptionFailed))
            && (sealed.Some? ==>
                  && r.Returned?
                  && r.value.package.iv == c.base64Encode(opts.iv.GetOr(entropy.iv))
                  && r.value.package.salt == c.base64Encode(opts.salt.GetOr(entropy.salt))
                  && r.value.package.ct == c.base64Encode(sealed.value)))
  {
    if !(plaintext.Str? && |plaintext.s| > 0) then Threw(EmptyPlaintext)
    else
      match DeriveKey(cr, bits, opts.salt, entropy.salt, opts.iterations.GetOr(DefaultIterations))
      case Threw(e) => Threw(e)
      case Returned(d) =>
        var iv := opts.iv.GetOr(entropy.iv);
        match cr.seal(d.key, iv, AdditionalData(c, opts.aad), c.utf8Encode(plaintext.s))
        case None => Threw(EncryptionFailed)
        case Some(ct) =>
          var pkg := Package(d.iterations, c.base64Encode(iv), c.base64Encode(d.salt), c.base64Encode(ct));
          Returned(Encrypted(pkg, Token(c, PackageValue(pkg))))
  }

  // ---------- Decryption ----------

  /** `{ok: true, plaintext}` or `{ok: false, error}` */
  datatype Decrypted = Opened(plaintext: string) | DecryptionFailed

  /** Whether the `iv`, `salt` and `ct` fields of a package all decode. */
  predicate FieldsDecode(c: Codecs, p: Package) {
    c.base64Decode(p.iv).Some? && c.base64Decode(p.salt).Some? && c.base64Decode(p.ct).Some?
  }

  /** Whether decryption gets as far as `subtle.decrypt`: the input parses
      as a package, its three fields decode, and a key derives from the bits
      with the package's salt and iteration count. */
  predicate ReachesAesGcm(c: Codecs, cr: Crypto, input: Value, bits: Value) {
    && ParsePackage(c, input).Some?
    && var p := PackageOf(ParsePackage(c, input).value);
    && FieldsDecode(c, p)
    && DeriveKey(cr, bits, c.base64Decode(p.salt), c.base64Decode(p.salt).value, p.iter).Returned?
  }

  /** What `subtle.decrypt` gives once it is reached. */
  function AesGcmOpen(c: Codecs, cr: Crypto, input: Value, bits: Value, aad: Aad): Option<seq<Byte>>
    requires ReachesAesGcm(c, cr, input, bits)
  {
    var p := PackageOf(ParsePackage(c, input).value);
    var key := DeriveKey(cr, bits, c.base64Decode(p.salt), c.base64Decode(p.salt).value, p.iter).value.key;
    cr.open(key, c.base64Decode(p.iv).value, AdditionalData(c, aad), c.base64Decode(p.ct).value)
  }

  /** `decryptTextWithQuantumKey`: an unparseable package throws before any
      key derivation; so do undecodable base64 fields and bad key bits. Only
      the AES-GCM step and the empty-plaintext check sit inside the `try`,
      so only they produce `{ok: false}`. */
  function Decrypt(c: Codecs, cr: Crypto, input: Value, bits: Value, aad: Aad): (r: Outcome<Decrypted>)
    ensures ParsePackage(c, input).None? <==> r == Threw(InvalidPackage)
    ensures ParsePackage(c, input).Some? && !ValidBits(bits, MinKeyBits) ==> r.Threw?
    ensures r.Returned? ==> ValidBits(bits, MinKeyBits)
    ensures r.Returned? && r.value.Opened? ==> |r.value.plaintext| > 0
    ensures ParsePackage(c, input).Some? && !FieldsDecode(c, PackageOf(ParsePackage(c, input).value)) ==>
      r == Threw(MalformedBase64)
    ensures r.Returned? <==> ReachesAesGcm(c, cr, input, bits)
    ensures ParsePackage(c, input).Some? && FieldsDecode(c, PackageOf(ParsePackage(c, input).value)) ==>
      var p := PackageOf(ParsePackage(c, input).value);
      && (!ValidBits(bits, MinKeyBits) ==> r == Threw(InvalidKeyBits))
      && (ValidBits(bits, MinKeyBits)
          && cr.pbkdf2(PackBits(BitInts(bits.items)), c.base64Decode(p.salt).value, p.iter).None? ==>
            r == Threw(KeyDerivationFailed))
    ensures r == Returned(DecryptionFailed) <==>
      (ReachesAesGcm(c, cr, input, bits)
       && (AesGcmOpen(c, cr, input, bits, aad).None? || |c.utf8Decode(AesGcmOpen(c, cr, input, bits, aad).value)| == 0))
    ensures r.Returned? && r.value.Opened? ==>
      AesGcmOpen(c, cr, input, bits, aad).Some? && r.value.plaintext == c.utf8Decode(AesGcmOpen(c, cr, input, bits, aad).value)
  {
    match ParsePackage(c, input)
    case None => Threw(InvalidPackage)
    case Some(obj) =>
      var p := PackageOf(obj);
      match (c.base64Decode(p.iv), c.base64Decode(p.salt), c.base64Decode(p.ct))
      case (Some(iv), Some(salt), Some(ct)) =>
        (match DeriveKey(cr, bits, Some(salt), salt, p.iter)
         case Threw(e) => Threw(e)
         case Returned(d) =>
           match cr.open(d.key, iv, AdditionalData(c, aad), ct)
           case None => Returned(DecryptionFailed)
           case Some(pt) =>
             var text := c.utf8Decode(pt);
             if |text| == 0 then Returned(DecryptionFailed) else Returned(Opened(text)))
      case _ => Threw(MalformedBase64)
  }

  /** Decrypting what `Encrypt` produced, with the same key bits and the same
      associated data, gives the plaintext back, whether the package is handed
      over as its base64 token or as the package object itself. */
  lemma EncryptDecryptRoundTrip(c: Codecs, cr: Crypto, plaintext: Value, bits: Value, opts: EncryptOptions, entropy: Entropy)
    requires Lawful(c) && Sound(cr)
    requires Encrypt(c, cr, plaintext, bits, opts, entropy).Returned?
    ensures var e := Encrypt(c, cr, plaintext, bits, opts, entropy).value;
      && Decrypt(c, cr, Str(e.token), bits, opts.aad) == Returned(Opened(plaintext.s))
      && Decrypt(c, cr, PackageValue(e.package), bits, opts.aad) == Returned(Opened(plaintext.s))
  {
    var e := Encrypt(c, cr, plaintext, bits, opts, entropy).value;
    var d := DeriveKey(cr, bits, opts.salt, entropy.salt, opts.iterations.GetOr(DefaultIterations)).value;
    var iv := opts.iv.GetOr(entropy.iv);
    var aadBytes := AdditionalData(c, opts.aad);
    var pt := c.utf8Encode(plaintext.s);
    var ct := cr.seal(d.key, iv, aadBytes, pt).value;
    assert e.package == Package(d.iterations, c.base64Encode(iv), c.base64Encode(d.salt), c.base64Encode(ct));
    PackageValidates(e.package);
    ParseToken(c, PackageValue(e.package));
    ParseObject(c, PackageValue(e.package));
    assert DeriveKey(cr, bits, Some(d.salt), d.salt, d.iterations) == Returned(d);
    assert cr.open(d.key, iv, aadBytes, ct) == Some(pt);
  }

  /** The package object of a successful encryption passes the schema check,
      and so does what its token parses back to. */
  lemma EncryptedPackageValidates(c: Codecs, cr: Crypto, plaintext: Value, bits: Value, opts: EncryptOptions, entropy: Entropy)
    requires Lawful(c)
    requires Encrypt(c, cr, plaintext, bits, opts, entropy).Returned?
    ensures var e := Encrypt(c, cr, plaintext, bits, opts, entropy).value;
      && ValidatePackage(PackageValue(e.package))
      && ParsePackage(c, Str(e.token)) == Some(PackageValue(e.package))
  {
    var e := Encrypt(c, cr, plaintext, bits, opts, entropy).value;
    PackageValidates(e.package);
    ParseToken(c, PackageValue(e.package));
  }
}
