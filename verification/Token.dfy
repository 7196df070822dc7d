/** Tokens: a hash over the public key and a salt, signed, printed as five fields with dots between them. */
module Token {
  import opened Prelude
  import opened Base64
  import opened Fields
  import opened Wire
  import opened Endian

  /** An Ed25519 key: the DER form of its public half, and signing. */
  datatype SigningKey = SigningKey(der: Bytes, sign: Bytes -> Bytes)

  /** The trait `VerifyingTokenKey`. */
  datatype VerifyingKey = VerifyingKey(signatureMethod: string, der: Bytes, verify: (Bytes, Bytes) -> bool)

  /** `to_verifying_key`: same public key, and what one signs the other verifies. */
  ghost predicate Belongs(pub: VerifyingKey, key: SigningKey) {
    && pub.signatureMethod == ED25519 && pub.der == key.der
    && forall m :: pub.verify(m, key.sign(m))
  }

  const SHA256: string := "sha256"
  const ED25519: string := "ed25519"

  datatype Check = Accepted | Refused | Panics

  function Digest(sha: Bytes -> Bytes, der: Bytes, salt: Bytes): Bytes {
    sha(der + salt)
  }

  function TokenFields(sha: Bytes -> Bytes, signMethod: string, der: Bytes, salt: Bytes, signature: Bytes): seq<string> {
    [SHA256, Encode(Digest(sha, der, salt)), Encode(salt), signMethod, Encode(signature)]
  }

  function GenerateTokenNonce(sha: Bytes -> Bytes, key: SigningKey, salt: Bytes): string {
    var digest := Digest(sha, key.der, salt);
    Join(TokenFields(sha, ED25519, key.der, salt, key.sign(digest)), '.')
  }

  /** `verify_token_with_result`; fewer than five fields are an out-of-range slice. */
  function VerifyToken(sha: Bytes -> Bytes, key: VerifyingKey, token: string, saltOk: Bytes -> bool): Check {
    var parts := Split(token, '.');
    if |parts| < 5 then Panics
    else if parts[0] != SHA256 then Refused
    else if parts[3] != key.signatureMethod then Refused
    else match Decode(parts[2])
      case None => Refused
      case Some(salt) =>
        if !saltOk(salt) then Refused
        else
          var digest := Digest(sha, key.der, salt);
          if Encode(digest) != parts[1] then Refused
          else match Decode(parts[4])
            case None => Refused
            case Some(signature) => if key.verify(digest, signature) then Accepted else Refused
  }

  function VerifyTokenNonce(sha: Bytes -> Bytes, key: VerifyingKey, token: string, nonce: Bytes): Check {
    VerifyToken(sha, key, token, salt => salt == nonce)
  }

  /** What `VerifyToken` accepts: the five fields printed for an acceptable salt and a valid signature, possibly followed by more. */
  ghost predicate Genuine(sha: Bytes -> Bytes, key: VerifyingKey, token: string, salt: Bytes, signature: Bytes) {
    var parts := Split(token, '.');
    && |parts| >= 5
    && parts[..5] == ["sha256", Encode(sha(key.der + salt)), Encode(salt), key.signatureMethod, Encode(signature)]
    && key.verify(sha(key.der + salt), signature)
  }

  lemma VerifyExact(sha: Bytes -> Bytes, key: VerifyingKey, token: string, saltOk: Bytes -> bool)
    ensures VerifyToken(sha, key, token, saltOk).Accepted? <==> exists salt, signature :: saltOk(salt) && Genuine(sha, key, token, salt, signature)
    ensures VerifyToken(sha, key, token, saltOk).Panics? <==> |Split(token, '.')| < 5
  {
    hide Split, Encode, Decode;
    var parts := Split(token, '.');
    if VerifyToken(sha, key, token, saltOk).Accepted? {
      EncodeDecode(parts[2]);
      EncodeDecode(parts[4]);
      var salt, signature := Decode(parts[2]).value, Decode(parts[4]).value;
      assert parts[..5] == TokenFields(sha, key.signatureMethod, key.der, salt, signature);
      assert saltOk(salt) && Genuine(sha, key, token, salt, signature);
    }
    if salt, signature :| saltOk(salt) && Genuine(sha, key, token, salt, signature) {
      GenuinePasses(sha, key, token, saltOk, salt, signature);
    }
  }

  lemma GenuinePasses(sha: Bytes -> Bytes, key: VerifyingKey, token: string, saltOk: Bytes -> bool, salt: Bytes, signature: Bytes)
    requires saltOk(salt) && Genuine(sha, key, token, salt, signature)
    ensures VerifyToken(sha, key, token, saltOk).Accepted?
  {
    hide Split, Encode, Decode;
    var parts := Split(token, '.');
    var fields := TokenFields(sha, key.signatureMethod, key.der, salt, signature);
    assert forall i :: 0 <= i < 5 ==> parts[i] == parts[..5][i] == fields[i];
    assert parts[0] == fields[0] && parts[1] == fields[1] && parts[2] == fields[2] && parts[3] == fields[3] && parts[4] == fields[4];
    DecodeEncode(salt);
    DecodeEncode(signature);
  }

  /** The printed fields: the hash is over public key and salt, and the hash is what is signed. */
  lemma GeneratedFields(sha: Bytes -> Bytes, key: SigningKey, salt: Bytes)
    ensures Split(GenerateTokenNonce(sha, key, salt), '.')
         == ["sha256", Encode(sha(key.der + salt)), Encode(salt), "ed25519", Encode(key.sign(sha(key.der + salt)))]
  {
    var digest := Digest(sha, key.der, salt);
    var fields := TokenFields(sha, ED25519, key.der, salt, key.sign(digest));
    NoDot(digest);
    NoDot(salt);
    NoDot(key.sign(digest));
    SplitJoin(fields, '.');
  }

  /** A generated token passes under the key it belongs to exactly when its salt is acceptable. */
  lemma GeneratedPasses(sha: Bytes -> Bytes, key: SigningKey, pub: VerifyingKey, salt: Bytes, saltOk: Bytes -> bool)
    requires Belongs(pub, key)
    ensures VerifyToken(sha, pub, GenerateTokenNonce(sha, key, salt), saltOk) == if saltOk(salt) then Accepted else Refused
  {
    var digest := Digest(sha, key.der, salt);
    GeneratedFields(sha, key, salt);
    DecodeEncode(salt);
    DecodeEncode(key.sign(digest));
  }

  lemma NonceRoundTrip(sha: Bytes -> Bytes, key: SigningKey, pub: VerifyingKey, salt: Bytes, nonce: Bytes)
    requires Belongs(pub, key)
    ensures VerifyTokenNonce(sha, pub, GenerateTokenNonce(sha, key, salt), nonce).Accepted? <==> nonce == salt
  {
    GeneratedPasses(sha, key, pub, salt, s => s == nonce);
  }

  /** The nonce check accepts exactly the genuine tokens whose salt is the nonce. */
  lemma NonceExact(sha: Bytes -> Bytes, key: VerifyingKey, token: string, nonce: Bytes)
    ensures VerifyTokenNonce(sha, key, token, nonce).Accepted? <==> exists signature :: Genuine(sha, key, token, nonce, signature)
  {
    VerifyExact(sha, key, token, salt => salt == nonce);
  }

  /** What an accepted token was signed over: the hash of the key and this very nonce. */
  lemma SignedOverNonce(sha: Bytes -> Bytes, key: VerifyingKey, token: string, nonce: Bytes)
    requires VerifyTokenNonce(sha, key, token, nonce).Accepted?
    ensures var parts := Split(token, '.');
            && |parts| >= 5 && parts[1] == Encode(sha(key.der + nonce))
            && Decode(parts[4]).Some? && key.verify(sha(key.der + nonce), Decode(parts[4]).value)
  {
  }

  /** Whatever else is changed in a token, its signature serves one nonce only, if hashes do not collide and a signature fits one message. */
  lemma SignatureBindsNonce(sha: Bytes -> Bytes, key: VerifyingKey, token: string, token': string, nonce: Bytes, nonce': Bytes)
    requires forall x, y :: sha(x) == sha(y) ==> x == y
    requires forall m, m', signature :: key.verify(m, signature) && key.verify(m', signature) ==> m == m'
    requires VerifyTokenNonce(sha, key, token, nonce).Accepted? && VerifyTokenNonce(sha, key, token', nonce').Accepted?
    requires Split(token, '.')[4] == Split(token', '.')[4]
    ensures nonce == nonce'
  {
    SignedOverNonce(sha, key, token, nonce);
    SignedOverNonce(sha, key, token', nonce');
    assert key.der + nonce == key.der + nonce';
    assert (key.der + nonce)[|key.der|..] == nonce && (key.der + nonce')[|key.der|..] == nonce';
  }

  /** No token is accepted under two nonces, whatever the two keys. */
  lemma OneNonce(sha: Bytes -> Bytes, key: VerifyingKey, key': VerifyingKey, token: string, nonce: Bytes, nonce': Bytes)
    requires VerifyTokenNonce(sha, key, token, nonce).Accepted?
    requires VerifyTokenNonce(sha, key', token, nonce').Accepted?
    ensures nonce == nonce' && key.signatureMethod == key'.signatureMethod
    ensures sha(key.der + nonce) == sha(key'.der + nonce')
  {
    DecodeEncode(Digest(sha, key.der, nonce));
    DecodeEncode(Digest(sha, key'.der, nonce'));
  }

  /** `extract_signature_identifier`. */
  function ExtractSignatureIdentifier(token: string): Option<string> {
    var parts := Split(token, '.');
    if |parts| > 3 then Some(parts[3]) else None
  }

  /** The identifier of an accepted token names the method of the key that accepted it. */
  lemma IdentifierSelectsMethod(sha: Bytes -> Bytes, key: VerifyingKey, token: string, saltOk: Bytes -> bool)
    requires VerifyToken(sha, key, token, saltOk).Accepted?
    ensures ExtractSignatureIdentifier(token) == Some(key.signatureMethod)
  {
  }

  /** The identifier is the fourth of the fields between the dots, if there are so many. */
  lemma IdentifierIsFourthField(parts: seq<string>)
    requires parts != [] && forall p <- parts :: '.' !in p
    ensures ExtractSignatureIdentifier(Join(parts, '.')) == if |parts| >= 4 then Some(parts[3]) else None
  {
    SplitJoin(parts, '.');
  }

  /** The identifier of a printed token is that of the only method tokens are signed with. */
  lemma GeneratedIdentifier(sha: Bytes -> Bytes, key: SigningKey, salt: Bytes)
    ensures ExtractSignatureIdentifier(GenerateTokenNonce(sha, key, salt)) == Some("ed25519")
  {
    GeneratedFields(sha, key, salt);
  }

  // ---- Timestamps ----

  const HOUR: nat := 60 * 60

  function WrappingSub(a: u64, b: u64): u64 {
    (a - b) % WORD
  }

  predicate Recent(now: u64, salt: Bytes) {
    |salt| == 8 && FromLittleEndian(salt) < WORD && WrappingSub(now, FromLittleEndian(salt)) <= HOUR
  }

  function GenerateTokenTimestamp(sha: Bytes -> Bytes, key: SigningKey, time: u64): string {
    GenerateTokenNonce(sha, key, LittleEndian(time, 8))
  }

  function VerifyTokenTimestamp(sha: Bytes -> Bytes, key: VerifyingKey, token: string, now: u64): Check {
    VerifyToken(sha, key, token, salt => Recent(now, salt))
  }

  /** A token made at `time` passes at `now` exactly within the hour, or, by wrap-around, when it lies almost 2^64 seconds ahead. */
  lemma Freshness(sha: Bytes -> Bytes, key: SigningKey, pub: VerifyingKey, time: u64, now: u64)
    requires Belongs(pub, key)
    ensures VerifyTokenTimestamp(sha, pub, GenerateTokenTimestamp(sha, key, time), now).Accepted?
       <==> time <= now <= time + 3600 || time - now >= 0x1_0000_0000_0000_0000 - 3600
    ensures now >= 3600 ==>
      (VerifyTokenTimestamp(sha, pub, GenerateTokenTimestamp(sha, key, time), now).Accepted? <==> time <= now <= time + 3600)
  {
    hide LittleEndian, FromLittleEndian, Power256, VerifyToken, GenerateTokenNonce;
    WordIsEightBytes();
    LittleEndianRoundTrip(time, 8);
    GeneratedPasses(sha, key, pub, LittleEndian(time, 8), salt => Recent(now, salt));
    Wrap(now, time);
  }

  lemma Wrap(now: u64, time: u64)
    ensures WrappingSub(now, time) <= HOUR <==> time <= now <= time + 3600 || time - now >= 0x1_0000_0000_0000_0000 - 3600
  {
    if time <= now {
      assert WrappingSub(now, time) == now - time;
    } else {
      assert WrappingSub(now, time) == now - time + WORD;
    }
  }

  /** Of all tokens, those pass that are genuine for the eight bytes of a time within the hour (or the wrap-around). */
  lemma TimestampExact(sha: Bytes -> Bytes, key: VerifyingKey, token: string, now: u64)
    ensures VerifyTokenTimestamp(sha, key, token, now).Accepted?
       <==> exists time: u64, signature ::
              && Genuine(sha, key, token, LittleEndian(time, 8), signature)
              && (time <= now <= time + 3600 || time - now >= 0x1_0000_0000_0000_0000 - 3600)
  {
    hide LittleEndian, FromLittleEndian, Power256, VerifyToken, Genuine;
    WordIsEightBytes();
    VerifyExact(sha, key, token, salt => Recent(now, salt));
    if salt, signature :| Recent(now, salt) && Genuine(sha, key, token, salt, signature) {
      BytesRoundTrip(salt);
      var time: u64 := FromLittleEndian(salt);
      Wrap(now, time);
      assert Genuine(sha, key, token, LittleEndian(time, 8), signature);
    }
    if time: u64, signature :|
      && Genuine(sha, key, token, LittleEndian(time, 8), signature)
      && (time <= now <= time + 3600 || time - now >= 0x1_0000_0000_0000_0000 - 3600)
    {
      LittleEndianRoundTrip(time, 8);
      Wrap(now, time);
    }
  }
}
