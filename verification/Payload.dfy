/** The stored form of an encrypted payload (internal/platform/crypto/payload.go)
    over an abstract AEAD. */
module Payload {
  import opened Bytes
  import opened Wrappers
  import A = Aad

  const PAYLOAD_VERSION: nat := 1
  const NONCE_SIZE: nat := 24
  const TAG_SIZE: nat := 16
  const HEADER_SIZE: nat := 2 + NONCE_SIZE

  type Nonce = n: Text | |n| == NONCE_SIZE witness seq(NONCE_SIZE, _ => 0)

  /** XChaCha20-Poly1305 seen from outside: seal(key, nonce, plaintext, aad) and
      open(key, nonce, ciphertext, aad). */
  datatype Primitive = Primitive(seal: (Text, Text, Text, Text) -> Text,
                                 open: (Text, Text, Text, Text) -> Option<Text>)
  {
    /** What the program needs of the primitive: opening undoes sealing, and a
        ciphertext is the plaintext plus one tag long. */
    ghost predicate Correct() {
      forall k, n, p, d ::
        |seal(k, n, p, d)| == |p| + TAG_SIZE && open(k, n, seal(k, n, p, d), d) == Some(p)
    }
  }

  /** The primitive as the master key uses it: over row identities. */
  datatype Aead = Aead(seal: (Text, Text, Text, A.Aad) -> Text,
                       open: (Text, Text, Text, A.Aad) -> Option<Text>)
  {
    ghost predicate Correct() {
      forall k, n, p, d ::
        |seal(k, n, p, d)| == |p| + TAG_SIZE && open(k, n, seal(k, n, p, d), d) == Some(p)
    }
  }

  /** `aad.encode()` stands between the two. */
  function OverIdentities(raw: Primitive): Aead {
    Aead((k, n, p, a) => raw.seal(k, n, p, A.Encoded(a)),
         (k, n, c, a) => raw.open(k, n, c, A.Encoded(a)))
  }

  lemma OverIdentitiesCorrect(raw: Primitive)
    requires raw.Correct()
    ensures OverIdentities(raw).Correct()
  {
    var aead := OverIdentities(raw);
    forall k, n, p, d
      ensures |aead.seal(k, n, p, d)| == |p| + TAG_SIZE && aead.open(k, n, aead.seal(k, n, p, d), d) == Some(p)
    {
      var e := A.Encoded(d);
      assert |raw.seal(k, n, p, e)| == |p| + TAG_SIZE && raw.open(k, n, raw.seal(k, n, p, e), e) == Some(p);
    }
  }

  datatype EncryptedPayload = EncryptedPayload(version: nat, nonce: Nonce, ciphertext: Text) {
    predicate Typed() {
      version < 0x1_0000
    }

    function Encoded(): (r: Text)
      ensures |r| == HEADER_SIZE + |ciphertext|
    {
      LittleEndian(version, 2) + nonce + ciphertext
    }
  }

  /** The current version is written as 1, 0. */
  lemma Header(p: EncryptedPayload)
    requires p.version == PAYLOAD_VERSION
    ensures p.Encoded() == [1, 0] + p.nonce + p.ciphertext
  {
    assert LittleEndian(1, 2) == [1, 0];
  }

  /** Go's `copy` into a slice that is long enough. */
  method CopyAt(dst: array<byte>, at: nat, src: Text)
    requires at + |src| <= dst.Length
    modifies dst
    ensures dst[..] == old(dst[..at]) + src + old(dst[at + |src|..])
  {
    for i := 0 to |src|
      invariant dst[..] == old(dst[..at]) + src[..i] + old(dst[at + i..])
    {
      dst[at + i] := src[i];
      assert src[..i + 1] == src[..i] + [src[i]];
    }
    assert src[..|src|] == src;
  }

  method Encode(p: EncryptedPayload) returns (out: array<byte>)
    ensures fresh(out) && out[..] == p.Encoded()
  {
    out := new byte[HEADER_SIZE + |p.ciphertext|](_ => 0);
    CopyAt(out, 0, LittleEndian(p.version, 2));
    assert out[..2] == LittleEndian(p.version, 2);
    CopyAt(out, 2, p.nonce);
    assert out[..HEADER_SIZE] == LittleEndian(p.version, 2) + p.nonce;
    CopyAt(out, HEADER_SIZE, p.ciphertext);
  }

  /** What a stored blob means: None when it is too short to hold a tag or
      carries another version. */
  function Decoded(blob: Text): Option<EncryptedPayload> {
    if |blob| < HEADER_SIZE + TAG_SIZE then None
    else if FromLittleEndian(blob[..2]) != PAYLOAD_VERSION then None
    else Some(EncryptedPayload(PAYLOAD_VERSION, blob[2..HEADER_SIZE], blob[HEADER_SIZE..]))
  }

  method Decode(blob: Text) returns (r: Option<EncryptedPayload>)
    ensures r == Decoded(blob)
  {
    if |blob| < HEADER_SIZE + TAG_SIZE {
      return None;
    }
    var version := FromLittleEndian(blob[0..2]);
    assert blob[0..2] == blob[..2];
    if version != PAYLOAD_VERSION {
      return None;
    }
    var nonce := new byte[NONCE_SIZE](_ => 0);
    CopyAt(nonce, 0, blob[2..HEADER_SIZE]);
    var ciphertext := new byte[|blob| - HEADER_SIZE](_ => 0);
    CopyAt(ciphertext, 0, blob[HEADER_SIZE..]);
    assert nonce[..] == blob[2..HEADER_SIZE];
    assert ciphertext[..] == blob[HEADER_SIZE..];
    r := Some(EncryptedPayload(version, nonce[..], ciphertext[..]));
  }

  /** Decoding inverts encoding exactly on current-version payloads that hold
      at least a tag; every other encoding is refused. */
  lemma DecodeInvertsEncode(p: EncryptedPayload)
    requires p.Typed()
    ensures (Decoded(p.Encoded()) == Some(p))
            <==> (p.version == PAYLOAD_VERSION && |p.ciphertext| >= TAG_SIZE)
    ensures Decoded(p.Encoded()) == Some(p) || Decoded(p.Encoded()) == None
  {
    var blob := p.Encoded();
    EncodedSplits(p);
    Widths();
    LittleEndianReads(p.version, 2);
  }

  /** Encoding inverts decoding on every accepted blob. */
  lemma EncodeInvertsDecode(blob: Text)
    requires Decoded(blob).Some?
    ensures Decoded(blob).value.Encoded() == blob
  {
    LittleEndianWrites(blob[..2]);
    assert blob == blob[..2] + blob[2..HEADER_SIZE] + blob[HEADER_SIZE..];
  }

  /** The column split of the stored form recovers header, nonce and ciphertext. */
  lemma EncodedSplits(p: EncryptedPayload)
    ensures p.Encoded()[..2] == LittleEndian(p.version, 2)
    ensures p.Encoded()[2..HEADER_SIZE] == p.nonce
    ensures p.Encoded()[HEADER_SIZE..] == p.ciphertext
  {
    var v := LittleEndian(p.version, 2);
    assert p.Encoded() == v + (p.nonce + p.ciphertext);
    assert p.Encoded() == (v + p.nonce) + p.ciphertext;
  }

  function Encrypt(aead: Aead, key: Text, nonce: Nonce, plaintext: Text, aad: A.Aad): EncryptedPayload {
    EncryptedPayload(PAYLOAD_VERSION, nonce, aead.seal(key, nonce, plaintext, aad))
  }

  function Decrypt(aead: Aead, key: Text, p: EncryptedPayload, aad: A.Aad): Option<Text> {
    if p.version != PAYLOAD_VERSION then None
    else aead.open(key, p.nonce, p.ciphertext, aad)
  }

  /** Opens a payload stored as separate columns; a nonce of the wrong length
      fails closed. */
  function DecryptColumns(aead: Aead, key: Text, version: nat, nonce: Text, ciphertext: Text, aad: A.Aad)
    : Option<Text>
  {
    if |nonce| != NONCE_SIZE then None
    else Decrypt(aead, key, EncryptedPayload(version, nonce, ciphertext), aad)
  }

  lemma SealedOpens(aead: Aead, key: Text, nonce: Nonce, plaintext: Text, aad: A.Aad)
    requires aead.Correct()
    ensures var p := Encrypt(aead, key, nonce, plaintext, aad);
            |p.ciphertext| == |plaintext| + TAG_SIZE
            && DecryptColumns(aead, key, p.version, p.nonce, p.ciphertext, aad) == Some(plaintext)
  {
    var ct := aead.seal(key, nonce, plaintext, aad);
    assert |ct| == |plaintext| + TAG_SIZE
        && aead.open(key, nonce, ct, aad) == Some(plaintext);
  }

  // ----- over the primitive itself -----

  /** The primitive does not open this ciphertext under that other additional
      data. (It cannot hold of all data at once: there are more of them than
      ciphertexts of one length.) */
  ghost predicate Refuses(raw: Primitive, key: Text, nonce: Nonce, plaintext: Text, data: Text, other: Text) {
    data != other ==> raw.open(key, nonce, raw.seal(key, nonce, plaintext, data), other) == None
  }

  /** Sealed for one row position, a payload opens there, and not at another
      whose bytes the primitive refuses: identities that differ in item, scope,
      subject or revision are never the same bytes. */
  lemma OpensOnlyUnderItsIdentity(raw: Primitive, key: Text, nonce: Nonce, plaintext: Text, aad: A.Aad, other: A.Aad)
    requires raw.Correct() && Refuses(raw, key, nonce, plaintext, A.Encoded(aad), A.Encoded(other))
    requires aad.Typed() && aad.FieldsShorterThan(A.FOUR_GIB) && other.Typed() && other.FieldsShorterThan(A.FOUR_GIB)
    ensures var p := Encrypt(OverIdentities(raw), key, nonce, plaintext, aad);
            DecryptColumns(OverIdentities(raw), key, p.version, p.nonce, p.ciphertext, other)
            == if other == aad then Some(plaintext) else None
  {
    if other == aad {
      OverIdentitiesCorrect(raw);
      SealedOpens(OverIdentities(raw), key, nonce, plaintext, aad);
    } else {
      if A.Encoded(aad) == A.Encoded(other) {
        A.EncodedInjective(aad, other);
      }
    }
  }
}
