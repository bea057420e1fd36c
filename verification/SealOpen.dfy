/**
 * Sealing and opening messages and private keys, as the browser does it and as the Python mirror
 * does it, over arbitrary primitives with the usual laws. The key schedule follows the two
 * Diffie-Hellman pattern of section 5.1.3 of RFC 9180, with HKDF as in RFC 5869 over HMAC as in
 * RFC 2104.
 */
module SealOpen {
  import opened Common
  import opened Base64

  /**
   * pub and dh: X25519; hash: SHA-256; seal and open: AES-GCM (key, nonce, text, associated data);
   * argon: Argon2id (password, salt); pyDumps, jsDumps and loads: JSON text of an envelope's salt,
   * nonce and ciphertext.
   */
  datatype Primitives = Primitives(
    pub: Bytes -> Bytes,
    dh: (Bytes, Bytes) -> Bytes,
    hash: Bytes -> Bytes,
    seal: (Bytes, Bytes, Bytes, Bytes) -> Bytes,
    open: (Bytes, Bytes, Bytes, Bytes) -> Option<Bytes>,
    argon: (Bytes, Bytes) -> Bytes,
    pyDumps: (string, string, string) -> Bytes,
    jsDumps: (string, string, string) -> Bytes,
    loads: Bytes -> Option<(string, string, string)>)

  ghost predicate Lawful(c: Primitives) {
    (forall a: Bytes, b: Bytes :: c.dh(a, c.pub(b)) == c.dh(b, c.pub(a))) &&
    (forall a: Bytes :: |c.pub(a)| == 32) &&
    (forall x: Bytes :: |c.hash(x)| == 32) &&
    (forall k: Bytes, n: Bytes, t: Bytes, d: Bytes :: c.open(k, n, c.seal(k, n, t, d), d) == Some(t)) &&
    (forall x: string, y: string, z: string :: c.loads(c.pyDumps(x, y, z)) == Some((x, y, z))) &&
    (forall x: string, y: string, z: string :: c.loads(c.jsDumps(x, y, z)) == Some((x, y, z)))
  }

  /** Decryption succeeds only on what encryption under the same key, nonce and data produces. */
  ghost predicate Authentic(c: Primitives) {
    forall k: Bytes, n: Bytes, x: Bytes, d: Bytes ::
      c.open(k, n, x, d).Some? ==> x == c.seal(k, n, c.open(k, n, x, d).value, d)
  }

  // ---------------------------------------------------------------- HMAC and HKDF

  function Zeros(n: nat): (r: Bytes)
    ensures |r| == n
  {
    seq(n, i => 0)
  }

  function XorAll(b: Bytes, mask: bv8): Bytes {
    seq(|b|, i requires 0 <= i < |b| => (b[i] as bv8 ^ mask) as int)
  }

  /** The key brought to the 64-byte block: hashed if longer, then filled with zeros. */
  function BlockKey(c: Primitives, key: Bytes): Bytes {
    var k := if |key| > 64 then c.hash(key) else key;
    if |k| > 64 then k else k + Zeros(64 - |k|)
  }

  function Hmac(c: Primitives, key: Bytes, text: Bytes): Bytes {
    var k := BlockKey(c, key);
    c.hash(XorAll(k, 0x5c) + c.hash(XorAll(k, 0x36) + text))
  }

  /** T(i) of HKDF-Expand. */
  function Block(c: Primitives, prk: Bytes, info: Bytes, i: nat): Bytes
    requires i <= 255
  {
    if i == 0 then [] else Hmac(c, prk, Block(c, prk, info, i - 1) + info + [i])
  }

  function Blocks(c: Primitives, prk: Bytes, info: Bytes, n: nat): Bytes
    requires n <= 255
  {
    if n == 0 then [] else Blocks(c, prk, info, n - 1) + Block(c, prk, info, n)
  }

  function Take(b: Bytes, n: nat): Bytes {
    if n <= |b| then b[..n] else b
  }

  function Hkdf(c: Primitives, salt: Bytes, ikm: Bytes, info: Bytes, length: nat): Bytes
    requires length <= 255 * 32
  {
    Take(Blocks(c, Hmac(c, salt, ikm), info, (length + 31) / 32), length)
  }

  /** Python's HKDF: an absent salt is one hash length of zeros. */
  function PyHkdf(c: Primitives, ikm: Bytes, length: nat, info: Bytes, salt: Option<Bytes>): Bytes
    requires length <= 255 * 32
  {
    Hkdf(c, if salt.None? then Zeros(32) else salt.value, ikm, info, length)
  }

  /** The browser's hkdfDerive: an absent salt is the empty string. */
  function JsHkdf(c: Primitives, ikm: Bytes, length: nat, info: Bytes, salt: Option<Bytes>): Bytes
    requires length <= 255 * 32
  {
    Hkdf(c, if salt.None? then [] else salt.value, ikm, info, length)
  }

  /** Both conventions for an absent salt give the same keys: the HMAC key is filled with zeros anyway. */
  lemma HkdfAgree(c: Primitives, ikm: Bytes, length: nat, info: Bytes, salt: Option<Bytes>)
    requires length <= 255 * 32
    ensures PyHkdf(c, ikm, length, info, salt) == JsHkdf(c, ikm, length, info, salt)
  {
    assert Zeros(32) + Zeros(32) == Zeros(64);
    assert [] + Zeros(64) == Zeros(64);
    assert BlockKey(c, Zeros(32)) == BlockKey(c, []);
  }

  // ---------------------------------------------------------------- concatBytes

  function Flatten(parts: seq<Bytes>): Bytes {
    if parts == [] then [] else Flatten(parts[..|parts| - 1]) + parts[|parts| - 1]
  }

  function TotalLength(parts: seq<Bytes>): (n: nat)
    ensures n == |Flatten(parts)|
  {
    if parts == [] then 0 else TotalLength(parts[..|parts| - 1]) + |parts[|parts| - 1]|
  }

  lemma {:induction false} PrefixLength(parts: seq<Bytes>, i: nat)
    requires i <= |parts|
    ensures TotalLength(parts[..i]) <= TotalLength(parts)
  {
    if i < |parts| {
      assert parts[..|parts| - 1][..i] == parts[..i];
      PrefixLength(parts[..|parts| - 1], i);
    } else {
      assert parts[..i] == parts;
    }
  }

  /** One buffer of the total length, filled part by part at a moving offset. */
  method ConcatBytes(parts: seq<Bytes>) returns (r: Bytes)
    ensures r == Flatten(parts)
  {
    var total := TotalLength(parts);
    var out := new byte[total];
    var off := 0;
    for i := 0 to |parts|
      invariant off == TotalLength(parts[..i]) <= total
      invariant out[..off] == Flatten(parts[..i])
    {
      assert parts[..i + 1][..i] == parts[..i];
      PrefixLength(parts, i + 1);
      var part := parts[i];
      ghost var done := out[..off];
      forall k | 0 <= k < |part| {
        out[off + k] := part[k];
      }
      assert out[..off] == done;
      assert out[off..off + |part|] == part;
      assert out[..off + |part|] == out[..off] + out[off..off + |part|];
      off := off + |part|;
    }
    assert parts[..|parts|] == parts;
    assert out[..] == out[..off];
    r := out[..];
  }

  // ---------------------------------------------------------------- info strings

  function Ascii(s: string): Bytes {
    seq(|s|, i requires 0 <= i < |s| => s[i] as int % 256)
  }

  const KEY_LABEL := "SecureMsg-v1-key"
  const NONCE_LABEL := "SecureMsg-v1-nonce"
  const PROTECTION_LABEL := "SecureMsg-v1-key-protection"

  function KeyInfo(context: Bytes): Bytes { Ascii(KEY_LABEL) + context }

  function NonceInfo(context: Bytes): Bytes { Ascii(NONCE_LABEL) + context }

  function ProtectionInfo(): Bytes { Ascii(PROTECTION_LABEL) }

  function Context(ephPub: Bytes, senderPub: Bytes, recipientPub: Bytes): Bytes {
    ephPub + senderPub + recipientPub
  }

  /** On 32-byte keys the context determines who sealed what for whom. */
  lemma ContextInjective(e: Bytes, s: Bytes, r: Bytes, e': Bytes, s': Bytes, r': Bytes)
    requires |e| == |e'| == |s| == |s'| == |r| == |r'| == 32
    ensures Context(e, s, r) == Context(e', s', r') <==> e == e' && s == s' && r == r'
  {
    var x, y := Context(e, s, r), Context(e', s', r');
    assert x[..32] == e && x[32..64] == s && x[64..] == r;
    assert y[..32] == e' && y[32..64] == s' && y[64..] == r';
  }

  /**
   * The three kinds of info string never meet, for contexts of any length, with one exception:
   * the key label is a prefix of the protection label, so a context that spelt out the rest of
   * it would collide. Contexts of three 32-byte keys cannot.
   */
  lemma LabelsSeparate(context: Bytes, other: Bytes)
    ensures KeyInfo(context) != NonceInfo(other)
    ensures NonceInfo(context) != ProtectionInfo()
    ensures KeyInfo(context) == ProtectionInfo() <==> context == Ascii("-protection")
    ensures |context| == 96 ==> KeyInfo(context) != ProtectionInfo()
  {
    var k, n, p := KeyInfo(context), NonceInfo(context), ProtectionInfo();
    assert k[13] == 'k' as int && n[13] == 'n' as int && p[13] == 'k' as int && NonceInfo(other)[13] == 'n' as int;
    assert k[16..] == context;
    assert p[16..] == Ascii("-protection");
    assert p[..16] == Ascii(KEY_LABEL);
    assert p == p[..16] + p[16..];
  }

  // ---------------------------------------------------------------- messages

  /** hpke_seal with ephemeral key eph: the encoded ephemeral public key and ciphertext. */
  function PySeal(c: Primitives, eph: Bytes, senderSk: Bytes, senderPub: Bytes, recipientPub: Bytes,
                  plaintext: Bytes, aad: Bytes): (string, string) {
    var ephPub := c.pub(eph);
    var ikm := c.dh(eph, recipientPub) + c.dh(senderSk, recipientPub);
    var context := Context(ephPub, senderPub, recipientPub);
    var key := PyHkdf(c, ikm, 32, KeyInfo(context), None);
    var nonce := PyHkdf(c, ikm, 12, NonceInfo(context), None);
    (Encode(ephPub), Encode(c.seal(key, nonce, plaintext, aad)))
  }

  /** hpkeSeal. */
  function JsSeal(c: Primitives, eph: Bytes, senderSk: Bytes, senderPub: Bytes, recipientPub: Bytes,
                  plaintext: Bytes, aad: Bytes): (string, string) {
    var ephPub := c.pub(eph);
    var ikm := Flatten([c.dh(eph, recipientPub), c.dh(senderSk, recipientPub)]);
    var context := Flatten([ephPub, senderPub, recipientPub]);
    var key := JsHkdf(c, ikm, 32, Flatten([Ascii(KEY_LABEL), context]), None);
    var nonce := JsHkdf(c, ikm, 12, Flatten([Ascii(NONCE_LABEL), context]), None);
    (Encode(ephPub), Encode(c.seal(key, nonce, plaintext, aad)))
  }

  /**
   * hpke_open: the recipient's public key is recomputed from the private one; a public key that is
   * not 32 bytes long is refused, here and in the browser.
   */
  function PyOpen(c: Primitives, recipientSk: Bytes, senderPub: Bytes,
                  ephPub64: string, ciphertext64: string, aad: Bytes): Option<Bytes> {
    var ephPub, ciphertext := PyDecode(ephPub64), PyDecode(ciphertext64);
    if ephPub.None? || ciphertext.None? then None
    else if |ephPub.value| != 32 || |senderPub| != 32 then None
    else
      var ikm := c.dh(recipientSk, ephPub.value) + c.dh(recipientSk, senderPub);
      var context := Context(ephPub.value, senderPub, c.pub(recipientSk));
      var key := PyHkdf(c, ikm, 32, KeyInfo(context), None);
      var nonce := PyHkdf(c, ikm, 12, NonceInfo(context), None);
      c.open(key, nonce, ciphertext.value, aad)
  }

  /** hpkeOpen, up to the text decoding of the result: the recipient's public key is the session's. */
  function JsOpen(c: Primitives, recipientSk: Bytes, recipientPub: Bytes, senderPub: Bytes,
                  ephPub64: string, ciphertext64: string, aad: Bytes): Option<Bytes> {
    var ephPub, ciphertext := B64ToBytes(ephPub64), B64ToBytes(ciphertext64);
    if ephPub.None? || ciphertext.None? then None
    else if |ephPub.value| != 32 || |senderPub| != 32 then None
    else
      var ikm := Flatten([c.dh(recipientSk, ephPub.value), c.dh(recipientSk, senderPub)]);
      var context := Flatten([ephPub.value, senderPub, recipientPub]);
      var key := JsHkdf(c, ikm, 32, Flatten([Ascii(KEY_LABEL), context]), None);
      var nonce := JsHkdf(c, ikm, 12, Flatten([Ascii(NONCE_LABEL), context]), None);
      c.open(key, nonce, ciphertext.value, aad)
  }

  lemma FlattenTwo(a: Bytes, b: Bytes)
    ensures Flatten([a, b]) == a + b
  {
    var parts := [a, b];
    assert parts[..1] == [a] && [a][..0] == [];
    assert Flatten([a]) == [] + a == a;
  }

  lemma FlattenThree(a: Bytes, b: Bytes, d: Bytes)
    ensures Flatten([a, b, d]) == a + b + d
  {
    var parts := [a, b, d];
    assert parts[..2] == [a, b];
    FlattenTwo(a, b);
  }

  /** The two sealers produce the same bytes. */
  lemma SealsAgree(c: Primitives, eph: Bytes, senderSk: Bytes, senderPub: Bytes, recipientPub: Bytes,
                   plaintext: Bytes, aad: Bytes)
    ensures PySeal(c, eph, senderSk, senderPub, recipientPub, plaintext, aad) ==
            JsSeal(c, eph, senderSk, senderPub, recipientPub, plaintext, aad)
  {
    ScheduleAgrees(c, c.dh(eph, recipientPub), c.dh(senderSk, recipientPub), c.pub(eph), senderPub, recipientPub);
  }

  /** Both sides derive the same key and nonce from the same secrets and keys. */
  lemma ScheduleAgrees(c: Primitives, dh1: Bytes, dh2: Bytes, e: Bytes, s: Bytes, r: Bytes)
    ensures
      var ikm, context := Flatten([dh1, dh2]), Flatten([e, s, r]);
      ikm == dh1 + dh2 && context == e + s + r &&
      JsHkdf(c, ikm, 32, Flatten([Ascii(KEY_LABEL), context]), None) ==
        PyHkdf(c, dh1 + dh2, 32, KeyInfo(e + s + r), None) &&
      JsHkdf(c, ikm, 12, Flatten([Ascii(NONCE_LABEL), context]), None) ==
        PyHkdf(c, dh1 + dh2, 12, NonceInfo(e + s + r), None)
  {
    FlattenTwo(dh1, dh2);
    FlattenThree(e, s, r);
    FlattenTwo(Ascii(KEY_LABEL), e + s + r);
    FlattenTwo(Ascii(NONCE_LABEL), e + s + r);
    HkdfAgree(c, dh1 + dh2, 32, KeyInfo(e + s + r), None);
    HkdfAgree(c, dh1 + dh2, 12, NonceInfo(e + s + r), None);
  }

  /** The two openers agree on what the encoders write. */
  lemma OpensAgree(c: Primitives, recipientSk: Bytes, senderPub: Bytes,
                   ephPub64: string, ciphertext64: string, aad: Bytes)
    requires MatchesBody(Standard, ephPub64) && MatchesBody(Standard, ciphertext64)
    ensures PyOpen(c, recipientSk, senderPub, ephPub64, ciphertext64, aad) ==
            JsOpen(c, recipientSk, c.pub(recipientSk), senderPub, ephPub64, ciphertext64, aad)
  {
    PyAgrees(ephPub64);
    PyAgrees(ciphertext64);
    var e := PyDecode(ephPub64);
    if e.Some? {
      var dh1, dh2 := c.dh(recipientSk, e.value), c.dh(recipientSk, senderPub);
      ScheduleAgrees(c, dh1, dh2, e.value, senderPub, c.pub(recipientSk));
    }
  }

  /**
   * For all key pairs, ephemeral keys, texts and associated data, what either implementation seals
   * either implementation opens, to the same text.
   */
  lemma CrossOpen(c: Primitives, eph: Bytes, senderSk: Bytes, recipientSk: Bytes, plaintext: Bytes, aad: Bytes,
                  bySealPy: bool)
    requires Lawful(c)
    ensures
      var (e, ct) :=
        if bySealPy then PySeal(c, eph, senderSk, c.pub(senderSk), c.pub(recipientSk), plaintext, aad)
        else JsSeal(c, eph, senderSk, c.pub(senderSk), c.pub(recipientSk), plaintext, aad);
      PyOpen(c, recipientSk, c.pub(senderSk), e, ct, aad) == Some(plaintext) &&
      JsOpen(c, recipientSk, c.pub(recipientSk), c.pub(senderSk), e, ct, aad) == Some(plaintext)
  {
    var (e, ct) := PySeal(c, eph, senderSk, c.pub(senderSk), c.pub(recipientSk), plaintext, aad);
    SealsAgree(c, eph, senderSk, c.pub(senderSk), c.pub(recipientSk), plaintext, aad);
    PyOpensPy(c, eph, senderSk, recipientSk, plaintext, aad);
    var ephPub := c.pub(eph);
    EncodeMatches(ephPub);
    SealedMatches(c, eph, senderSk, c.pub(senderSk), c.pub(recipientSk), plaintext, aad);
    OpensAgree(c, recipientSk, c.pub(senderSk), e, ct, aad);
  }

  /**
   * A sealed message whose two fields reach the openers in any spelling the validator accepts: the
   * browser always opens it, the Python mirror exactly when both are in the standard alphabet.
   */
  lemma OpensRespelledIff(c: Primitives, eph: Bytes, senderSk: Bytes, recipientSk: Bytes, plaintext: Bytes, aad: Bytes,
                          e: string, ct: string)
    requires Lawful(c) && Authentic(c) && IsBase64(e) && IsBase64(ct)
    requires
      var sealed := PySeal(c, eph, senderSk, c.pub(senderSk), c.pub(recipientSk), plaintext, aad);
      B64ToBytes(e) == B64ToBytes(sealed.0) && B64ToBytes(ct) == B64ToBytes(sealed.1)
    ensures JsOpen(c, recipientSk, c.pub(recipientSk), c.pub(senderSk), e, ct, aad) == Some(plaintext)
    ensures PyOpen(c, recipientSk, c.pub(senderSk), e, ct, aad) == Some(plaintext) <==>
      MatchesBody(Standard, e) && MatchesBody(Standard, ct)
  {
    var (e0, ct0) := PySeal(c, eph, senderSk, c.pub(senderSk), c.pub(recipientSk), plaintext, aad);
    CrossOpen(c, eph, senderSk, recipientSk, plaintext, aad, true);
    SealedMatches(c, eph, senderSk, c.pub(senderSk), c.pub(recipientSk), plaintext, aad);
    PyAgrees(e0);
    PyAgrees(ct0);
    PyAgreesIff(e);
    PyAgreesIff(ct);
    RoundTrip(c.pub(eph));
    if !MatchesBody(Standard, e) {
      PyReadsLess(e);
    } else if !MatchesBody(Standard, ct) {
      OpensOnlyOne(c, recipientSk, c.pub(senderSk), e0, ct0, e, ct, aad);
    }
  }

  /** Two ciphertexts that decode differently do not open to the same text. */
  lemma OpensOnlyOne(c: Primitives, recipientSk: Bytes, senderPub: Bytes,
                     e: string, ct: string, e': string, ct': string, aad: Bytes)
    requires Authentic(c) && PyDecode(e) == PyDecode(e') && PyDecode(ct) != PyDecode(ct')
    requires PyOpen(c, recipientSk, senderPub, e, ct, aad).Some?
    ensures PyOpen(c, recipientSk, senderPub, e', ct', aad) != PyOpen(c, recipientSk, senderPub, e, ct, aad)
  {
  }

  lemma SealedMatches(c: Primitives, eph: Bytes, senderSk: Bytes, senderPub: Bytes, recipientPub: Bytes,
                      plaintext: Bytes, aad: Bytes)
    ensures
      var (e, ct) := PySeal(c, eph, senderSk, senderPub, recipientPub, plaintext, aad);
      MatchesBody(Standard, e) && MatchesBody(Standard, ct)
  {
    var ephPub := c.pub(eph);
    var ikm := c.dh(eph, recipientPub) + c.dh(senderSk, recipientPub);
    var context := Context(ephPub, senderPub, recipientPub);
    var key := PyHkdf(c, ikm, 32, KeyInfo(context), None);
    var nonce := PyHkdf(c, ikm, 12, NonceInfo(context), None);
    EncodeMatches(ephPub);
    EncodeMatches(c.seal(key, nonce, plaintext, aad));
  }

  lemma PyOpensPy(c: Primitives, eph: Bytes, senderSk: Bytes, recipientSk: Bytes, plaintext: Bytes, aad: Bytes)
    requires Lawful(c)
    ensures
      var (e, ct) := PySeal(c, eph, senderSk, c.pub(senderSk), c.pub(recipientSk), plaintext, aad);
      PyOpen(c, recipientSk, c.pub(senderSk), e, ct, aad) == Some(plaintext)
  {
    var ephPub, senderPub, recipientPub := c.pub(eph), c.pub(senderSk), c.pub(recipientSk);
    var ikm := c.dh(eph, recipientPub) + c.dh(senderSk, recipientPub);
    assert ikm == c.dh(recipientSk, ephPub) + c.dh(recipientSk, senderPub);
    var context := Context(ephPub, senderPub, recipientPub);
    var key := PyHkdf(c, ikm, 32, KeyInfo(context), None);
    var nonce := PyHkdf(c, ikm, 12, NonceInfo(context), None);
    PyRoundTrip(ephPub);
    PyRoundTrip(c.seal(key, nonce, plaintext, aad));
  }

  // ---------------------------------------------------------------- private keys at rest

  const ENVELOPE_AAD := "private-key"

  function EnvelopeParts(c: Primitives, key: Bytes, salt: Bytes, nonce: Bytes, sk: Bytes): (string, string, string) {
    (Encode(salt), Encode(nonce), Encode(c.seal(key, nonce, sk, Ascii(ENVELOPE_AAD))))
  }

  /** encrypt_private_key. */
  function PyWrap(c: Primitives, sk: Bytes, password: Bytes, salt: Bytes, nonce: Bytes): string {
    var key := PyHkdf(c, c.argon(password, salt), 32, ProtectionInfo(), None);
    var parts := EnvelopeParts(c, key, salt, nonce, sk);
    Encode(c.pyDumps(parts.0, parts.1, parts.2))
  }

  /** encryptPrivateKey. */
  function JsWrap(c: Primitives, sk: Bytes, password: Bytes, salt: Bytes, nonce: Bytes): string {
    var key := JsHkdf(c, c.argon(password, salt), 32, ProtectionInfo(), None);
    var parts := EnvelopeParts(c, key, salt, nonce, sk);
    Encode(c.jsDumps(parts.0, parts.1, parts.2))
  }

  function PyUnwrap(c: Primitives, envelope64: string, password: Bytes): Option<Bytes> {
    var text := PyDecode(envelope64);
    var parts := if text.Some? then c.loads(text.value) else None;
    if parts.None? then None
    else
      var salt, nonce, ct := PyDecode(parts.value.0), PyDecode(parts.value.1), PyDecode(parts.value.2);
      if salt.None? || nonce.None? || ct.None? then None
      else
        var key := PyHkdf(c, c.argon(password, salt.value), 32, ProtectionInfo(), None);
        c.open(key, nonce.value, ct.value, Ascii(ENVELOPE_AAD))
  }

  function JsUnwrap(c: Primitives, envelope64: string, password: Bytes): Option<Bytes> {
    var text := B64ToBytes(envelope64);
    var parts := if text.Some? then c.loads(text.value) else None;
    if parts.None? then None
    else
      var salt, nonce, ct := B64ToBytes(parts.value.0), B64ToBytes(parts.value.1), B64ToBytes(parts.value.2);
      if salt.None? || nonce.None? || ct.None? then None
      else
        var key := JsHkdf(c, c.argon(password, salt.value), 32, ProtectionInfo(), None);
        c.open(key, nonce.value, ct.value, Ascii(ENVELOPE_AAD))
  }

  lemma EnvelopeReads(c: Primitives, key: Bytes, salt: Bytes, nonce: Bytes, sk: Bytes, text: Bytes)
    requires Lawful(c) && c.loads(text) == Some(EnvelopeParts(c, key, salt, nonce, sk))
    ensures
      var p := EnvelopeParts(c, key, salt, nonce, sk);
      PyDecode(Encode(text)) == Some(text) && B64ToBytes(Encode(text)) == Some(text) &&
      PyDecode(p.0) == Some(salt) && B64ToBytes(p.0) == Some(salt) &&
      PyDecode(p.1) == Some(nonce) && B64ToBytes(p.1) == Some(nonce) &&
      var ct := c.seal(key, nonce, sk, Ascii(ENVELOPE_AAD));
      PyDecode(p.2) == Some(ct) && B64ToBytes(p.2) == Some(ct)
  {
    var ct := c.seal(key, nonce, sk, Ascii(ENVELOPE_AAD));
    RoundTrip(text); RoundTrip(salt); RoundTrip(nonce); RoundTrip(ct);
    PyRoundTrip(text); PyRoundTrip(salt); PyRoundTrip(nonce); PyRoundTrip(ct);
  }

  /** A private key wrapped by either implementation is recovered by either, under the same password. */
  lemma CrossUnwrap(c: Primitives, sk: Bytes, password: Bytes, salt: Bytes, nonce: Bytes, byPy: bool)
    requires Lawful(c)
    ensures
      var envelope := if byPy then PyWrap(c, sk, password, salt, nonce) else JsWrap(c, sk, password, salt, nonce);
      PyUnwrap(c, envelope, password) == Some(sk) && JsUnwrap(c, envelope, password) == Some(sk)
  {
    var prk := c.argon(password, salt);
    var key := PyHkdf(c, prk, 32, ProtectionInfo(), None);
    HkdfAgree(c, prk, 32, ProtectionInfo(), None);
    var p := EnvelopeParts(c, key, salt, nonce, sk);
    var text := if byPy then c.pyDumps(p.0, p.1, p.2) else c.jsDumps(p.0, p.1, p.2);
    assert c.loads(text) == Some(p);
    EnvelopeReads(c, key, salt, nonce, sk, text);
  }
}
