/**
 * Who can open what: a sealed message opens only for parties that share both of its exchanges, and a
 * wrapped private key only under its password, as long as the derived keys do not collide and a
 * ciphertext opens under one key only.
 */
module SealBinding {
  import opened Common
  import opened Base64
  import opened SealOpen

  /** The message key of two exchanges and three public keys. */
  function KeyFrom(c: Primitives, dh1: Bytes, dh2: Bytes, e: Bytes, s: Bytes, r: Bytes): Bytes {
    PyHkdf(c, dh1 + dh2, 32, Ascii("SecureMsg-v1-key") + (e + s + r), None)
  }

  function NonceFrom(c: Primitives, dh1: Bytes, dh2: Bytes, e: Bytes, s: Bytes, r: Bytes): Bytes {
    PyHkdf(c, dh1 + dh2, 12, Ascii("SecureMsg-v1-nonce") + (e + s + r), None)
  }

  /** Two derivations that agree had the same input. */
  predicate NoClash(c: Primitives, ikm: Bytes, info: Bytes, ikm': Bytes, info': Bytes) {
    PyHkdf(c, ikm, 32, info, None) == PyHkdf(c, ikm', 32, info', None) ==> ikm == ikm' && info == info'
  }

  /** What is sealed under key k does not open under key k' unless they are the same. */
  ghost predicate Commits(c: Primitives, k: Bytes, k': Bytes) {
    forall n: Bytes, n': Bytes, t: Bytes, d: Bytes :: c.open(k', n', c.seal(k, n, t, d), d).Some? ==> k == k'
  }

  lemma SealUses(c: Primitives, eph: Bytes, senderSk: Bytes, s: Bytes, r: Bytes, text: Bytes, aad: Bytes)
    ensures
      var dh1, dh2, e := c.dh(eph, r), c.dh(senderSk, r), c.pub(eph);
      PySeal(c, eph, senderSk, s, r, text, aad) ==
        (Encode(e), Encode(c.seal(KeyFrom(c, dh1, dh2, e, s, r), NonceFrom(c, dh1, dh2, e, s, r), text, aad)))
  {
  }

  lemma OpenUses(c: Primitives, sk: Bytes, s: Bytes, e: Bytes, ct: Bytes, aad: Bytes)
    requires |e| == 32 && |s| == 32
    ensures
      var dh1, dh2, r := c.dh(sk, e), c.dh(sk, s), c.pub(sk);
      PyOpen(c, sk, s, Encode(e), Encode(ct), aad) ==
        c.open(KeyFrom(c, dh1, dh2, e, s, r), NonceFrom(c, dh1, dh2, e, s, r), ct, aad)
  {
    PyRoundTrip(e);
    PyRoundTrip(ct);
  }

  /** On 32-byte values the inputs of a derivation determine the exchanges and the keys. */
  lemma InputsDetermine(dh1: Bytes, dh2: Bytes, context: Bytes, dh1': Bytes, dh2': Bytes, context': Bytes)
    requires |dh1| == |dh1'| == 32 && dh1 + dh2 == dh1' + dh2'
    requires Ascii("SecureMsg-v1-key") + context == Ascii("SecureMsg-v1-key") + context'
    ensures dh1 == dh1' && dh2 == dh2' && context == context'
  {
    var a, b := dh1 + dh2, dh1' + dh2';
    assert a[..32] == dh1 && b[..32] == dh1' && a[32..] == dh2 && b[32..] == dh2';
    var prefix := Ascii("SecureMsg-v1-key");
    assert (prefix + context)[|prefix|..] == context && (prefix + context')[|prefix|..] == context';
  }

  /**
   * Whoever opens a sealed message, claiming any sender, has both exchanges in common with the two
   * parties, names the true sender, and holds the recipient's public key.
   */
  lemma OnlyPartiesOpen(c: Primitives, eph: Bytes, senderSk: Bytes, recipientSk: Bytes, text: Bytes, aad: Bytes,
                        sk: Bytes, claimed: Bytes)
    requires Lawful(c) && (forall a: Bytes, b: Bytes :: |c.dh(a, b)| == 32) && |claimed| == 32
    requires
      var e, s, r := c.pub(eph), c.pub(senderSk), c.pub(recipientSk);
      NoClash(c, c.dh(eph, r) + c.dh(senderSk, r), Ascii("SecureMsg-v1-key") + (e + s + r),
        c.dh(sk, e) + c.dh(sk, claimed), Ascii("SecureMsg-v1-key") + (e + claimed + c.pub(sk))) &&
      Commits(c, KeyFrom(c, c.dh(eph, r), c.dh(senderSk, r), e, s, r),
        KeyFrom(c, c.dh(sk, e), c.dh(sk, claimed), e, claimed, c.pub(sk)))
    requires
      var (e64, ct64) := PySeal(c, eph, senderSk, c.pub(senderSk), c.pub(recipientSk), text, aad);
      PyOpen(c, sk, claimed, e64, ct64, aad).Some?
    ensures c.dh(sk, c.pub(eph)) == c.dh(eph, c.pub(recipientSk))
    ensures c.dh(sk, claimed) == c.dh(senderSk, c.pub(recipientSk))
    ensures claimed == c.pub(senderSk) && c.pub(sk) == c.pub(recipientSk)
  {
    var e, s, r := c.pub(eph), c.pub(senderSk), c.pub(recipientSk);
    var dh1, dh2 := c.dh(eph, r), c.dh(senderSk, r);
    var box := c.seal(KeyFrom(c, dh1, dh2, e, s, r), NonceFrom(c, dh1, dh2, e, s, r), text, aad);
    SealUses(c, eph, senderSk, s, r, text, aad);
    OpenUses(c, sk, claimed, e, box, aad);
    InputsDetermine(dh1, dh2, e + s + r, c.dh(sk, e), c.dh(sk, claimed), e + claimed + c.pub(sk));
    ContextInjective(e, s, r, e, claimed, c.pub(sk));
  }

  // ---------------------------------------------------------------- key and nonce

  /** Up to one hash length, what is derived is the beginning of the first block. */
  lemma HkdfIsPrefix(c: Primitives, ikm: Bytes, info: Bytes, n: nat)
    requires Lawful(c) && 0 < n <= 32
    ensures |PyHkdf(c, ikm, 32, info, None)| == 32
    ensures PyHkdf(c, ikm, n, info, None) == PyHkdf(c, ikm, 32, info, None)[..n]
  {
    var prk := Hmac(c, Zeros(32), ikm);
    assert (n + 31) / 32 == 1;
    assert Blocks(c, prk, info, 0) == [];
    assert Blocks(c, prk, info, 1) == Block(c, prk, info, 1);
    assert |Block(c, prk, info, 1)| == 32;
  }

  /** The nonce of a message is not the beginning of its key, because their labels differ. */
  lemma NonceApart(c: Primitives, eph: Bytes, senderSk: Bytes, s: Bytes, r: Bytes, text: Bytes, aad: Bytes)
    requires Lawful(c)
    requires
      var ikm, context := c.dh(eph, r) + c.dh(senderSk, r), c.pub(eph) + s + r;
      PyHkdf(c, ikm, 12, Ascii("SecureMsg-v1-key") + context, None) !=
        PyHkdf(c, ikm, 12, Ascii("SecureMsg-v1-nonce") + context, None)
    ensures exists k, n ::
      |k| == 32 && |n| == 12 && n != k[..12] &&
      PySeal(c, eph, senderSk, s, r, text, aad).1 == Encode(c.seal(k, n, text, aad))
  {
    var dh1, dh2, e := c.dh(eph, r), c.dh(senderSk, r), c.pub(eph);
    var k, n := KeyFrom(c, dh1, dh2, e, s, r), NonceFrom(c, dh1, dh2, e, s, r);
    SealUses(c, eph, senderSk, s, r, text, aad);
    HkdfIsPrefix(c, dh1 + dh2, Ascii("SecureMsg-v1-key") + (e + s + r), 12);
    HkdfIsPrefix(c, dh1 + dh2, Ascii("SecureMsg-v1-nonce") + (e + s + r), 12);
    assert |n| == 12 && n != k[..12];
  }

  // ---------------------------------------------------------------- private keys at rest

  /** The key that wraps a private key. */
  function WrapKey(c: Primitives, password: Bytes, salt: Bytes): Bytes {
    PyHkdf(c, c.argon(password, salt), 32, Ascii("SecureMsg-v1-key-protection"), None)
  }

  /** A wrapped private key opens only under a password with the same Argon2id output. */
  lemma OnlyPasswordOpens(c: Primitives, sk: Bytes, password: Bytes, salt: Bytes, nonce: Bytes, guess: Bytes)
    requires Lawful(c) && PyUnwrap(c, PyWrap(c, sk, password, salt, nonce), guess).Some?
    requires
      NoClash(c, c.argon(password, salt), Ascii("SecureMsg-v1-key-protection"),
        c.argon(guess, salt), Ascii("SecureMsg-v1-key-protection")) &&
      Commits(c, WrapKey(c, password, salt), WrapKey(c, guess, salt))
    ensures c.argon(guess, salt) == c.argon(password, salt)
  {
    var key := WrapKey(c, password, salt);
    var p := EnvelopeParts(c, key, salt, nonce, sk);
    EnvelopeReads(c, key, salt, nonce, sk, c.pyDumps(p.0, p.1, p.2));
    var aad := Ascii(ENVELOPE_AAD);
    assert c.open(WrapKey(c, guess, salt), nonce, c.seal(key, nonce, sk, aad), aad).Some?;
  }
}
