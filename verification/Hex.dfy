/** The content-hash field: validation, normalisation, and the 32 bytes it stands for (section 8 of RFC 4648). */
module Hex {
  import opened Common

  type Nibble = x: int | 0 <= x < 16

  predicate IsHexDigit(c: char) {
    '0' <= c <= '9' || 'a' <= c <= 'f' || 'A' <= c <= 'F'
  }

  predicate AllHex(t: string) {
    forall i :: 0 <= i < |t| ==> IsHexDigit(t[i])
  }

  predicate HasPrefix(v: string) {
    |v| >= 2 && v[0] == '0' && v[1] == 'x'
  }

  /** The pattern: 64 hex digits after an optional 0x. */
  predicate IsContentHash(v: string) {
    (|v| == 64 && AllHex(v)) || (|v| == 66 && HasPrefix(v) && AllHex(v[2..]))
  }

  function LowerChar(c: char): char {
    if 'A' <= c <= 'Z' then (c as int + 32) as char else c
  }

  function Lower(s: string): (r: string)
    ensures |r| == |s|
  {
    seq(|s|, i requires 0 <= i < |s| => LowerChar(s[i]))
  }

  /** content_hash_valid: None is a validation error. */
  function Normalise(v: string): Option<string> {
    if !IsContentHash(v) then None
    else if HasPrefix(v) then Some(Lower(v))
    else Some("0x" + Lower(v))
  }

  function StripPrefix(v: string): string {
    if HasPrefix(v) then v[2..] else v
  }

  /** zfill(64). */
  function ZeroFill(t: string): string {
    if |t| >= 64 then t else seq(64 - |t|, i => '0') + t
  }

  function NibbleOf(c: char): Nibble
    requires IsHexDigit(c)
  {
    if '0' <= c <= '9' then c as int - '0' as int
    else if 'a' <= c <= 'f' then c as int - 'a' as int + 10
    else c as int - 'A' as int + 10
  }

  function HexChar(n: Nibble): char {
    if n < 10 then ('0' as int + n) as char else ('a' as int + n - 10) as char
  }

  function ByteAt(t: string, i: nat): byte
    requires AllHex(t) && 2 * i + 1 < |t|
  {
    16 * NibbleOf(t[2 * i]) + NibbleOf(t[2 * i + 1])
  }

  /** bytes.fromhex on an even number of digits. */
  function FromHex(t: string): (b: Bytes)
    requires AllHex(t) && |t| % 2 == 0
    ensures |b| == |t| / 2
  {
    seq(|t| / 2, i requires 0 <= i < |t| / 2 => ByteAt(t, i))
  }

  /** Lower-case hex digits of b. */
  function ToHex(b: Bytes): (t: string)
    ensures |t| == 2 * |b|
  {
    seq(2 * |b|, i requires 0 <= i < 2 * |b| =>
      if i % 2 == 0 then HexChar(b[i / 2] / 16) else HexChar(b[i / 2] % 16))
  }

  /** The raw bytes handed to the contract for a stored content hash. */
  function RawDigest(v: string): (b: Option<Bytes>) {
    var t := ZeroFill(StripPrefix(v));
    if AllHex(t) && |t| % 2 == 0 then Some(FromHex(t)) else None
  }

  lemma HexCharInverse(c: char)
    requires IsHexDigit(c)
    ensures HexChar(NibbleOf(c)) == LowerChar(c)
    ensures IsHexDigit(LowerChar(c)) && NibbleOf(LowerChar(c)) == NibbleOf(c)
  {
  }

  lemma ByteParts(t: string, k: nat)
    requires AllHex(t) && 2 * k + 1 < |t|
    ensures ByteAt(t, k) / 16 == NibbleOf(t[2 * k]) && ByteAt(t, k) % 16 == NibbleOf(t[2 * k + 1])
  {
  }

  /** Encoding what was read gives the digits back in lower case. */
  lemma ToFromHex(t: string)
    requires AllHex(t) && |t| % 2 == 0
    ensures ToHex(FromHex(t)) == Lower(t)
  {
    forall i | 0 <= i < |t| ensures ToHex(FromHex(t))[i] == Lower(t)[i] {
      HexCharInverse(t[i]);
      ByteParts(t, i / 2);
      assert i == if i % 2 == 0 then 2 * (i / 2) else 2 * (i / 2) + 1;
    }
  }

  lemma FromToHex(b: Bytes)
    ensures AllHex(ToHex(b)) && FromHex(ToHex(b)) == b
  {
    var t := ToHex(b);
    forall k | 0 <= k < |t| ensures IsHexDigit(t[k]) { ToHexAt(b, k / 2); }
    forall i | 0 <= i < |b| ensures ByteAt(t, i) == b[i] { ToHexAt(b, i); }
    assert FromHex(t) == b;
  }

  lemma ToHexAt(b: Bytes, i: nat)
    requires i < |b|
    ensures ToHex(b)[2 * i] == HexChar(b[i] / 16) && ToHex(b)[2 * i + 1] == HexChar(b[i] % 16)
    ensures forall n: Nibble :: IsHexDigit(HexChar(n)) && NibbleOf(HexChar(n)) == n
  {
    assert 2 * i / 2 == i && 2 * i % 2 == 0 && (2 * i + 1) / 2 == i && (2 * i + 1) % 2 == 1;
  }

  lemma LowerKeepsBytes(t: string)
    requires AllHex(t) && |t| % 2 == 0
    ensures AllHex(Lower(t)) && FromHex(Lower(t)) == FromHex(t)
    ensures Lower(Lower(t)) == Lower(t)
  {
    forall i | 0 <= i < |t|
      ensures IsHexDigit(Lower(t)[i]) && NibbleOf(Lower(t)[i]) == NibbleOf(t[i])
    {
      HexCharInverse(t[i]);
    }
  }

  /** The digits behind an accepted hash, and the form they are stored in. */
  lemma NormalIs(v: string)
    requires IsContentHash(v)
    ensures |StripPrefix(v)| == 64 && AllHex(StripPrefix(v))
    ensures Normalise(v) == Some("0x" + Lower(StripPrefix(v)))
    ensures RawDigest(v) == Some(FromHex(StripPrefix(v)))
  {
    assert |v| == 64 ==> IsHexDigit(v[1]);
    if HasPrefix(v) {
      assert Lower(v) == "0x" + Lower(v[2..]);
    }
  }

  /** The stored form 0x followed by 64 lower-case digits. */
  lemma StoredForm(t: string)
    requires |t| == 64 && AllHex(t)
    ensures IsContentHash("0x" + t) && StripPrefix("0x" + t) == t
  {
    assert ("0x" + t)[2..] == t;
  }

  /**
   * For every accepted content hash: normalising again changes nothing, the 32 bytes are those of
   * the submitted text, and printing the bytes gives the stored text back.
   */
  lemma NormaliseFaithful(v: string)
    requires IsContentHash(v)
    ensures Normalise(v).Some? && RawDigest(v).Some?
    ensures
      var w := Normalise(v).value;
      Normalise(w) == Some(w) && RawDigest(w) == RawDigest(v) &&
      |RawDigest(v).value| == 32 && w == "0x" + ToHex(RawDigest(v).value)
  {
    NormalIs(v);
    var t := StripPrefix(v);
    LowerKeepsBytes(t);
    ToFromHex(t);
    StoredForm(Lower(t));
    NormalIs("0x" + Lower(t));
  }

  /** v writes the 32 bytes b in hex digits of either case, with or without 0x in front. */
  predicate Spells(v: string, b: Bytes) {
    |b| == 32 && (Lower(v) == ToHex(b) || (|v| == 66 && v[..2] == "0x" && Lower(v[2..]) == ToHex(b)))
  }

  lemma DigitsOf(t: string, b: Bytes)
    requires Lower(t) == ToHex(b)
    ensures AllHex(t) && FromHex(t) == b
  {
    FromToHex(b);
    forall i | 0 <= i < |t| ensures IsHexDigit(t[i]) {
      assert Lower(t)[i] == LowerChar(t[i]) && IsHexDigit(ToHex(b)[i]);
    }
    LowerKeepsBytes(t);
  }

  /** A content hash is accepted exactly when it writes 32 bytes, and it is stored as those bytes print. */
  lemma AcceptedIff(v: string)
    ensures Normalise(v).Some? <==> exists b: Bytes :: Spells(v, b)
    ensures forall b: Bytes :: Spells(v, b) ==> Normalise(v) == Some("0x" + ToHex(b)) && RawDigest(v) == Some(b)
  {
    if IsContentHash(v) {
      NormaliseFaithful(v);
      NormalIs(v);
      ToFromHex(StripPrefix(v));
      assert Spells(v, FromHex(StripPrefix(v)));
    }
    forall b: Bytes | Spells(v, b)
      ensures Normalise(v) == Some("0x" + ToHex(b)) && RawDigest(v) == Some(b)
    {
      var t := if Lower(v) == ToHex(b) then v else v[2..];
      DigitsOf(t, b);
      NormalIs(v);
      ToFromHex(t);
    }
  }

  /** Two accepted hashes are stored as the same text exactly when they stand for the same bytes. */
  lemma StoredEqualIff(v: string, w: string)
    requires IsContentHash(v) && IsContentHash(w)
    ensures Normalise(v) == Normalise(w) <==> RawDigest(v) == RawDigest(w)
  {
    NormaliseFaithful(v);
    NormaliseFaithful(w);
  }

  /** What a browser prints for a 32-byte digest is accepted and stands for that digest. */
  lemma PrintedDigest(b: Bytes)
    requires |b| == 32
    ensures Normalise("0x" + ToHex(b)) == Some("0x" + ToHex(b))
    ensures RawDigest("0x" + ToHex(b)) == Some(b)
    ensures Lower("0x" + ToHex(b)) == "0x" + ToHex(b)
  {
    FromToHex(b);
    ToFromHex(ToHex(b));
    StoredForm(ToHex(b));
    NormalIs("0x" + ToHex(b));
    assert Lower("0x" + ToHex(b)) == "0x" + Lower(ToHex(b));
  }
}
