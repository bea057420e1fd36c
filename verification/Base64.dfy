/**
 * Base64 as the browser client, the Python mirror and the request validators use it
 * (sections 4 and 5 of RFC 4648).
 */
module Base64 {
  import opened Common

  type Sextet = x: int | 0 <= x < 64

  /** The two alphabets of RFC 4648: section 4 and section 5. */
  datatype Alphabet = Standard | UrlSafe

  // ---------------------------------------------------------------- characters

  function Digit(a: Alphabet, v: Sextet): char {
    if v < 26 then ('A' as int + v) as char
    else if v < 52 then ('a' as int + v - 26) as char
    else if v < 62 then ('0' as int + v - 52) as char
    else if v == 62 then (if a.Standard? then '+' else '-')
    else (if a.Standard? then '/' else '_')
  }

  predicate InAlphabet(a: Alphabet, c: char) {
    'A' <= c <= 'Z' || 'a' <= c <= 'z' || '0' <= c <= '9' ||
    (if a.Standard? then c == '+' || c == '/' else c == '-' || c == '_')
  }

  function DigitValue(a: Alphabet, c: char): (v: Sextet)
    requires InAlphabet(a, c)
    ensures Digit(a, v) == c
  {
    if 'A' <= c <= 'Z' then c as int - 'A' as int
    else if 'a' <= c <= 'z' then c as int - 'a' as int + 26
    else if '0' <= c <= '9' then c as int - '0' as int + 52
    else if c == '+' || c == '-' then 62
    else 63
  }

  predicate AllIn(a: Alphabet, t: string) {
    forall i :: 0 <= i < |t| ==> InAlphabet(a, t[i])
  }

  function Digits(a: Alphabet, v: seq<Sextet>): (t: string)
    ensures |t| == |v| && AllIn(a, t)
  {
    seq(|v|, i requires 0 <= i < |v| => Digit(a, v[i]))
  }

  function Values(a: Alphabet, t: string): (v: seq<Sextet>)
    requires AllIn(a, t)
    ensures |v| == |t|
    ensures Digits(a, v) == t
  {
    seq(|t|, i requires 0 <= i < |t| => DigitValue(a, t[i]))
  }

  lemma ValuesOfDigits(a: Alphabet, v: seq<Sextet>)
    ensures Values(a, Digits(a, v)) == v
  {
  }

  // ---------------------------------------------------------------- bits

  // Three bytes x, y, z and four sextets p, q, r, s carry the same 24 bits.

  function P(x: byte): Sextet { x / 4 }

  function Q(x: byte, y: byte): Sextet { x % 4 * 16 + y / 16 }

  function R(y: byte, z: byte): Sextet { y % 16 * 4 + z / 64 }

  function S(z: byte): Sextet { z % 64 }

  function X(p: Sextet, q: Sextet): byte { p * 4 + q / 16 }

  function Y(q: Sextet, r: Sextet): byte { q % 16 * 16 + r / 4 }

  function Z(r: Sextet, s: Sextet): byte { r % 4 * 64 + s }

  lemma Parts(k: int, n: int, hi: int, lo: int)
    requires k == 4 || k == 16 || k == 64
    requires n == hi * k + lo && 0 <= lo < k
    ensures n / k == hi && n % k == lo
  {
  }

  lemma BytesOfGroup(x: byte, y: byte, z: byte)
    ensures X(P(x), Q(x, y)) == x && Y(Q(x, y), R(y, z)) == y && Z(R(y, z), S(z)) == z
  {
    Parts(16, Q(x, y), x % 4, y / 16);
    Parts(4, R(y, z), y % 16, z / 64);
  }

  lemma SextetsOfGroup(p: Sextet, q: Sextet, r: Sextet, s: Sextet)
    ensures P(X(p, q)) == p && Q(X(p, q), Y(q, r)) == q
    ensures R(Y(q, r), Z(r, s)) == r && S(Z(r, s)) == s
  {
    Parts(4, X(p, q), p, q / 16);
    Parts(16, Y(q, r), q % 16, r / 4);
    Parts(64, Z(r, s), r % 4, s);
  }

  /** Bytes regrouped in sixes, most significant bit first, zero bits at the end. */
  function ToSextets(b: Bytes): (v: seq<Sextet>) {
    if |b| == 0 then []
    else if |b| == 1 then [P(b[0]), Q(b[0], 0)]
    else if |b| == 2 then [P(b[0]), Q(b[0], b[1]), R(b[1], 0)]
    else [P(b[0]), Q(b[0], b[1]), R(b[1], b[2]), S(b[2])] + ToSextets(b[3..])
  }

  /** Sextets regrouped in eights; bits that do not fill a byte are dropped. */
  function FromSextets(v: seq<Sextet>): (b: Bytes) {
    if |v| <= 1 then []
    else if |v| == 2 then [X(v[0], v[1])]
    else if |v| == 3 then [X(v[0], v[1]), Y(v[1], v[2])]
    else [X(v[0], v[1]), Y(v[1], v[2]), Z(v[2], v[3])] + FromSextets(v[4..])
  }

  lemma FromSextetsCons(p: Sextet, q: Sextet, r: Sextet, s: Sextet, v: seq<Sextet>)
    ensures FromSextets([p, q, r, s] + v) == [X(p, q), Y(q, r), Z(r, s)] + FromSextets(v)
  {
    assert ([p, q, r, s] + v)[4..] == v;
  }

  lemma ToSextetsCons(x: byte, y: byte, z: byte, b: Bytes)
    ensures ToSextets([x, y, z] + b) == [P(x), Q(x, y), R(y, z), S(z)] + ToSextets(b)
  {
    assert ([x, y, z] + b)[3..] == b;
  }

  lemma FirstGroup(x: byte, y: byte, z: byte, b: Bytes)
    ensures FromSextets(ToSextets([x, y, z] + b)) == [x, y, z] + FromSextets(ToSextets(b))
  {
    ToSextetsCons(x, y, z, b);
    FromSextetsCons(P(x), Q(x, y), R(y, z), S(z), ToSextets(b));
    BytesOfGroup(x, y, z);
  }

  lemma LastByte(x: byte)
    ensures FromSextets(ToSextets([x])) == [x]
  {
    var p, q := P(x), Q(x, 0);
    assert ToSextets([x]) == [p, q];
    assert FromSextets([p, q]) == [X(p, q)];
    assert X(p, q) == x by { BytesOfGroup(x, 0, 0); }
  }

  lemma LastBytes(x: byte, y: byte)
    ensures FromSextets(ToSextets([x, y])) == [x, y]
  {
    BytesOfGroup(x, y, 0);
  }

  lemma {:induction false} FromToSextets(b: Bytes)
    ensures FromSextets(ToSextets(b)) == b
  {
    if |b| == 1 {
      LastByte(b[0]);
      assert b == [b[0]];
    } else if |b| == 2 {
      LastBytes(b[0], b[1]);
      assert b == [b[0], b[1]];
    } else if |b| > 2 {
      FromToSextets(b[3..]);
      FirstGroup(b[0], b[1], b[2], b[3..]);
      assert b == [b[0], b[1], b[2]] + b[3..];
    }
  }

  /** The bits a decoder drops at the end of v are all zero. */
  predicate TrailingBitsZero(v: seq<Sextet>) {
    (|v| % 4 == 2 ==> v[|v| - 1] % 16 == 0) && (|v| % 4 == 3 ==> v[|v| - 1] % 4 == 0)
  }

  lemma {:induction false} ToFromSextets(v: seq<Sextet>)
    requires |v| % 4 != 1
    ensures ToSextets(FromSextets(v)) == v <==> TrailingBitsZero(v)
  {
    if |v| == 2 {
      SextetsOfGroup(v[0], v[1], 0, 0);
      LastTwo(v[0], v[1]);
    } else if |v| == 3 {
      SextetsOfGroup(v[0], v[1], v[2], 0);
      LastThree(v[1], v[2]);
    } else if |v| > 3 {
      ToFromSextets(v[4..]);
      FourFirst(v, ToSextets(FromSextets(v[4..])));
      GroupAgain(v[0], v[1], v[2], v[3], v[4..]);
      TrailingBitsOfTail(v);
    }
  }

  lemma FourFirst(v: seq<Sextet>, w: seq<Sextet>)
    requires |v| > 3
    ensures v == [v[0], v[1], v[2], v[3]] + v[4..]
    ensures [v[0], v[1], v[2], v[3]] + w == v <==> w == v[4..]
  {
    assert ([v[0], v[1], v[2], v[3]] + w)[4..] == w;
  }

  lemma GroupAgain(p: Sextet, q: Sextet, r: Sextet, s: Sextet, v: seq<Sextet>)
    ensures ToSextets(FromSextets([p, q, r, s] + v)) == [p, q, r, s] + ToSextets(FromSextets(v))
  {
    FromSextetsCons(p, q, r, s, v);
    ToSextetsCons(X(p, q), Y(q, r), Z(r, s), FromSextets(v));
    SextetsOfGroup(p, q, r, s);
  }

  lemma TrailingBitsOfTail(v: seq<Sextet>)
    requires |v| > 3
    ensures TrailingBitsZero(v) <==> TrailingBitsZero(v[4..])
  {
    assert |v[4..]| % 4 == |v| % 4;
  }

  lemma LastTwo(p: Sextet, q: Sextet)
    ensures Q(X(p, q), 0) == q <==> q % 16 == 0
  {
    Parts(4, X(p, q), p, q / 16);
  }

  lemma LastThree(q: Sextet, r: Sextet)
    ensures R(Y(q, r), 0) == r <==> r % 4 == 0
  {
    Parts(16, Y(q, r), q % 16, r / 4);
  }

  /** Sextets and padding together fill whole groups of four. */
  lemma {:induction false} SextetCount(b: Bytes)
    ensures (|ToSextets(b)| + |Padding(|b|)|) % 4 == 0
  {
    var groups := SextetGroups(b);
  }

  lemma {:induction false} SextetGroups(b: Bytes) returns (groups: nat)
    ensures |ToSextets(b)| + |Padding(|b|)| == 4 * groups
  {
    if |b| <= 2 {
      groups := if |b| == 0 then 0 else 1;
    } else {
      groups := SextetGroups(b[3..]);
      PaddingPeriod(|b[3..]|);
      assert |ToSextets(b)| == 4 + |ToSextets(b[3..])|;
      groups := groups + 1;
    }
  }

  lemma PaddingPeriod(n: nat)
    ensures Padding(n + 3) == Padding(n)
  {
  }

  /** At most two characters fill the last group in one way only. */
  lemma FillGroup(n: nat, pads: nat)
    requires pads <= 2 && (n + pads) % 4 == 0
    ensures n % 4 != 1
    ensures if pads == 0 then n % 4 == 0 else n % 4 + pads == 4
  {
  }

  lemma {:induction false} ByteCount(v: seq<Sextet>, pads: nat, groups: nat)
    requires pads <= 2 && |v| + pads == 4 * groups
    ensures |FromSextets(v)| == 3 * groups - pads
  {
    if |v| <= 3 {
    } else {
      ByteCount(v[4..], pads, groups - 1);
    }
  }

  lemma PaddingCount(groups: nat, pads: nat)
    requires pads <= 2 && pads <= 3 * groups
    ensures |Padding(3 * groups - pads)| == pads
  {
  }

  // ---------------------------------------------------------------- encoder

  function Padding(n: nat): string {
    if n % 3 == 0 then "" else if n % 3 == 1 then "==" else "="
  }

  /** The standard encoding with padding: btoa, and Python's base64.b64encode. */
  function Encode(b: Bytes): string {
    Digits(Standard, ToSextets(b)) + Padding(|b|)
  }

  // ---------------------------------------------------------------- the browser's decoder

  predicate IsSpace(c: char) {
    c == '\t' || c == '\n' || c == '\U{000C}' || c == '\r' || c == ' '
  }

  function DropSpaces(s: string): string {
    if s == "" then "" else (if IsSpace(s[0]) then "" else [s[0]]) + DropSpaces(s[1..])
  }

  /** Number of padding characters the decoder takes off a string whose length is a multiple of four. */
  function PadCount(s: string): nat {
    if |s| == 0 || |s| % 4 != 0 || s[|s| - 1] != '=' then 0
    else if s[|s| - 2] != '=' then 1
    else 2
  }

  function Unpadded(s: string): string {
    s[..|s| - PadCount(s)]
  }

  /** atob: drop white space and padding, refuse what is left unless it is alphabet characters. */
  function Atob(s: string): Option<Bytes> {
    var t := Unpadded(DropSpaces(s));
    if |t| % 4 == 1 || !AllIn(Standard, t) then None
    else Some(FromSextets(Values(Standard, t)))
  }

  function Replace(s: string, from: char, to: char): (r: string)
    ensures |r| == |s|
    ensures forall i :: 0 <= i < |s| ==> r[i] == if s[i] == from then to else s[i]
  {
    seq(|s|, i requires 0 <= i < |s| => if s[i] == from then to else s[i])
  }

  /** URL-safe characters mapped back to the standard ones. */
  function ToStandard(s: string): string {
    Replace(Replace(s, '-', '+'), '_', '/')
  }

  /** What b64ToBytes returns; None when atob throws. */
  function B64ToBytes(s: string): Option<Bytes> {
    Atob(ToStandard(s))
  }

  // ---------------------------------------------------------------- round trip

  predicate Pads(p: string) {
    p == "" || p == "=" || p == "=="
  }

  lemma {:induction false} DropSpacesId(s: string)
    requires forall i :: 0 <= i < |s| ==> !IsSpace(s[i])
    ensures DropSpaces(s) == s
  {
    if s == "" {
    } else {
      DropSpacesId(s[1..]);
      assert s == [s[0]] + s[1..];
    }
  }

  lemma UnpaddedIs(a: Alphabet, t: string, p: string)
    requires AllIn(a, t) && Pads(p) && (|t| + |p|) % 4 == 0
    ensures PadCount(t + p) == |p| && Unpadded(t + p) == t
  {
    assert p == "" && t != "" ==> (t + p)[|t| - 1] == t[|t| - 1];
    assert p == "=" ==> (t + p)[|t|] == '=' && (t + p)[|t| - 1] == t[|t| - 1];
    assert p == "==" ==> (t + p)[|t|] == '=' && (t + p)[|t| + 1] == '=';
  }

  lemma ToStandardIs(a: Alphabet, v: seq<Sextet>, p: string)
    requires Pads(p)
    ensures ToStandard(Digits(a, v) + p) == Digits(Standard, v) + p
  {
    var s := Digits(a, v) + p;
    forall i | 0 <= i < |s| ensures ToStandard(s)[i] == (Digits(Standard, v) + p)[i] {
      if i < |v| {
        assert s[i] == Digit(a, v[i]);
      }
    }
  }

  /** On alphabet characters followed by the right amount of padding the decoder reads the bits. */
  lemma DecodeDigits(a: Alphabet, v: seq<Sextet>, p: string)
    requires Pads(p) && (|v| + |p|) % 4 == 0
    ensures B64ToBytes(Digits(a, v) + p) == Some(FromSextets(v))
  {
    ToStandardIs(a, v, p);
    AtobDigits(v, p);
  }

  lemma AtobDigits(v: seq<Sextet>, p: string)
    requires Pads(p) && (|v| + |p|) % 4 == 0
    ensures Atob(Digits(Standard, v) + p) == Some(FromSextets(v))
  {
    AtobIs(Digits(Standard, v), p);
    ValuesOfDigits(Standard, v);
  }

  lemma AtobIs(t: string, p: string)
    requires AllIn(Standard, t) && Pads(p) && (|t| + |p|) % 4 == 0
    ensures Atob(t + p) == Some(FromSextets(Values(Standard, t)))
  {
    var s := t + p;
    NoSpaces(t, p);
    DropSpacesId(s);
    UnpaddedIs(Standard, t, p);
    assert Unpadded(DropSpaces(s)) == t;
    FillGroup(|t|, |p|);
  }

  lemma NoSpaces(t: string, p: string)
    requires AllIn(Standard, t) && Pads(p)
    ensures forall i :: 0 <= i < |t + p| ==> !IsSpace((t + p)[i])
  {
    forall i | 0 <= i < |t| ensures !IsSpace(t[i]) {
      assert InAlphabet(Standard, t[i]);
    }
  }

  /** What atob takes apart: alphabet characters, not one more than whole groups, and any padding complete. */
  predicate Splits(u: string, t: string, p: string) {
    u == t + p && AllIn(Standard, t) && |t| % 4 != 1 && (p == "" || (Pads(p) && (|t| + |p|) % 4 == 0))
  }

  /** atob succeeds exactly on such strings, white space aside, and then reads the characters' bits. */
  lemma AtobIff(s: string, u: string)
    requires u == DropSpaces(s)
    ensures Atob(s).Some? <==> exists t, p :: Splits(u, t, p)
    ensures forall t, p :: Splits(u, t, p) ==> Atob(s) == Some(FromSextets(Values(Standard, t)))
  {
    if Atob(s).Some? {
      UnpaddedSplits(u);
      assert Splits(u, Unpadded(u), u[|Unpadded(u)|..]);
    }
    forall t, p | Splits(u, t, p) ensures Atob(s) == Some(FromSextets(Values(Standard, t))) {
      SplitsUnpadded(u, t, p);
    }
  }

  lemma UnpaddedSplits(u: string)
    requires AllIn(Standard, Unpadded(u)) && |Unpadded(u)| % 4 != 1
    ensures Splits(u, Unpadded(u), u[|Unpadded(u)|..])
  {
    var t, p := Unpadded(u), u[|Unpadded(u)|..];
    assert u == t + p;
    SuffixPads(u);
    assert |t| + |p| == |u|;
  }

  lemma SplitsUnpadded(u: string, t: string, p: string)
    requires Splits(u, t, p)
    ensures Unpadded(u) == t
  {
    if p == "" {
      assert u == t;
      assert u != "" ==> InAlphabet(Standard, t[|t| - 1]);
    } else {
      UnpaddedIs(Standard, t, p);
    }
  }

  lemma SuffixPads(u: string)
    ensures
      var p := u[|Unpadded(u)|..];
      p == "" || (Pads(p) && |u| % 4 == 0)
  {
  }

  /** White space anywhere in the input makes no difference. */
  lemma {:induction false} SpacesIgnored(x: string, c: char, y: string)
    requires IsSpace(c)
    ensures DropSpaces(x + [c] + y) == DropSpaces(x + y)
    ensures Atob(x + [c] + y) == Atob(x + y)
  {
    if x == "" {
      assert x + [c] + y == [c] + y && x + y == y && ([c] + y)[1..] == y;
    } else {
      assert (x + [c] + y)[1..] == x[1..] + [c] + y && (x + y)[1..] == x[1..] + y;
      SpacesIgnored(x[1..], c, y);
    }
  }

  /** b64ToBytes(bytesToB64(b)) = b for every byte string. */
  lemma RoundTrip(b: Bytes)
    ensures B64ToBytes(Encode(b)) == Some(b)
  {
    var v := ToSextets(b);
    SextetCount(b);
    DecodeDigits(Standard, v, Padding(|b|));
    FromToSextets(b);
  }

  // ---------------------------------------------------------------- the validator

  /** One alternative of the validator's pattern: whole groups, then at most one padded group. */
  predicate MatchesBody(a: Alphabet, s: string) {
    s == "" ||
    (|s| == 4 && InAlphabet(a, s[0]) && InAlphabet(a, s[1]) && s[2] == '=' && s[3] == '=') ||
    (|s| == 4 && InAlphabet(a, s[0]) && InAlphabet(a, s[1]) && InAlphabet(a, s[2]) && s[3] == '=') ||
    (|s| >= 4 && AllIn(a, s[..4]) && MatchesBody(a, s[4..]))
  }

  predicate IsBase64(s: string) {
    MatchesBody(Standard, s) || MatchesBody(UrlSafe, s)
  }

  lemma OneGroup(a: Alphabet, s: string)
    requires |s| == 4
    ensures MatchesBody(a, s) <==> AllIn(a, Unpadded(s))
  {
    assert s[4..] == "" && s[..4] == s;
    var t := Unpadded(s);
    assert forall i :: 0 <= i < |t| ==> t[i] == s[i];
    if AllIn(a, t) {
      assert InAlphabet(a, t[0]) && InAlphabet(a, t[1]);
      assert |t| > 2 ==> InAlphabet(a, t[2]);
      assert |t| > 3 ==> InAlphabet(a, t[3]);
    }
    if MatchesBody(a, s) && AllIn(a, s) {
      assert InAlphabet(a, s[3]);
    }
  }

  /** A group in front of the rest. */
  lemma GroupBefore(a: Alphabet, s: string)
    requires |s| > 4 && |s| % 4 == 0
    ensures AllIn(a, Unpadded(s)) <==> AllIn(a, s[..4]) && AllIn(a, Unpadded(s[4..]))
  {
    var r := s[4..];
    assert PadCount(s) == PadCount(r);
    assert Unpadded(s) == s[..4] + Unpadded(r);
    AllInBoth(a, s[..4], Unpadded(r));
  }

  lemma AllInBoth(a: Alphabet, t: string, u: string)
    ensures AllIn(a, t + u) <==> AllIn(a, t) && AllIn(a, u)
  {
    if AllIn(a, t + u) {
      forall i | 0 <= i < |t| ensures InAlphabet(a, t[i]) { assert (t + u)[i] == t[i]; }
      forall i | 0 <= i < |u| ensures InAlphabet(a, u[i]) { assert (t + u)[|t| + i] == u[i]; }
    }
  }

  /** The pattern in closed form. */
  lemma {:induction false} MatchesBodyIff(a: Alphabet, s: string)
    ensures MatchesBody(a, s) <==> |s| % 4 == 0 && AllIn(a, Unpadded(s))
  {
    if |s| < 4 {
    } else if |s| == 4 {
      OneGroup(a, s);
    } else {
      MatchesBodyIff(a, s[4..]);
      if |s| % 4 == 0 { GroupBefore(a, s); }
    }
  }

  /** Every encoder output passes the validator. */
  lemma EncodeMatches(b: Bytes)
    ensures MatchesBody(Standard, Encode(b))
  {
    SextetCount(b);
    UnpaddedIs(Standard, Digits(Standard, ToSextets(b)), Padding(|b|));
    MatchesBodyIff(Standard, Encode(b));
  }

  function AlphabetOf(s: string): (a: Alphabet)
    requires IsBase64(s)
    ensures MatchesBody(a, s)
  {
    if MatchesBody(Standard, s) then Standard else UrlSafe
  }

  lemma PadSuffix(s: string)
    requires |s| % 4 == 0
    ensures Pads(s[|Unpadded(s)|..]) && s == Unpadded(s) + s[|Unpadded(s)|..]
  {
  }

  lemma SplitAccepted(a: Alphabet, s: string)
    requires MatchesBody(a, s)
    ensures |s| % 4 == 0 && AllIn(a, Unpadded(s))
    ensures |Unpadded(s)| + PadCount(s) == |s|
    ensures B64ToBytes(s) == Some(FromSextets(Values(a, Unpadded(s))))
  {
    MatchesBodyIff(a, s);
    var t := Unpadded(s);
    PadSuffix(s);
    DecodeDigits(a, Values(a, t), s[|t|..]);
  }

  /**
   * Every string the validator accepts, in either alphabet, decodes in the browser to three
   * quarters of its length less its padding.
   */
  lemma AcceptedDecodes(s: string)
    requires IsBase64(s)
    ensures B64ToBytes(s).Some?
    ensures |B64ToBytes(s).value| == |s| / 4 * 3 - PadCount(s)
  {
    var a := AlphabetOf(s);
    SplitAccepted(a, s);
    ByteCount(Values(a, Unpadded(s)), PadCount(s), |s| / 4);
  }

  /** Encoding again gives the standard form back exactly when the unused bits were zero. */
  lemma ReencodeIff(s: string)
    requires IsBase64(s)
    ensures B64ToBytes(s).Some?
    ensures
      var a := AlphabetOf(s);
      AllIn(a, Unpadded(s)) &&
      (Encode(B64ToBytes(s).value) == ToStandard(s) <==> TrailingBitsZero(Values(a, Unpadded(s))))
  {
    var t := Unpadded(s);
    SplitAccepted(AlphabetOf(s), s);
    PadSuffix(s);
    assert |t| + |s[|t|..]| == |s|;
    ReencodeSplit(AlphabetOf(s), t, s[|t|..]);
  }

  lemma ReencodeSplit(a: Alphabet, t: string, p: string)
    requires AllIn(a, t) && Pads(p) && (|t| + |p|) % 4 == 0
    ensures
      var v := Values(a, t);
      Encode(FromSextets(v)) == ToStandard(t + p) <==> TrailingBitsZero(v)
  {
    ToStandardIs(a, Values(a, t), p);
    ReencodeDigits(Values(a, t), p);
  }

  lemma ReencodeDigits(v: seq<Sextet>, p: string)
    requires Pads(p) && (|v| + |p|) % 4 == 0
    ensures Encode(FromSextets(v)) == Digits(Standard, v) + p <==> TrailingBitsZero(v)
  {
    FillGroup(|v|, |p|);
    ToFromSextets(v);
    EncodeFrom(v, p);
    SameDigits(ToSextets(FromSextets(v)), v, p);
  }

  lemma EncodeFrom(v: seq<Sextet>, p: string)
    requires Pads(p) && (|v| + |p|) % 4 == 0
    ensures Encode(FromSextets(v)) == Digits(Standard, ToSextets(FromSextets(v))) + p
  {
    PaddingIs(v, p, (|v| + |p|) / 4);
  }

  lemma PaddingIs(v: seq<Sextet>, p: string, groups: nat)
    requires Pads(p) && |v| + |p| == 4 * groups
    ensures Padding(|FromSextets(v)|) == p
  {
    ByteCount(v, |p|, groups);
    PaddingCount(groups, |p|);
  }

  lemma SameDigits(v: seq<Sextet>, w: seq<Sextet>, p: string)
    ensures Digits(Standard, v) + p == Digits(Standard, w) + p <==> v == w
  {
    ValuesOfDigits(Standard, v);
    ValuesOfDigits(Standard, w);
    var s, t := Digits(Standard, v) + p, Digits(Standard, w) + p;
    assert s[..|s| - |p|] == Digits(Standard, v);
    assert t[..|t| - |p|] == Digits(Standard, w);
  }

  // ---------------------------------------------------------------- URL form without padding

  /** Length of s without its trailing padding characters. */
  function TrimmedLength(s: string): (n: nat)
    ensures n <= |s|
  {
    if s != "" && s[|s| - 1] == '=' then TrimmedLength(s[..|s| - 1]) else |s|
  }

  /** bytesToB64url: URL-safe characters, no padding. */
  function B64Url(b: Bytes): string {
    var u := Replace(Replace(Encode(b), '+', '-'), '/', '_');
    u[..TrimmedLength(u)]
  }

  /** bytesToB64url produces exactly the sextets of b in the URL-safe alphabet. */
  lemma B64UrlIs(b: Bytes)
    ensures B64Url(b) == Digits(UrlSafe, ToSextets(b))
  {
    var t := Digits(UrlSafe, ToSextets(b));
    var u := Replace(Replace(Encode(b), '+', '-'), '/', '_');
    assert u == t + Padding(|b|);
    TrimPads(t, Padding(|b|));
  }

  lemma TrimPads(t: string, p: string)
    requires AllIn(UrlSafe, t) && Pads(p)
    ensures TrimmedLength(t + p) == |t|
  {
    assert TrimmedLength(t) == |t|;
    assert t + "" == t;
    assert (t + "=")[..|t|] == t;
    assert TrimmedLength(t + "=") == |t|;
    assert (t + "==")[..|t| + 1] == t + "=";
  }

  /** The re-padding loop that reads a private scalar out of a JWK. */
  method RestorePadding(d: string) returns (r: string)
    ensures |r| % 4 == 0 && d <= r && |r| <= |d| + 3
    ensures forall i :: |d| <= i < |r| ==> r[i] == '='
  {
    r := d;
    while |r| % 4 != 0
      invariant d <= r && |r| <= (|d| + 3) / 4 * 4
      invariant forall i :: |d| <= i < |r| ==> r[i] == '='
      decreases (|d| + 3) / 4 * 4 - |r|
    {
      r := r + "=";
    }
  }

  /** URL form, mapped back and padded by the loop, decodes to the same bytes; at most two characters are added. */
  lemma UrlRoundTrip(b: Bytes, padded: string)
    requires |padded| % 4 == 0 && ToStandard(B64Url(b)) <= padded
    requires |padded| <= |B64Url(b)| + 3
    requires forall i :: |B64Url(b)| <= i < |padded| ==> padded[i] == '='
    ensures |padded| <= |B64Url(b)| + 2
    ensures padded == Encode(b) && B64ToBytes(padded) == Some(b)
  {
    B64UrlIs(b);
    var v := ToSextets(b);
    var t := Digits(Standard, v);
    ToStandardIs(UrlSafe, v, "");
    assert Digits(UrlSafe, v) + "" == Digits(UrlSafe, v) && t + "" == t;
    SextetCount(b);
    SamePadding(t, padded, Padding(|b|));
    RoundTrip(b);
  }

  lemma SamePadding(t: string, padded: string, p: string)
    requires t <= padded && |padded| <= |t| + 3 && |padded| % 4 == 0
    requires forall i :: |t| <= i < |padded| ==> padded[i] == '='
    requires Pads(p) && (|t| + |p|) % 4 == 0
    ensures padded == t + p
  {
    SameFill(|t|, |p|, |padded| - |t|);
    assert forall i :: 0 <= i < |p| ==> p[i] == '=';
  }

  lemma SameFill(n: nat, i: nat, j: nat)
    requires i <= 3 && j <= 3 && (n + i) % 4 == 0 && (n + j) % 4 == 0
    ensures i == j
  {
  }

  /** Import of a private scalar: bytesToB64url on one side, the padding loop on the other. */
  method ScalarThroughJwk(b: Bytes) returns (r: Option<Bytes>)
    ensures r == Some(b)
  {
    var d := ToStandard(B64Url(b));
    var padded := RestorePadding(d);
    UrlRoundTrip(b, padded);
    var out := DecodeLoop(padded);
    r := out;
  }

  // ---------------------------------------------------------------- the loops of the client

  /** A binary string: one character per byte. */
  function Binary(b: Bytes): (s: string)
    ensures |s| == |b|
  {
    seq(|b|, i requires 0 <= i < |b| => b[i] as char)
  }

  /** b64ToBytes: decode to a binary string, then copy it into a byte buffer. */
  method DecodeLoop(b64: string) returns (r: Option<Bytes>)
    ensures r == B64ToBytes(b64)
  {
    var decoded := Atob(ToStandard(b64));
    if decoded.None? { return None; }
    var bin := Binary(decoded.value);
    var out := new byte[|bin|];
    for i := 0 to |bin|
      invariant forall k :: 0 <= k < i ==> out[k] == decoded.value[k]
    {
      out[i] := bin[i] as int;
    }
    assert out[..] == decoded.value;
    r := Some(out[..]);
  }

  /** btoa; None when a character does not fit in a byte. */
  function Btoa(bin: string): Option<string> {
    if forall i :: 0 <= i < |bin| ==> bin[i] as int < 256
    then Some(Encode(seq(|bin|, i requires 0 <= i < |bin| => bin[i] as int % 256)))
    else None
  }

  /** bytesToB64: build a binary string character by character, then encode it. */
  method EncodeLoop(bytes: Bytes) returns (r: Option<string>)
    ensures r == Some(Encode(bytes))
  {
    var bin := "";
    for i := 0 to |bytes|
      invariant bin == Binary(bytes[..i])
    {
      bin := bin + [bytes[i] as char];
      assert bytes[..i + 1] == bytes[..i] + [bytes[i]];
    }
    assert bytes[..|bytes|] == bytes;
    assert seq(|bin|, i requires 0 <= i < |bin| => bin[i] as int % 256) == bytes;
    r := Btoa(bin);
  }

  // ---------------------------------------------------------------- Python's decoder

  /**
   * base64.b64decode without validation: characters outside the standard alphabet are skipped,
   * decoding stops at a completed pad sequence, and a partial group at the end is an error.
   * acc holds the sextets read so far, pads the padding characters since the last of them.
   */
  function PyScan(s: string, acc: seq<Sextet>, pads: nat): Option<Bytes>
    decreases |s|
  {
    if s == "" then (if |acc| % 4 == 0 then Some(FromSextets(acc)) else None)
    else if s[0] == '=' then
      if |acc| % 4 >= 2 && |acc| % 4 + pads + 1 >= 4 then Some(FromSextets(acc))
      else PyScan(s[1..], acc, if |acc| % 4 >= 2 then pads + 1 else pads)
    else if !InAlphabet(Standard, s[0]) then PyScan(s[1..], acc, pads)
    else PyScan(s[1..], acc + [DigitValue(Standard, s[0])], 0)
  }

  function PyDecode(s: string): Option<Bytes> {
    PyScan(s, [], 0)
  }

  lemma {:induction false} PyScanBody(t: string, p: string, acc: seq<Sextet>)
    requires AllIn(Standard, t) && Pads(p) && (|acc| + |t| + |p|) % 4 == 0
    ensures PyScan(t + p, acc, 0) == Some(FromSextets(acc + Values(Standard, t)))
    decreases |t|
  {
    if t == "" {
      assert t + p == p && acc + Values(Standard, t) == acc;
      PyScanPads(p, acc);
    } else {
      var v := DigitValue(Standard, t[0]);
      assert (t + p)[0] == t[0] && (t + p)[1..] == t[1..] + p;
      PyScanBody(t[1..], p, acc + [v]);
      assert acc + [v] + Values(Standard, t[1..]) == acc + Values(Standard, t);
    }
  }

  lemma PyScanPads(p: string, acc: seq<Sextet>)
    requires Pads(p) && (|acc| + |p|) % 4 == 0
    ensures PyScan(p, acc, 0) == Some(FromSextets(acc))
  {
    FillGroup(|acc|, |p|);
    PyScanEquals(p, acc, 0);
  }

  lemma {:induction false} PyScanEquals(p: string, acc: seq<Sextet>, pads: nat)
    requires forall i :: 0 <= i < |p| ==> p[i] == '='
    requires if p == "" then |acc| % 4 == 0 else |acc| % 4 >= 2 && |acc| % 4 + pads + |p| == 4
    ensures PyScan(p, acc, pads) == Some(FromSextets(acc))
    decreases |p|
  {
    if |p| <= 1 {
    } else {
      PyScanEquals(p[1..], acc, pads + 1);
    }
  }

  lemma PyScanAll(t: string, p: string)
    requires AllIn(Standard, t) && Pads(p) && (|t| + |p|) % 4 == 0
    ensures PyDecode(t + p) == Some(FromSextets(Values(Standard, t)))
  {
    PyScanBody(t, p, []);
    assert [] + Values(Standard, t) == Values(Standard, t);
  }

  /** The Python decoder undoes the encoder, and agrees with the browser on standard-alphabet input. */
  lemma PyAgrees(s: string)
    requires MatchesBody(Standard, s)
    ensures PyDecode(s) == B64ToBytes(s)
  {
    SplitAccepted(Standard, s);
    PadSuffix(s);
    PyScanAll(Unpadded(s), s[|Unpadded(s)|..]);
  }

  lemma PyRoundTrip(b: Bytes)
    ensures PyDecode(Encode(b)) == Some(b)
  {
    EncodeMatches(b);
    PyAgrees(Encode(b));
    RoundTrip(b);
  }

  /** The two decoders disagree on the URL-safe alphabet: Python skips the characters the browser maps back. */
  lemma PyDiffersOnUrlSafe()
    ensures IsBase64("-___")
    ensures B64ToBytes("-___") == Some([251, 255, 255]) && PyDecode("-___") == Some([])
  {
    var s := "-___";
    assert s[4..] == "";
    assert MatchesBody(UrlSafe, s);
    SplitAccepted(UrlSafe, s);
    assert Unpadded(s) == s;
    assert B64ToBytes(s) == Some([251, 255, 255]) by {
      assert Values(UrlSafe, s) == [62, 63, 63, 63];
      assert FromSextets([62, 63, 63, 63]) == [251, 255, 255];
    }
    assert s[1..] == "___" && s[1..][1..] == "__" && s[1..][1..][1..] == "_" && s[1..][1..][1..][1..] == "";
    assert PyScan("", [], 0) == Some([]);
    assert PyScan("_", [], 0) == PyScan("", [], 0);
    assert PyScan("__", [], 0) == PyScan("_", [], 0);
    assert PyScan("___", [], 0) == PyScan("__", [], 0);
  }

  /** How many characters of s Python's decoder does not skip, padding aside. */
  function Standards(s: string): nat {
    if s == "" then 0 else (if InAlphabet(Standard, s[0]) then 1 else 0) + Standards(s[1..])
  }

  lemma {:induction false} StandardsOf(t: string, p: string)
    requires Pads(p)
    ensures Standards(t + p) == Standards(t) <= |t|
    ensures Standards(t) == |t| ==> AllIn(Standard, t)
  {
    if t == "" {
      assert t + p == p;
      StandardsOfPads(p);
    } else {
      assert (t + p)[0] == t[0] && (t + p)[1..] == t[1..] + p;
      StandardsOf(t[1..], p);
    }
  }

  lemma StandardsOfPads(p: string)
    requires Pads(p)
    ensures Standards(p) == 0
  {
    assert p == "==" ==> p[1..] == "=";
  }

  lemma {:induction false} BytesOfSextets(v: seq<Sextet>)
    ensures 4 * |FromSextets(v)| <= 3 * |v|
  {
    if |v| <= 3 {
    } else {
      BytesOfSextets(v[4..]);
    }
  }

  /** Each skipped character leaves the result that much shorter. */
  lemma {:induction false} PyScanLength(s: string, acc: seq<Sextet>, pads: nat)
    ensures PyScan(s, acc, pads).Some? ==> 4 * |PyScan(s, acc, pads).value| <= 3 * (|acc| + Standards(s))
    decreases |s|
  {
    BytesOfSextets(acc);
    if s == "" {
    } else if s[0] == '=' {
      PyScanLength(s[1..], acc, if |acc| % 4 >= 2 then pads + 1 else pads);
    } else if !InAlphabet(Standard, s[0]) {
      PyScanLength(s[1..], acc, pads);
    } else {
      PyScanLength(s[1..], acc + [DigitValue(Standard, s[0])], 0);
    }
  }

  /** Three quarters, rounded down, of n and of anything less than n. */
  lemma FewerBytes(n: nat, pads: nat, bytes: nat, groups: nat, other: nat)
    requires pads <= 2 && n + pads == 4 * groups && bytes == 3 * groups - pads && 4 * other <= 3 * (n - 1)
    ensures other < bytes
  {
  }

  /** Of an accepted string with a URL-safe character Python reads fewer bytes than the browser, or none. */
  lemma PyReadsLess(s: string)
    requires IsBase64(s) && !MatchesBody(Standard, s)
    ensures B64ToBytes(s).Some?
    ensures PyDecode(s).Some? ==> |PyDecode(s).value| < |B64ToBytes(s).value|
  {
    var t := Unpadded(s);
    SplitAccepted(UrlSafe, s);
    AcceptedDecodes(s);
    PadSuffix(s);
    MatchesBodyIff(Standard, s);
    StandardsOf(t, s[|t|..]);
    PyScanLength(s, [], 0);
    if PyDecode(s).Some? {
      FewerBytes(|t|, PadCount(s), |B64ToBytes(s).value|, |s| / 4, |PyDecode(s).value|);
    }
  }

  /** On every string the validator accepts, the two decoders agree exactly when it is in the standard alphabet. */
  lemma PyAgreesIff(s: string)
    requires IsBase64(s)
    ensures PyDecode(s) == B64ToBytes(s) <==> MatchesBody(Standard, s)
  {
    if MatchesBody(Standard, s) {
      PyAgrees(s);
    } else {
      PyReadsLess(s);
    }
  }

  // ---------------------------------------------------------------- the public-key validator

  /** b64decode with validation on: only standard-alphabet characters followed by at most two pads. */
  predicate PyStrictShape(s: string) {
    exists n :: 0 <= n <= |s| && AllIn(Standard, s[..n]) && Pads(s[n..])
  }

  /** public_key_valid: length, pattern, strict decode, 32 bytes. */
  predicate PublicKeyValid(s: string) {
    s != "" && |s| <= 256 && IsBase64(s) && PyStrictShape(s) &&
    PyDecode(s).Some? && |PyDecode(s).value| == 32
  }

  /**
   * The validator's four checks amount to one shape: 43 standard-alphabet characters and one pad.
   * So a stored public key always decodes in the browser, to the same 32 bytes as on the server.
   */
  lemma PublicKeyValidIff(s: string)
    ensures PublicKeyValid(s) <==> |s| == 44 && AllIn(Standard, s[..43]) && s[43] == '='
    ensures PublicKeyValid(s) ==> B64ToBytes(s) == PyDecode(s)
  {
    if |s| == 44 && AllIn(Standard, s[..43]) && s[43] == '=' {
      KeyShapeAccepted(s);
    }
    if PublicKeyValid(s) {
      AcceptedKeyShape(s);
    }
  }

  lemma KeyShapeAccepted(s: string)
    requires |s| == 44 && AllIn(Standard, s[..43]) && s[43] == '='
    ensures PublicKeyValid(s)
  {
    assert s[..43][42] == s[42];
    assert s[43..] == "=" && Unpadded(s) == s[..43] && PadCount(s) == 1;
    MatchesBodyIff(Standard, s);
    AcceptedDecodes(s);
    PyAgrees(s);
  }

  lemma AcceptedKeyShape(s: string)
    requires PublicKeyValid(s)
    ensures |s| == 44 && AllIn(Standard, s[..43]) && s[43] == '='
    ensures B64ToBytes(s) == PyDecode(s)
  {
    StrictIsStandard(s);
    PyAgrees(s);
    AcceptedDecodes(s);
    SplitAccepted(Standard, s);
    assert |s| == 4 * 11 && PadCount(s) == 1;
    assert Unpadded(s) == s[..43];
  }

  lemma StrictIsStandard(s: string)
    requires IsBase64(s) && PyStrictShape(s)
    ensures MatchesBody(Standard, s)
  {
    var n :| 0 <= n <= |s| && AllIn(Standard, s[..n]) && Pads(s[n..]);
    MatchesBodyIff(Standard, s);
    MatchesBodyIff(UrlSafe, s);
    assert s == s[..n] + s[n..];
    UnpaddedIs(Standard, s[..n], s[n..]);
  }
}
