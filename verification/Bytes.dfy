/** Bytes, fixed-width integers, big- and little-endian encodings, hexadecimal text, and the
    lexicographic order in which the key-value store keeps its keys. */
module Bytes {

  type byte = b: int | 0 <= b < 0x100
  type bytes = seq<byte>
  type uint16 = n: int | 0 <= n < 0x1_0000
  type uint32 = n: int | 0 <= n < 0x1_0000_0000
  type uint64 = n: int | 0 <= n < 0x1_0000_0000_0000_0000

  const MAX_UINT32: uint32 := 0xFFFF_FFFF

  /** A 32-byte digest; public keys and hashes share this shape. */
  type Digest = d: bytes | |d| == 32 witness seq(32, _ => 0)

  function ZeroDigest(): (d: Digest)
  {
    seq(32, _ => 0)
  }

  function Pow256(w: nat): (r: nat)
    ensures r > 0
  {
    if w == 0 then 1 else 256 * Pow256(w - 1)
  }

  lemma Pow256Values()
    ensures Pow256(2) == 0x1_0000
    ensures Pow256(4) == 0x1_0000_0000
    ensures Pow256(8) == 0x1_0000_0000_0000_0000
  {
    assert Pow256(1) == 256;
    assert Pow256(3) == 256 * Pow256(2);
    assert Pow256(5) == 256 * Pow256(4);
    assert Pow256(6) == 256 * Pow256(5);
    assert Pow256(7) == 256 * Pow256(6);
    assert Pow256(8) == 256 * Pow256(7);
  }

  // ---------- big-endian and little-endian integers ----------

  /** The low `w` bytes of `n`, most significant first. */
  function BigEndian(n: nat, w: nat): (r: bytes)
    ensures |r| == w
  {
    if w == 0 then [] else BigEndian(n / 256, w - 1) + [n % 256]
  }

  function FromBigEndian(b: bytes): (n: nat)
  {
    if b == [] then 0 else 256 * FromBigEndian(b[..|b| - 1]) + b[|b| - 1]
  }

  /** The low `w` bytes of `n`, least significant first. */
  function LittleEndian(n: nat, w: nat): (r: bytes)
    ensures |r| == w
  {
    if w == 0 then [] else [n % 256] + LittleEndian(n / 256, w - 1)
  }

  function FromLittleEndian(b: bytes): (n: nat)
  {
    if b == [] then 0 else b[0] + 256 * FromLittleEndian(b[1..])
  }

  lemma {:induction false} BigEndianRoundTrip(n: nat, w: nat)
    requires n < Pow256(w)
    ensures FromBigEndian(BigEndian(n, w)) == n
  {
    if w > 0 {
      BigEndianRoundTrip(n / 256, w - 1);
      assert BigEndian(n, w)[..w - 1] == BigEndian(n / 256, w - 1);
    }
  }

  lemma {:induction false} LittleEndianRoundTrip(n: nat, w: nat)
    requires n < Pow256(w)
    ensures FromLittleEndian(LittleEndian(n, w)) == n
  {
    if w > 0 {
      LittleEndianRoundTrip(n / 256, w - 1);
      assert LittleEndian(n, w)[1..] == LittleEndian(n / 256, w - 1);
    }
  }

  lemma LittleEndian32RoundTrip(n: uint32)
    ensures FromLittleEndian(LittleEndian(n, 4)) == n
  {
    Pow256Values();
    LittleEndianRoundTrip(n, 4);
  }

  lemma {:induction false} FromBigEndianRange(b: bytes)
    ensures FromBigEndian(b) < Pow256(|b|)
  {
    if b != [] {
      FromBigEndianRange(b[..|b| - 1]);
    }
  }

  lemma {:induction false} FromLittleEndianRange(b: bytes)
    ensures FromLittleEndian(b) < Pow256(|b|)
  {
    if b != [] {
      FromLittleEndianRange(b[1..]);
    }
  }

  // ---------- reversal ----------

  function Reverse<T>(s: seq<T>): (r: seq<T>)
  {
    if s == [] then [] else Reverse(s[1..]) + [s[0]]
  }

  lemma {:induction false} ReverseLength<T>(s: seq<T>)
    ensures |Reverse(s)| == |s|
  {
    if s != [] {
      ReverseLength(s[1..]);
    }
  }

  lemma {:induction false} ReverseAt<T>(s: seq<T>, i: nat)
    requires i < |s|
    ensures |Reverse(s)| == |s| && Reverse(s)[i] == s[|s| - 1 - i]
  {
    ReverseLength(s[1..]);
    if i < |s| - 1 {
      ReverseAt(s[1..], i);
    }
  }

  lemma {:induction false} ReverseSnoc<T>(s: seq<T>, x: T)
    ensures Reverse(s + [x]) == [x] + Reverse(s)
  {
    if s != [] {
      ReverseSnoc(s[1..], x);
      assert (s + [x])[1..] == s[1..] + [x];
    }
  }

  /** Reading a reversed buffer as little-endian is reading the buffer as big-endian. */
  lemma {:induction false} ReversedLittleIsBig(b: bytes)
    ensures FromLittleEndian(Reverse(b)) == FromBigEndian(b)
  {
    if b != [] {
      var init := b[..|b| - 1];
      ReversedLittleIsBig(init);
      ReverseSnoc(init, b[|b| - 1]);
      assert b == init + [b[|b| - 1]];
    }
  }

  // ---------- the store's key order ----------

  /** `bytes.Compare(a, b) == -1`. */
  predicate Less(a: bytes, b: bytes)
  {
    if b == [] then false
    else if a == [] then true
    else if a[0] != b[0] then a[0] < b[0]
    else Less(a[1..], b[1..])
  }

  predicate AtMost(a: bytes, b: bytes)
  {
    a == b || Less(a, b)
  }

  lemma LessIrreflexive(a: bytes)
    ensures !Less(a, a)
  {}

  lemma {:induction false} LessTransitive(a: bytes, b: bytes, c: bytes)
    requires Less(a, b) && Less(b, c)
    ensures Less(a, c)
  {
    if a != [] && a[0] == b[0] == c[0] {
      LessTransitive(a[1..], b[1..], c[1..]);
    }
  }

  lemma {:induction false} LessTotal(a: bytes, b: bytes)
    ensures Less(a, b) || a == b || Less(b, a)
  {
    if a != [] && b != [] && a[0] == b[0] {
      LessTotal(a[1..], b[1..]);
      assert a == [a[0]] + a[1..] && b == [b[0]] + b[1..];
    }
  }

  lemma LessAsymmetric(a: bytes, b: bytes)
    requires Less(a, b)
    ensures !Less(b, a)
  {
    if Less(b, a) {
      LessTransitive(a, b, a);
      LessIrreflexive(a);
    }
  }

  /** A common prefix does not affect the order. */
  lemma {:induction false} LessSamePrefix(p: bytes, a: bytes, b: bytes)
    ensures Less(p + a, p + b) <==> Less(a, b)
  {
    if p == [] {
      assert p + a == a && p + b == b;
    } else {
      LessSamePrefix(p[1..], a, b);
      assert (p + a)[1..] == p[1..] + a && (p + b)[1..] == p[1..] + b;
    }
  }

  /** Anything that lies between two keys with prefix `p`, and is at least as long, has prefix `p`. */
  lemma {:induction false} BetweenSharesPrefix(p: bytes, a: bytes, k: bytes, b: bytes)
    requires AtMost(p + a, k) && Less(k, p + b) && |p| <= |k|
    ensures p <= k
  {
    if p != [] {
      var q := p[1..];
      assert (p + a)[1..] == q + a && (p + b)[1..] == q + b;
      assert (p + a)[0] == p[0] == (p + b)[0];
      assert k[0] == p[0];
      assert p + a == k ==> q + a == k[1..];
      BetweenSharesPrefix(q, a, k[1..], b);
      assert p == [p[0]] + q;
    }
  }

  lemma {:induction false} LessSnoc(a: bytes, x: byte, b: bytes, y: byte)
    requires |a| == |b|
    ensures Less(a + [x], b + [y]) <==> Less(a, b) || (a == b && x < y)
  {
    if a == [] {
      assert a + [x] == [x] && b + [y] == [y];
    } else {
      LessSnoc(a[1..], x, b[1..], y);
      assert (a + [x])[1..] == a[1..] + [x] && (b + [y])[1..] == b[1..] + [y];
      assert a == [a[0]] + a[1..] && b == [b[0]] + b[1..];
    }
  }

  /** Big-endian encodings of one width are ordered as the numbers they encode, and are injective. */
  lemma {:induction false} BigEndianOrder(m: nat, n: nat, w: nat)
    requires m < Pow256(w) && n < Pow256(w)
    ensures Less(BigEndian(m, w), BigEndian(n, w)) <==> m < n
    ensures BigEndian(m, w) == BigEndian(n, w) <==> m == n
  {
    if w > 0 {
      BigEndianOrder(m / 256, n / 256, w - 1);
      LessSnoc(BigEndian(m / 256, w - 1), m % 256, BigEndian(n / 256, w - 1), n % 256);
      BigEndianRoundTrip(m, w);
      BigEndianRoundTrip(n, w);
    }
  }

  // ---------- hexadecimal text: section 8 of RFC 4648, lower case ----------

  function HexDigit(d: nat): (c: char)
    requires d < 16
  {
    if d < 10 then '0' + d as char else 'a' + (d - 10) as char
  }

  /** Accepts both cases, as the decoder does. */
  function HexValue(c: char): (r: int)
    ensures -1 <= r < 16
  {
    if '0' <= c <= '9' then c as int - '0' as int
    else if 'a' <= c <= 'f' then c as int - 'a' as int + 10
    else if 'A' <= c <= 'F' then c as int - 'A' as int + 10
    else -1
  }

  function HexEncode(b: bytes): (s: string)
    ensures |s| == 2 * |b|
  {
    if b == [] then "" else [HexDigit(b[0] / 16), HexDigit(b[0] % 16)] + HexEncode(b[1..])
  }

  /** Two lower-case digits for each byte, the high one first. */
  lemma {:induction false} HexDigits(b: bytes, i: nat)
    requires i < |b|
    ensures HexEncode(b)[2 * i] == "0123456789abcdef"[b[i] / 16]
    ensures HexEncode(b)[2 * i + 1] == "0123456789abcdef"[b[i] % 16]
  {
    if i > 0 {
      HexDigits(b[1..], i - 1);
    }
  }

  datatype Decoded = Decoded(value: bytes) | Malformed

  function HexDecode(s: string): (r: Decoded)
  {
    if s == "" then Decoded([])
    else if |s| == 1 || HexValue(s[0]) < 0 || HexValue(s[1]) < 0 then Malformed
    else match HexDecode(s[2..])
      case Malformed => Malformed
      case Decoded(rest) => Decoded([16 * HexValue(s[0]) + HexValue(s[1])] + rest)
  }

  lemma HexDigitRoundTrip(d: nat)
    requires d < 16
    ensures HexValue(HexDigit(d)) == d
  {}

  lemma HexDecodePair(hi: char, lo: char, rest: string)
    requires HexValue(hi) >= 0 && HexValue(lo) >= 0 && HexDecode(rest).Decoded?
    ensures HexDecode([hi, lo] + rest) == Decoded([16 * HexValue(hi) + HexValue(lo)] + HexDecode(rest).value)
  {
    assert ([hi, lo] + rest)[2..] == rest;
  }

  lemma {:induction false} HexRoundTrip(b: bytes)
    ensures HexDecode(HexEncode(b)) == Decoded(b)
  {
    if b != [] {
      HexRoundTrip(b[1..]);
      var hi, lo := b[0] / 16, b[0] % 16;
      HexDigitRoundTrip(hi);
      HexDigitRoundTrip(lo);
      HexDecodePair(HexDigit(hi), HexDigit(lo), HexEncode(b[1..]));
      assert b == [b[0]] + b[1..];
    }
  }

  lemma HexInjective(a: bytes, b: bytes)
    requires HexEncode(a) == HexEncode(b)
    ensures a == b
  {
    HexRoundTrip(a);
    HexRoundTrip(b);
  }
}
