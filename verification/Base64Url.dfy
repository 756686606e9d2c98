/**
 Unpadded base64url (beeline/src/bpf/base.bpf.c), group by group into a fixed buffer as the data plane does it.
 Encoding and decoding are inverse to each other: decoding accepts exactly the strings that encoding produces.
 */
module Base64Url {
  import opened Arith
  import opened Common

  const EINVAL := 22

  /** The digit for a six-bit value. */
  function Digit(v: nat): Byte
    requires v < 64
  {
    if v < 26 then 'A' as int + v
    else if v < 52 then 'a' as int + v - 26
    else if v < 62 then '0' as int + v - 52
    else if v == 62 then '-' as int
    else '_' as int
  }

  /** `_base64url_value` */
  function Value(c: Byte): (r: int)
    ensures -1 <= r < 64
    ensures r >= 0 ==> Digit(r) == c
  {
    if 'A' as int <= c <= 'Z' as int then c - 'A' as int
    else if 'a' as int <= c <= 'z' as int then c - 'a' as int + 26
    else if '0' as int <= c <= '9' as int then c - '0' as int + 52
    else if c == '-' as int then 62
    else if c == '_' as int then 63
    else -1
  }

  lemma DigitValue(v: nat)
    requires v < 64
    ensures Value(Digit(v)) == v
  {
  }

  // ----- groups of 24 bits

  function Octet(src: Bytes, i: nat): nat
  {
    if i < |src| then src[i] else 0
  }

  function FromOctets(a: nat, b: nat, c: nat): nat
  {
    a * 65536 + b * 256 + c
  }

  function Group(src: Bytes, g: nat): (r: nat)
    ensures r < 0x100_0000
  {
    FromOctets(Octet(src, 3 * g), Octet(src, 3 * g + 1), Octet(src, 3 * g + 2))
  }

  function Sextet(v: nat, k: nat): (r: nat)
    ensures r < 64
  {
    if k == 0 then v / 262144 % 64 else if k == 1 then v / 4096 % 64 else if k == 2 then v / 64 % 64 else v % 64
  }

  function EncodedLen(n: nat): nat
  {
    n / 3 * 4 + if n % 3 != 0 then n % 3 + 1 else 0
  }

  /** Every octet string in digits, the last group cut off after the digits it needs. */
  function Encode(src: Bytes): (r: Bytes)
    ensures |r| == EncodedLen(|src|)
  {
    seq(EncodedLen(|src|), i requires 0 <= i < EncodedLen(|src|) => Digit(Sextet(Group(src, i / 4), i % 4)))
  }

  /** The six bits of digit i; beyond the end, zero. */
  function Bits(s: Bytes, i: nat): int
  {
    if i < |s| then Value(s[i]) else 0
  }

  function FromSextets(a: int, b: int, c: int, d: int): int
  {
    a * 262144 + b * 4096 + c * 64 + d
  }

  predicate GoodGroup(s: Bytes, g: nat)
  {
    Bits(s, 4 * g) >= 0 && Bits(s, 4 * g + 1) >= 0 && Bits(s, 4 * g + 2) >= 0 && Bits(s, 4 * g + 3) >= 0
  }

  function Ungroup(s: Bytes, g: nat): (r: nat)
    requires GoodGroup(s, g)
    ensures r < 0x100_0000
  {
    FromSextets(Bits(s, 4 * g), Bits(s, 4 * g + 1), Bits(s, 4 * g + 2), Bits(s, 4 * g + 3))
  }

  function DecodedLen(n: nat): (r: nat)
    ensures 4 * r <= 3 * n
  {
    n / 4 * 3 + if n % 4 != 0 then n % 4 - 1 else 0
  }

  /** How many octets group g yields. */
  function Yield(len: nat, g: nat): nat
    requires 3 * g <= len
  {
    if len - 3 * g < 3 then len - 3 * g else 3
  }

  /** The bits of a group after its last octet. */
  function Spare(v: nat, n: nat): nat
  {
    if n == 0 then v % 0x100_0000 else if n == 1 then v % 65536 else if n == 2 then v % 256 else 0
  }

  function OctetOf(v: nat, k: nat): (r: nat)
    ensures r < 256
  {
    if k == 0 then v / 65536 % 256 else if k == 1 then v / 256 % 256 else v % 256
  }

  function Groups(s: Bytes): nat
  {
    (|s| + 3) / 4
  }

  predicate GroupOk(s: Bytes, g: nat)
    requires |s| % 4 != 1 && g < Groups(s)
  {
    GoodGroup(s, g) && Spare(Ungroup(s, g), Yield(DecodedLen(|s|), g)) == 0
  }

  predicate Decodable(s: Bytes)
  {
    |s| % 4 != 1 && forall g :: 0 <= g < Groups(s) ==> GroupOk(s, g)
  }

  function Decode(s: Bytes): (r: Bytes)
    requires Decodable(s)
    ensures |r| == DecodedLen(|s|)
  {
    seq(DecodedLen(|s|), i requires 0 <= i < DecodedLen(|s|) =>
          assert GroupOk(s, i / 3); OctetOf(Ungroup(s, i / 3), i % 3))
  }

  // ----- inverse

  /** One digit split off a number in base b. */
  lemma SplitOff(b: nat, q: nat, r: nat)
    requires 0 < b && r < b
    ensures (q * b + r) / b == q && (q * b + r) % b == r
  {
    DivModUnique(q * b + r, b, q, r);
  }

  lemma Quotients(v: nat)
    ensures v / 4096 == v / 64 / 64 && v / 262144 == v / 64 / 64 / 64 && v / 65536 == v / 256 / 256
  {
    Squares(v);
    Cubes(v);
  }

  lemma Squares(v: nat)
    ensures v / 4096 == v / 64 / 64 && v / 65536 == v / 256 / 256
  {
  }

  lemma Cubes(v: nat)
    ensures v / 262144 == v / 4096 / 64
  {
  }

  lemma Recombine(v: nat)
    requires v < 0x100_0000
    ensures FromSextets(Sextet(v, 0), Sextet(v, 1), Sextet(v, 2), Sextet(v, 3)) == v
    ensures FromOctets(OctetOf(v, 0), OctetOf(v, 1), OctetOf(v, 2)) == v
  {
    Quotients(v);
    Base64Digits(v, v / 64, v / 64 / 64, v / 64 / 64 / 64);
    Base256Digits(v, v / 256, v / 256 / 256);
  }

  lemma Base64Digits(v: nat, q1: nat, q2: nat, q3: nat)
    requires q1 == v / 64 && q2 == q1 / 64 && q3 == q2 / 64 && v < 0x100_0000
    ensures FromSextets(q3 % 64, q2 % 64, q1 % 64, v % 64) == v
  {
    assert v == 64 * q1 + v % 64;
    assert q1 == 64 * q2 + q1 % 64;
    assert q2 == 64 * q3 + q2 % 64;
    assert q3 < 64;
  }

  lemma Base256Digits(v: nat, q1: nat, q2: nat)
    requires q1 == v / 256 && q2 == q1 / 256 && v < 0x100_0000
    ensures FromOctets(q2 % 256, q1 % 256, v % 256) == v
  {
    assert v == 256 * q1 + v % 256;
    assert q1 == 256 * q2 + q1 % 256;
    assert q2 < 256;
  }

  lemma SextetsBack(a: nat, b: nat, c: nat, d: nat)
    requires a < 64 && b < 64 && c < 64 && d < 64
    ensures var v := FromSextets(a, b, c, d);
            && v < 0x100_0000
            && Sextet(v, 0) == a && Sextet(v, 1) == b && Sextet(v, 2) == c && Sextet(v, 3) == d
  {
    var v := FromSextets(a, b, c, d);
    var q2 := a * 64 + b;
    var q1 := q2 * 64 + c;
    assert v == q1 * 64 + d;
    SplitOff(64, q1, d);
    SplitOff(64, q2, c);
    SplitOff(64, a, b);
    Quotients(v);
  }

  lemma OctetsBack(a: nat, b: nat, c: nat)
    requires a < 256 && b < 256 && c < 256
    ensures var v := FromOctets(a, b, c);
            v < 0x100_0000 && OctetOf(v, 0) == a && OctetOf(v, 1) == b && OctetOf(v, 2) == c
  {
    var v := FromOctets(a, b, c);
    assert v == (a * 256 + b) * 256 + c;
    SplitOff(256, a * 256 + b, c);
    SplitOff(256, a, b);
    Quotients(v);
  }

  lemma Lengths(n: nat)
    ensures var m := EncodedLen(n); m % 4 != 1 && DecodedLen(m) == n && (m + 3) / 4 == (n + 2) / 3
  {
  }

  lemma LengthsBack(m: nat)
    requires m % 4 != 1
    ensures EncodedLen(DecodedLen(m)) == m && (m + 3) / 4 == (DecodedLen(m) + 2) / 3
  {
  }

  /** The digits that are cut off are zero. */
  lemma EncodedBits(x: Bytes, g: nat, k: nat)
    requires g < (|x| + 2) / 3 && k < 4
    ensures Bits(Encode(x), 4 * g + k) == Sextet(Group(x, g), k)
  {
    hide Sextet, Group, Value, Digit;
    var i := 4 * g + k;
    var s := Encode(x);
    assert i / 4 == g && i % 4 == k;
    if i < |s| {
      DigitValue(Sextet(Group(x, g), k));
    } else {
      CutDigit(x, g, k);
    }
  }

  lemma CutDigit(x: Bytes, g: nat, k: nat)
    requires g < (|x| + 2) / 3 && k < 4 && 4 * g + k >= EncodedLen(|x|)
    ensures Sextet(Group(x, g), k) == 0
  {
    hide Sextet;
    LastGroup(|x|, g, k);
    if |x| % 3 == 1 {
      OneOctet(Octet(x, 3 * g));
    } else {
      TwoOctets(Octet(x, 3 * g), Octet(x, 3 * g + 1));
    }
  }

  lemma LastGroup(n: nat, g: nat, k: nat)
    requires g < (n + 2) / 3 && k < 4 && 4 * g + k >= EncodedLen(n)
    ensures n % 3 != 0 && 3 * g + n % 3 == n && k > n % 3
  {
  }

  lemma OneOctet(a: nat)
    ensures Sextet(FromOctets(a, 0, 0), 2) == 0 && Sextet(FromOctets(a, 0, 0), 3) == 0
  {
    var v := FromOctets(a, 0, 0);
    assert v == 64 * (a * 1024) && a * 1024 == 64 * (a * 16);
  }

  lemma TwoOctets(a: nat, b: nat)
    ensures Sextet(FromOctets(a, b, 0), 3) == 0
  {
    assert FromOctets(a, b, 0) == 64 * (a * 1024 + b * 4);
  }

  lemma EncodedGroup(x: Bytes, g: nat)
    requires g < (|x| + 2) / 3
    ensures GoodGroup(Encode(x), g) && Ungroup(Encode(x), g) == Group(x, g)
    ensures Spare(Group(x, g), Yield(|x|, g)) == 0
  {
    hide Sextet, Encode, FromSextets, Group;
    EncodedBits(x, g, 0);
    EncodedBits(x, g, 1);
    EncodedBits(x, g, 2);
    EncodedBits(x, g, 3);
    Recombine(Group(x, g));
    SpareZero(x, g);
  }

  lemma SpareZero(x: Bytes, g: nat)
    requires g < (|x| + 2) / 3
    ensures Spare(Group(x, g), Yield(|x|, g)) == 0
  {
  }

  /** What was encoded decodes to what it was. */
  lemma RoundTrip(x: Bytes)
    ensures Decodable(Encode(x)) && Decode(Encode(x)) == x
  {
    hide Encode, Group, Spare, Ungroup, GoodGroup, FromOctets, OctetOf;
    var s := Encode(x);
    Lengths(|x|);
    forall g | 0 <= g < Groups(s) ensures GroupOk(s, g) {
      EncodedGroup(x, g);
    }
    forall i | 0 <= i < |x| ensures Decode(s)[i] == x[i] {
      EncodedGroup(x, i / 3);
      GroupOctet(x, i / 3, i % 3);
      assert GroupOk(s, i / 3);
    }
  }

  lemma GroupOctet(x: Bytes, g: nat, k: nat)
    requires k < 3
    ensures OctetOf(Group(x, g), k) == Octet(x, 3 * g + k)
  {
    OctetsBack(Octet(x, 3 * g), Octet(x, 3 * g + 1), Octet(x, 3 * g + 2));
  }

  /** Whatever is decoded is what its octets encode to: no string has a second spelling. */
  lemma RoundTripBack(s: Bytes)
    requires Decodable(s)
    ensures Encode(Decode(s)) == s
  {
    hide Decode, Group, Sextet, Value, Digit;
    var x := Decode(s);
    LengthsBack(|s|);
    forall i | 0 <= i < |s| ensures Encode(x)[i] == s[i] {
      var g := i / 4;
      assert GroupOk(s, g);
      DecodedGroup(s, g);
      var a, b, c, d := Bits(s, 4 * g), Bits(s, 4 * g + 1), Bits(s, 4 * g + 2), Bits(s, 4 * g + 3);
      SextetsBack(a, b, c, d);
      assert Sextet(Ungroup(s, g), i % 4) == Bits(s, i);
    }
  }

  lemma DecodedGroup(s: Bytes, g: nat)
    requires Decodable(s) && g < Groups(s)
    ensures GoodGroup(s, g) && Group(Decode(s), g) == Ungroup(s, g)
  {
    hide Ungroup, GoodGroup, OctetOf, FromOctets;
    var x := Decode(s);
    assert GroupOk(s, g);
    var v := Ungroup(s, g);
    LengthsBack(|s|);
    DecodedOctet(s, g, 0);
    DecodedOctet(s, g, 1);
    DecodedOctet(s, g, 2);
    Recombine(v);
  }

  lemma DecodedOctet(s: Bytes, g: nat, k: nat)
    requires Decodable(s) && g < Groups(s) && k < 3 && GoodGroup(s, g)
    ensures Octet(Decode(s), 3 * g + k) == OctetOf(Ungroup(s, g), k)
  {
    hide Ungroup, GoodGroup;
    assert GroupOk(s, g);
    var len := DecodedLen(|s|);
    LengthsBack(|s|);
    var i := 3 * g + k;
    assert i / 3 == g && i % 3 == k;
    if i >= len {
      assert Spare(Ungroup(s, g), Yield(len, g)) == 0;
      SpareCovers(Ungroup(s, g), Yield(len, g), k);
    }
  }

  lemma SpareCovers(v: nat, n: nat, k: nat)
    requires v < 0x100_0000 && n <= k < 3 && Spare(v, n) == 0
    ensures OctetOf(v, k) == 0
  {
    if n == 1 {
      var q := v / 65536;
      assert v == q * 256 * 256 + 0;
      SplitOff(256, q * 256, 0);
      SplitOff(256, q, 0);
    }
  }

  // ----- the same bits

  /** Bit j of a number, counted from the lowest. */
  function BitOf(v: nat, j: nat): nat
  {
    v / Pow2(j) % 2
  }

  /** Bit i of a string of octets, the highest of the first octet coming first. */
  function OctetsBit(x: Bytes, i: nat): nat
    requires i < 8 * |x|
  {
    BitOf(x[i / 8], 7 - i % 8)
  }

  /** Bit i of a string of digits of six bits each. */
  function DigitsBit(s: Bytes, i: nat): nat
    requires i < 6 * |s| && Value(s[i / 6]) >= 0
  {
    BitOf(Value(s[i / 6]), 5 - i % 6)
  }

  lemma Product(t: int, c: int, e: int, u: int, w: int)
    ensures t * (c * e) + (u * c + w) == (t * e + u) * c + w
  {
  }

  /** The quotient by a product, and what a remainder by it leaves of the quotient by its first factor. */
  lemma DivOfProduct(q: nat, c: nat, e: nat)
    requires c > 0 && e > 0
    ensures c * e > 0 && q / (c * e) == q / c / e && q % (c * e) / c == q / c % e
  {
    var p, w := q / c, q % c;
    var t, u := p / e, p % e;
    MulLe(1, e, c);
    MulLe(u + 1, e, c);
    Product(t, c, e, u, w);
    var r := u * c + w;
    assert q == t * (c * e) + r;
    DivModUnique(q, c * e, t, r);
    DivModUnique(r, c, u, w);
  }

  /** A bit of a part of a number is a bit of the number. */
  lemma PartBit(v: nat, s: nat, w: nat, j: nat)
    requires j < w
    ensures BitOf(v / Pow2(s) % Pow2(w), j) == BitOf(v, s + j)
  {
    hide Pow2;
    var q, c, d := v / Pow2(s), Pow2(j), Pow2(w - j - 1);
    Pow2Add(j, w - j);
    DoublePower(w - j - 1);
    DivOfProduct(q, c, 2 * d);
    ModMod(q / c, 2, d);
    Pow2Add(s, j);
    DivOfProduct(v, Pow2(s), c);
  }

  lemma DoublePower(n: nat)
    ensures Pow2(n + 1) == 2 * Pow2(n)
  {
  }

  lemma Powers()
    ensures Pow2(0) == 1 && Pow2(6) == 64 && Pow2(8) == 256 && Pow2(12) == 4096
    ensures Pow2(16) == 65536 && Pow2(18) == 262144
  {
    assert Pow2(4) == 16;
    Pow2Add(4, 4);
    Pow2Add(8, 4);
    Pow2Add(8, 8);
    Pow2Add(12, 6);
    assert Pow2(6) == 4 * Pow2(4);
  }

  lemma OctetBits(v: nat, k: nat, j: nat)
    requires k < 3 && j < 8
    ensures BitOf(OctetOf(v, k), j) == BitOf(v, 16 - 8 * k + j)
  {
    hide Pow2;
    Powers();
    PartBit(v, 16 - 8 * k, 8, j);
  }

  lemma SextetBits(v: nat, k: nat, j: nat)
    requires k < 4 && j < 6
    ensures BitOf(Sextet(v, k), j) == BitOf(v, 18 - 6 * k + j)
  {
    hide Pow2;
    Powers();
    PartBit(v, 18 - 6 * k, 6, j);
  }

  /** The digits spell the bits of the octets in their order, and nothing but zeros behind them (section 4 of
      RFC 4648). */
  lemma SameBits(x: Bytes, i: nat)
    requires i < 6 * EncodedLen(|x|)
    ensures var s := Encode(x);
            && Value(s[i / 6]) >= 0
            && DigitsBit(s, i) == if i < 8 * |x| then OctetsBit(x, i) else 0
  {
    hide Value, Digit, Group, Sextet, OctetOf, BitOf;
    var g, p := i / 24, i % 24;
    var d, k := i / 6, p / 6;
    assert d / 4 == g && d % 4 == k && 5 - i % 6 == 5 - p % 6;
    var v := Group(x, g);
    DigitValue(Sextet(v, k));
    SextetBits(v, k, 5 - p % 6);
    assert 18 - 6 * k + (5 - p % 6) == 23 - p;
    GroupOctet(x, g, p / 8);
    OctetBits(v, p / 8, 7 - p % 8);
    assert 16 - 8 * (p / 8) + (7 - p % 8) == 23 - p;
    assert 3 * g + p / 8 == i / 8 && p % 8 == i % 8;
    if i >= 8 * |x| {
      NoBits(7 - p % 8);
    }
  }

  lemma NoBits(j: nat)
    ensures BitOf(0, j) == 0
  {
    DivModUnique(0, Pow2(j), 0, 0);
  }

  // ----- the loops

  /** `bpf_base64url_encode`; a buffer too short is refused before anything is written. */
  method EncodeInto(src: Bytes, dst: array<Byte>) returns (r: int)
    modifies dst
    ensures EncodedLen(|src|) > dst.Length ==> r == -EINVAL && dst[..] == old(dst[..])
    ensures EncodedLen(|src|) <= dst.Length ==> r == EncodedLen(|src|) && dst[..] == Encode(src) + old(dst[r..])
  {
    hide Group, Sextet, Digit;
    var len := |src| / 3 * 4 + if |src| % 3 != 0 then |src| % 3 + 1 else 0;
    if len > dst.Length {
      return -EINVAL;
    }
    ghost var spec := Encode(src);
    for g := 0 to (|src| + 2) / 3
      invariant forall i :: 0 <= i < 4 * g && i < len ==> dst[i] == spec[i]
      invariant forall i :: len <= i < dst.Length ==> dst[i] == old(dst[i])
    {
      var v := GroupOf(src, g);
      for k := 0 to 4
        invariant forall i :: 0 <= i < 4 * g + k && i < len ==> dst[i] == spec[i]
        invariant forall i :: len <= i < dst.Length ==> dst[i] == old(dst[i])
      {
        var out := 4 * g + k;
        if out < len {
          assert out / 4 == g && out % 4 == k;
          dst[out] := Digit(Sextet(v, k));
        }
      }
    }
    r := len;
    Covered(|src|);
    assert dst[..len] == spec;
    assert dst[len..] == old(dst[len..]);
    assert dst[..] == dst[..len] + dst[len..];
  }

  lemma Covered(n: nat)
    ensures EncodedLen(n) <= 4 * ((n + 2) / 3)
  {
  }

  method GroupOf(src: Bytes, g: nat) returns (v: nat)
    ensures v == Group(src, g)
  {
    v := 0;
    for k := 0 to 3
      invariant v == if k == 0 then 0 else if k == 1 then Octet(src, 3 * g)
                     else if k == 2 then Octet(src, 3 * g) * 256 + Octet(src, 3 * g + 1) else Group(src, g)
    {
      var idx := 3 * g + k;
      v := v * 256 + if idx < |src| then src[idx] else 0;
    }
  }

  /** `bpf_base64url_decode`; a refused string may have left decoded octets in the buffer. */
  method DecodeInto(src: Bytes, dst: array<Byte>) returns (r: int)
    modifies dst
    ensures r >= 0 <==> Decodable(src) && DecodedLen(|src|) <= dst.Length
    ensures r < 0 ==> r == -EINVAL
    ensures r >= 0 ==> r == DecodedLen(|src|) && dst[..] == Decode(src) + old(dst[r..])
  {
    hide Ungroup, GoodGroup, OctetOf, Spare;
    var len := |src| / 4 * 3 + if |src| % 4 != 0 then |src| % 4 - 1 else 0;
    if |src| % 4 == 1 || len > dst.Length {
      return -EINVAL;
    }
    LengthsBack(|src|);
    for g := 0 to (|src| + 3) / 4
      invariant forall h :: 0 <= h < g ==> GroupOk(src, h)
      invariant forall i :: 0 <= i < 3 * g && i < len ==>
                  GroupOk(src, i / 3) && dst[i] == OctetOf(Ungroup(src, i / 3), i % 3)
      invariant forall i :: len <= i < dst.Length ==> dst[i] == old(dst[i])
    {
      var v := UngroupOf(src, g);
      if v < 0 {
        assert !GroupOk(src, g);
        return -EINVAL;
      }
      var n := if len - 3 * g < 3 then len - 3 * g else 3;
      if Spare(v, n) != 0 {
        assert !GroupOk(src, g);
        return -EINVAL;
      }
      assert GroupOk(src, g);
      for k := 0 to 3
        invariant forall i :: 0 <= i < 3 * g + k && i < len ==>
                    GroupOk(src, i / 3) && dst[i] == OctetOf(Ungroup(src, i / 3), i % 3)
        invariant forall i :: len <= i < dst.Length ==> dst[i] == old(dst[i])
      {
        var out := 3 * g + k;
        if out < len {
          assert out / 3 == g && out % 3 == k;
          dst[out] := OctetOf(v, k);
        }
      }
    }
    r := len;
    assert dst[..len] == Decode(src);
    assert dst[len..] == old(dst[len..]);
    assert dst[..] == dst[..len] + dst[len..];
  }

  /** The 24 bits of a group of digits, or -1 if one is no digit. */
  method UngroupOf(s: Bytes, g: nat) returns (v: int)
    ensures v < 0 <==> !GoodGroup(s, g)
    ensures v >= 0 ==> v == Ungroup(s, g)
  {
    v := 0;
    for k := 0 to 4
      invariant (k >= 1 ==> Bits(s, 4 * g) >= 0) && (k >= 2 ==> Bits(s, 4 * g + 1) >= 0)
      invariant (k >= 3 ==> Bits(s, 4 * g + 2) >= 0) && (k >= 4 ==> Bits(s, 4 * g + 3) >= 0)
      invariant v == if k == 0 then 0 else if k == 1 then Bits(s, 4 * g)
                     else if k == 2 then Bits(s, 4 * g) * 64 + Bits(s, 4 * g + 1)
                     else if k == 3 then Bits(s, 4 * g) * 4096 + Bits(s, 4 * g + 1) * 64 + Bits(s, 4 * g + 2)
                     else FromSextets(Bits(s, 4 * g), Bits(s, 4 * g + 1), Bits(s, 4 * g + 2), Bits(s, 4 * g + 3))
    {
      var idx := 4 * g + k;
      var c := if idx < |s| then Value(s[idx]) else 0;
      assert c == Bits(s, 4 * g + k);
      if c < 0 {
        return -1;
      }
      v := v * 64 + c;
    }
  }
}
