/**
 Huffman string coding (hpack/huffman/mod.rs, section 5.2 of RFC 7541) for an arbitrary code table with code lengths 1
 to 30. `EncodeInto` is the source's loop over a 64-bit accumulator; `Packed` says which bytes it must produce.
 */
module Huffman {
  import opened Arith
  import opened Common

  /** An entry of `ENCODE_TABLE`: number of bits, and the bits themselves. */
  datatype Code = Code(nbits: nat, bits: nat)

  type CodeTable = t: seq<Code> | |t| == 256 && forall i :: 0 <= i < 256 ==> CodeOk(t[i])
    witness seq(256, _ => Code(1, 0))

  predicate CodeOk(c: Code)
  {
    1 <= c.nbits <= 30 && c.bits < Pow2(c.nbits)
  }

  type Bits = seq<bool>

  /** The low n bits of v, most significant first. */
  function BitsOf(v: nat, n: nat): (r: Bits)
    ensures |r| == n
  {
    if n == 0 then [] else BitsOf(v / 2, n - 1) + [v % 2 == 1]
  }

  function CodeBits(t: CodeTable, b: Byte): Bits
  {
    BitsOf(t[b].bits, t[b].nbits)
  }

  /** The concatenated codes of a string. */
  function StringBits(t: CodeTable, src: Bytes): Bits
  {
    if src == [] then [] else CodeBits(t, src[0]) + StringBits(t, src[1..])
  }

  /** The bits of a byte string. */
  function BytesBits(bs: Bytes): (r: Bits)
    ensures |r| == 8 * |bs|
  {
    if bs == [] then [] else BitsOf(bs[0], 8) + BytesBits(bs[1..])
  }

  function Ones(n: nat): (r: Bits)
    ensures |r| == n && forall i :: 0 <= i < n ==> r[i]
  {
    seq(n, _ => true)
  }

  /** The number whose bits these are. */
  function Value(bits: Bits): (v: nat)
  {
    if bits == [] then 0 else 2 * Value(bits[..|bits| - 1]) + if bits[|bits| - 1] then 1 else 0
  }

  lemma {:induction false} ValueBound(bits: Bits)
    ensures Value(bits) < Pow2(|bits|)
  {
    if bits != [] {
      ValueBound(bits[..|bits| - 1]);
    }
  }

  /** Full bytes of a bit string, and a last byte filled up with ones. */
  function Packed(bits: Bits): (r: Bytes)
    decreases |bits|
  {
    if bits == [] then []
    else if |bits| < 8 then [ByteOf(bits + Ones(8 - |bits|))]
    else [ByteOf(bits[..8])] + Packed(bits[8..])
  }

  function ByteOf(bits: Bits): Byte
    requires |bits| == 8
  {
    ValueBound(bits);
    assert Pow2(8) == 256 by { assert Pow2(4) == 16; }
    Value(bits)
  }

  lemma {:induction false} BitsOfValue(bits: Bits)
    ensures BitsOf(Value(bits), |bits|) == bits
  {
    if bits != [] {
      BitsOfValue(bits[..|bits| - 1]);
      assert bits == bits[..|bits| - 1] + [bits[|bits| - 1]];
    }
  }

  lemma {:induction false} ValueOfBits(v: nat, n: nat)
    requires v < Pow2(n)
    ensures Value(BitsOf(v, n)) == v
  {
    if n > 0 {
      ValueOfBits(v / 2, n - 1);
      var b := BitsOf(v, n);
      assert b[..n - 1] == BitsOf(v / 2, n - 1);
    }
  }

  /** `encode` outputs the bits of the codes and fewer than eight ones (section 5.2 of RFC 7541). */
  lemma {:induction false} PackedBits(bits: Bits)
    ensures var pad := (8 - |bits| % 8) % 8;
            BytesBits(Packed(bits)) == bits + Ones(pad)
    decreases |bits|
  {
    hide Packed, BytesBits;
    if bits == [] {
      PackedEmpty();
    } else if |bits| < 8 {
      PackedTail(bits);
    } else {
      PackedStep(bits);
      PackedBits(bits[8..]);
      assert bits == bits[..8] + bits[8..];
    }
  }

  lemma PackedStep(bits: Bits)
    requires |bits| >= 8
    ensures BytesBits(Packed(bits)) == bits[..8] + BytesBits(Packed(bits[8..]))
    ensures |bits[8..]| % 8 == |bits| % 8
  {
    hide BitsOf, Value;
    BitsOfValue(bits[..8]);
    var r := Packed(bits);
    assert r[1..] == Packed(bits[8..]);
    assert BytesBits(r) == BitsOf(r[0], 8) + BytesBits(r[1..]);
  }

  lemma PackedEmpty()
    ensures BytesBits(Packed([])) == []
  {
  }

  lemma PackedTail(bits: Bits)
    requires 0 < |bits| < 8
    ensures BytesBits(Packed(bits)) == bits + Ones(8 - |bits|)
  {
    hide BitsOf, Value;
    var full := bits + Ones(8 - |bits|);
    BitsOfValue(full);
    var r := Packed(bits);
    assert r[1..] == [];
    assert BytesBits(r) == BitsOf(r[0], 8) + BytesBits(r[1..]);
  }

  lemma {:induction false} BytesBitsInjective(a: Bytes, b: Bytes)
    requires BytesBits(a) == BytesBits(b)
    ensures a == b
  {
    if a != [] {
      var x, y := BytesBits(a), BytesBits(b);
      assert b != [];
      assert x[..8] == BitsOf(a[0], 8) && y[..8] == BitsOf(b[0], 8);
      assert x[8..] == BytesBits(a[1..]) && y[8..] == BytesBits(b[1..]);
      BytesBitsInjective(a[1..], b[1..]);
      ByteRange();
      ValueOfBits(a[0], 8);
      ValueOfBits(b[0], 8);
      assert a == [a[0]] + a[1..] && b == [b[0]] + b[1..];
    } else {
      assert |BytesBits(b)| == 0;
    }
  }

  lemma ByteRange()
    ensures Pow2(8) == 256
  {
    assert Pow2(4) == 16;
  }

  lemma {:induction false} BytesBitsAppend(a: Bytes, b: Byte)
    ensures BytesBits(a + [b]) == BytesBits(a) + BitsOf(b, 8)
  {
    if a == [] {
      assert [b][1..] == [];
      assert BytesBits([b]) == BitsOf(b, 8) + BytesBits([]);
    } else {
      assert (a + [b])[1..] == a[1..] + [b];
      BytesBitsAppend(a[1..], b);
    }
  }

  lemma {:induction false} StringBitsConcat(t: CodeTable, a: Bytes, b: Bytes)
    ensures StringBits(t, a + b) == StringBits(t, a) + StringBits(t, b)
  {
    if a == [] {
      assert a + b == b;
    } else {
      assert (a + b)[1..] == a[1..] + b;
      StringBitsConcat(t, a[1..], b);
    }
  }

  lemma StringBitsAppend(t: CodeTable, a: Bytes, b: Byte)
    ensures StringBits(t, a + [b]) == StringBits(t, a) + CodeBits(t, b)
  {
    StringBitsConcat(t, a, [b]);
    assert [b][1..] == [];
    assert StringBits(t, [b]) == CodeBits(t, b) + StringBits(t, []);
  }

  function Hi(v: nat, m: nat): nat
  {
    DivNonNegative(v, Pow2(m));
    v / Pow2(m)
  }

  function Lo(v: nat, m: nat): nat
  {
    v % Pow2(m)
  }

  lemma DivNonNegative(v: nat, p: nat)
    requires p > 0
    ensures v / p >= 0
  {
    if v / p < 0 {
      assert v == (v / p) * p + v % p;
      MulLe(v / p, -1, p);
    }
  }

  /** The top n and the low m bits of a number. */
  lemma {:induction false} BitsSplit(v: nat, n: nat, m: nat)
    ensures BitsOf(v, n + m) == BitsOf(Hi(v, m), n) + BitsOf(Lo(v, m), m)
  {
    if m > 0 {
      BitsSplit(v / 2, n, m - 1);
      HalfDivMod(v, Pow2(m - 1));
    }
  }

  lemma HalfDivMod(v: nat, h: nat)
    requires h > 0
    ensures (v / 2) / h == v / (2 * h)
    ensures (v / 2) % h == (v % (2 * h)) / 2 && (v % (2 * h)) % 2 == v % 2
  {
    var q, r := (v / 2) / h, (v / 2) % h;
    assert v / 2 == q * h + r;
    assert v == q * (2 * h) + (2 * r + v % 2);
    DivModUnique(v, 2 * h, q, 2 * r + v % 2);
  }

  /** Bitwise `|` on machine words. */
  function BitOr(x: nat, y: nat): (r: nat)
    decreases x + y
  {
    if x == 0 then y
    else if y == 0 then x
    else 2 * BitOr(x / 2, y / 2) + (if x % 2 == 1 || y % 2 == 1 then 1 else 0)
  }

  /** Or-ing in bits below the lowest bit set is addition. */
  lemma {:induction false} OrIsSum(x: nat, y: nat, k: nat)
    requires x % Pow2(k) == 0 && y < Pow2(k)
    ensures BitOr(x, y) == x + y
    decreases k
  {
    if x != 0 && y != 0 {
      var h := Pow2(k - 1);
      HalfDivMod(x, h);
      OrIsSum(x / 2, y / 2, k - 1);
    }
  }

  /** A string's Huffman code. */
  function Encode(t: CodeTable, src: Bytes): Bytes
  {
    Packed(StringBits(t, src))
  }

  /** `v << n` */
  function Shl(v: nat, n: nat): nat
  {
    v * Pow2(n)
  }

  // ----- the accumulator

  const WORD := 0x1_0000_0000_0000_0000
  const TOP := 0x100_0000_0000

  lemma Pow2Constants()
    ensures Pow2(32) == 0x1_0000_0000 && Pow2(40) == TOP
  {
    hide Pow2;
    ByteRange();
    Pow2Add(8, 8);
    Pow2Add(16, 16);
    Pow2Add(32, 8);
  }

  /** The low 40 bits of the accumulator hold the 40 - left pending bits of p, then zeros. What is above bit 40 is left
      over from bytes already written. */
  ghost predicate Holds(acc: nat, left: nat, p: nat)
  {
    left <= 40 && acc < WORD && p < Pow2(40 - left) && acc % TOP == p * Pow2(left)
  }

  lemma Shifted(p: nat, a: nat, b: nat)
    requires b <= 40 && a == 40 - b && p < Pow2(a)
    ensures 0 <= p * Pow2(b) <= TOP - Pow2(b)
  {
    hide Pow2;
    Pow2Constants();
    Pow2Add(a, b);
    MulLe(p, Pow2(a) - 1, Pow2(b));
  }

  lemma Product(p: nat, n: nat, q: nat, left: nat)
    requires n <= left
    ensures p * Pow2(left) + q * Pow2(left - n) == (p * Pow2(n) + q) * Pow2(left - n)
  {
    hide Pow2;
    Pow2Add(n, left - n);
    var a, b := Pow2(n), Pow2(left - n);
    assert p * (a * b) == (p * a) * b;
  }

  lemma AppendBound(p: nat, m: nat, q: nat, n: nat)
    requires p < Pow2(m) && q < Pow2(n)
    ensures 0 <= p * Pow2(n) + q < Pow2(m + n)
  {
    hide Pow2;
    Pow2Add(m, n);
    MulLe(p + 1, Pow2(m), Pow2(n));
  }

  lemma AppendBits(p: nat, m: nat, q: nat, n: nat)
    requires q < Pow2(n)
    ensures 0 <= p * Pow2(n) + q && BitsOf(p * Pow2(n) + q, m + n) == BitsOf(p, m) + BitsOf(q, n)
  {
    hide Pow2, BitsOf;
    var v := p * Pow2(n) + q;
    DivModUnique(v, Pow2(n), p, q);
    BitsSplit(v, m, n);
  }

  /** Or-ing a code in below the pending bits appends it. */
  lemma AddCode(acc: nat, left: nat, p: nat, c: Code)
    requires Holds(acc, left, p) && 33 <= left && CodeOk(c)
    ensures Holds(BitOr(acc, Shl(c.bits, left - c.nbits)), left - c.nbits, Shl(p, c.nbits) + c.bits)
  {
    hide Pow2, BitOr;
    var n := c.nbits;
    var y := c.bits * Pow2(left - n);
    CodeFits(c, left);
    LowBitsZero(acc, left, p);
    OrIsSum(acc, y, left);
    Product(p, n, c.bits, left);
    AppendBound(p, 40 - left, c.bits, n);
    Shifted(p * Pow2(n) + c.bits, 40 - left + n, left - n);
    var v := (p * Pow2(n) + c.bits) * Pow2(left - n);
    assert acc + y == (acc / TOP) * TOP + v;
    SumInWord(acc, y, v);
  }

  lemma SumInWord(acc: nat, y: nat, v: nat)
    requires acc < WORD && acc + y == (acc / TOP) * TOP + v && v < TOP
    ensures acc + y < WORD && (acc + y) % TOP == v
  {
    DivModUnique(acc + y, TOP, acc / TOP, v);
  }

  lemma CodeFits(c: Code, left: nat)
    requires CodeOk(c) && c.nbits <= left
    ensures Shl(c.bits, left - c.nbits) < Pow2(left)
  {
    hide Pow2;
    var a, b := Pow2(c.nbits), Pow2(left - c.nbits);
    Pow2Positive(left - c.nbits);
    Pow2Add(c.nbits, left - c.nbits);
    BelowProduct(c.bits, a, b);
  }

  lemma BelowProduct(x: nat, a: nat, b: nat)
    requires x < a && b >= 1
    ensures x * b < a * b
  {
    MulLe(x, a - 1, b);
    assert (a - 1) * b == a * b - b;
  }

  lemma LowBitsZero(acc: nat, left: nat, p: nat)
    requires Holds(acc, left, p)
    ensures acc % Pow2(left) == 0
  {
    hide Pow2;
    Pow2Constants();
    Pow2Add(left, 40 - left);
    ModMod(acc, Pow2(left), Pow2(40 - left));
    DivModUnique(p * Pow2(left), Pow2(left), p, 0);
  }

  /** Writing a byte takes the top eight pending bits. */
  lemma EmitByte(acc: nat, left: nat, p: nat)
    requires Holds(acc, left, p) && left <= 32
    ensures (acc / 0x1_0000_0000) % 256 == Hi(p, 32 - left)
    ensures Holds((acc * 256) % WORD, left + 8, Lo(p, 32 - left))
  {
    hide Pow2, Hi, Lo;
    var q, r := Hi(p, 32 - left), Lo(p, 32 - left);
    TopByte(p, left);
    EmitArithmetic(acc, q, r * Pow2(left));
  }

  lemma TopByte(p: nat, left: nat)
    requires left <= 32 && p < Pow2(40 - left)
    ensures var q, r := Hi(p, 32 - left), Lo(p, 32 - left);
            && q < 256 && r < Pow2(32 - left)
            && p * Pow2(left) == q * 0x1_0000_0000 + r * Pow2(left)
            && 0 <= r * Pow2(left) < 0x1_0000_0000
            && (r * Pow2(left)) * 256 == r * Pow2(left + 8)
  {
    hide Pow2;
    var a, b := Pow2(left), Pow2(32 - left);
    var q, r := Hi(p, 32 - left), Lo(p, 32 - left);
    Pow2Constants();
    ByteRange();
    Pow2Add(left, 32 - left);
    Pow2Add(left, 8);
    Pow2Add(8, 32 - left);
    assert p == q * b + r;
    if q >= 256 {
      MulLe(256, q, b);
    }
    MulLe(r, b - 1, a);
    SplitProduct(p, q, b, r, a);
  }

  lemma SplitProduct(p: int, q: int, b: int, r: int, a: int)
    requires p == q * b + r && a * b == 0x1_0000_0000
    ensures p * a == q * 0x1_0000_0000 + r * a
  {
    assert (q * b + r) * a == q * (a * b) + r * a;
  }

  lemma EmitArithmetic(acc: nat, q: nat, x: nat)
    requires acc % TOP == q * 0x1_0000_0000 + x && q < 256 && x < 0x1_0000_0000
    ensures (acc / 0x1_0000_0000) % 256 == q
    ensures ((acc * 256) % WORD) % TOP == x * 256
  {
    var k := acc / TOP;
    assert acc == (k * 256 + q) * 0x1_0000_0000 + x;
    DivModUnique(acc, 0x1_0000_0000, k * 256 + q, x);
    DivModUnique(k * 256 + q, 256, k, q);
    DivModUnique(acc * 256, TOP, k * 256 + q, x * 256);
    ModMod(acc * 256, TOP, 0x100_0000);
  }

  /** The bytes written and the bits still pending are the codes of the string so far. */
  ghost predicate InStep(t: CodeTable, src: Bytes, out: Bytes, acc: nat, left: nat, p: nat)
  {
    Holds(acc, left, p) && BytesBits(out) + BitsOf(p, 40 - left) == StringBits(t, src)
  }

  lemma StepCode(t: CodeTable, src: Bytes, i: nat, out: Bytes, acc: nat, left: nat, p: nat)
    requires i < |src| && InStep(t, src[..i], out, acc, left, p) && 33 <= left
    ensures var c := t[src[i]];
            && 1 <= c.nbits <= 30
            && InStep(t, src[..i + 1], out, BitOr(acc, Shl(c.bits, left - c.nbits)), left - c.nbits,
                      Shl(p, c.nbits) + c.bits)
  {
    hide Pow2, BitOr, Holds, StringBits, BytesBits, BitsOf;
    var c := t[src[i]];
    assert CodeOk(c);
    assert left <= 40 by { HoldsLeft(acc, left, p); }
    AddCode(acc, left, p, c);
    StringBitsAppend(t, src[..i], src[i]);
    assert src[..i + 1] == src[..i] + [src[i]];
    AppendBits(p, 40 - left, c.bits, c.nbits);
    assert 40 - left + c.nbits == 40 - (left - c.nbits);
  }

  lemma HoldsLeft(acc: nat, left: nat, p: nat)
    requires Holds(acc, left, p)
    ensures left <= 40 && (left == 40 ==> p == 0)
  {
  }

  lemma StepByte(t: CodeTable, src: Bytes, out: Bytes, acc: nat, left: nat, p: nat)
    requires InStep(t, src, out, acc, left, p) && left <= 32
    ensures InStep(t, src, out + [(acc / 0x1_0000_0000) % 256], (acc * 256) % WORD, left + 8, Lo(p, 32 - left))
  {
    hide Pow2, Holds, StringBits, BytesBits, BitsOf, Hi, Lo;
    EmitByte(acc, left, p);
    BitsSplit(p, 8, 32 - left);
    BytesBitsAppend(out, (acc / 0x1_0000_0000) % 256);
    assert 8 + (32 - left) == 40 - left && 40 - (left + 8) == 32 - left;
  }

  /** The last byte is filled with ones. */
  lemma StepEnd(t: CodeTable, src: Bytes, out: Bytes, acc: nat, left: nat, p: nat)
    requires InStep(t, src, out, acc, left, p) && 33 <= left < 40
    ensures out + [(BitOr(acc, Pow2(left) - 1) / 0x1_0000_0000) % 256] == Encode(t, src)
  {
    hide Pow2, BitOr, StringBits, BytesBits, BitsOf, Packed, Holds, Ones;
    EndByte(acc, left, p);
    var q := p * Pow2(left - 32) + (Pow2(left - 32) - 1);
    EndBits(out, StringBits(t, src), p, left, q);
    PackedBits(StringBits(t, src));
    BytesBitsInjective(out + [q], Packed(StringBits(t, src)));
  }

  /** The bits of the octets with a last one filled up. */
  lemma EndBits(out: Bytes, bits: Bits, p: nat, left: nat, q: nat)
    requires 33 <= left < 40 && BytesBits(out) + BitsOf(p, 40 - left) == bits
    requires q == p * Pow2(left - 32) + (Pow2(left - 32) - 1) && q < 256
    ensures BytesBits(out + [q]) == bits + Ones(left - 32) && (8 - |bits| % 8) % 8 == left - 32
  {
    hide Pow2, BytesBits, BitsOf, Ones;
    var m := left - 32;
    Pow2Positive(m);
    AppendBits(p, 40 - left, Pow2(m) - 1, m);
    OnesBits(m);
    BytesBitsAppend(out, q);
    PadOf(|out|, 40 - left);
    Regroup(BytesBits(out), BitsOf(p, 40 - left), Ones(m));
  }

  lemma PadOf(n: nat, k: nat)
    requires 1 <= k < 8
    ensures (8 - (8 * n + k) % 8) % 8 == 8 - k
  {
  }

  lemma Pow2Positive(n: nat)
    ensures Pow2(n) >= 1
  {
  }

  lemma EndByte(acc: nat, left: nat, p: nat)
    requires Holds(acc, left, p) && 33 <= left < 40
    ensures var q := p * Pow2(left - 32) + (Pow2(left - 32) - 1);
            0 <= q < 256 && (BitOr(acc, Pow2(left) - 1) / 0x1_0000_0000) % 256 == q
  {
    hide Pow2, BitOr;
    var m := left - 32;
    var a := Pow2(m);
    var q := p * a + (a - 1);
    Pow2Constants();
    LowBitsZero(acc, left, p);
    OrIsSum(acc, Pow2(left) - 1, left);
    Pow2Add(m, 32);
    AppendBound(p, 40 - left, a - 1, m);
    ByteRange();
    assert p * (a * 0x1_0000_0000) == (p * a) * 0x1_0000_0000;
    assert acc + (Pow2(left) - 1) == (acc / TOP) * TOP + (q * 0x1_0000_0000 + 0xFFFF_FFFF);
    LastByte(acc, q);
  }

  lemma LastByte(acc: nat, q: nat)
    requires q < 256
    ensures (((acc / TOP) * TOP + (q * 0x1_0000_0000 + 0xFFFF_FFFF)) / 0x1_0000_0000) % 256 == q
  {
    var k := acc / TOP;
    var v := k * TOP + (q * 0x1_0000_0000 + 0xFFFF_FFFF);
    DivModUnique(v, 0x1_0000_0000, k * 256 + q, 0xFFFF_FFFF);
    DivModUnique(k * 256 + q, 256, k, q);
  }

  lemma {:induction false} OnesBits(m: nat)
    ensures BitsOf(Pow2(m) - 1, m) == Ones(m)
  {
    if m > 0 {
      OnesBits(m - 1);
      assert (Pow2(m) - 1) / 2 == Pow2(m - 1) - 1;
      assert Ones(m) == Ones(m - 1) + [true];
    }
  }

  lemma StepWhole(t: CodeTable, src: Bytes, out: Bytes, acc: nat, p: nat)
    requires InStep(t, src, out, acc, 40, p)
    ensures out == Encode(t, src)
  {
    hide StringBits, BytesBits, Packed;
    assert BitsOf(p, 0) == [];
    PackedBits(StringBits(t, src));
    assert |StringBits(t, src)| == 8 * |out|;
    assert StringBits(t, src) + Ones(0) == StringBits(t, src);
    BytesBitsInjective(out, Packed(StringBits(t, src)));
  }

  /** `huffman::encode` */
  method EncodeInto(t: CodeTable, src: Bytes, dst: Bytes) returns (r: Bytes)
    ensures r == dst + Encode(t, src)
  {
    hide Pow2, BitOr, InStep, Encode, Lo;
    r := dst;
    var acc: nat, left: nat := 0, 40;
    ghost var p: nat, out: Bytes := 0, [];
    StepStart(t, src);
    for i := 0 to |src|
      invariant 33 <= left <= 40 && r == dst + out
      invariant InStep(t, src[..i], out, acc, left, p)
    {
      var c := t[src[i]];
      StepCode(t, src, i, out, acc, left, p);
      acc := BitOr(acc, Shl(c.bits, left - c.nbits));
      p := Shl(p, c.nbits) + c.bits;
      left := left - c.nbits;
      while left <= 32
        invariant left <= 40 && r == dst + out
        invariant InStep(t, src[..i + 1], out, acc, left, p)
        decreases 40 - left
      {
        StepByte(t, src[..i + 1], out, acc, left, p);
        r := r + [(acc / 0x1_0000_0000) % 256];
        out := out + [(acc / 0x1_0000_0000) % 256];
        p := Lo(p, 32 - left);
        acc := (acc * 256) % WORD;
        left := left + 8;
      }
    }
    assert src[..|src|] == src;
    if left != 40 {
      StepEnd(t, src, out, acc, left, p);
      acc := BitOr(acc, Pow2(left) - 1);
      r := r + [(acc / 0x1_0000_0000) % 256];
    } else {
      StepWhole(t, src, out, acc, p);
    }
  }

  lemma StepStart(t: CodeTable, src: Bytes)
    ensures src[..0] == [] && InStep(t, src[..0], [], 0, 40, 0)
  {
  }

  // ----- decoding

  /** No code is the beginning of another, and none of at most seven bits is all ones: those bits begin the
      end-of-string code. */
  ghost predicate PrefixFree(t: CodeTable)
  {
    && (forall a: Byte, b: Byte :: a != b ==> !(CodeBits(t, a) <= CodeBits(t, b)))
    && forall a: Byte :: !(CodeBits(t, a) <= Ones(7))
  }

  /** The symbol from i on whose code the bits begin with. */
  function FirstCode(t: CodeTable, bits: Bits, i: nat): (r: Option<Byte>)
    requires i <= 256
    ensures r.Some? ==> CodeBits(t, r.value) <= bits
    ensures r.None? ==> forall b: Byte :: i <= b ==> !(CodeBits(t, b) <= bits)
    decreases 256 - i
  {
    if i == 256 then None
    else if CodeBits(t, i) <= bits then Some(i)
    else FirstCode(t, bits, i + 1)
  }

  /** Decoding as section 5.2 of RFC 7541 defines it: code after code, then at most seven ones. */
  function DecodeBits(t: CodeTable, bits: Bits): (r: Option<Bytes>)
    decreases |bits|
  {
    match FirstCode(t, bits, 0)
    case Some(b) =>
      assert CodeOk(t[b]);
      (match DecodeBits(t, bits[|CodeBits(t, b)|..])
       case Some(rest) => Some([b] + rest)
       case None => None)
    case None =>
      if |bits| < 8 && bits == Ones(|bits|) then Some([]) else None
  }

  function Decode(t: CodeTable, src: Bytes): Option<Bytes>
  {
    DecodeBits(t, BytesBits(src))
  }

  lemma FirstCodeIs(t: CodeTable, b: Byte, rest: Bits)
    requires PrefixFree(t)
    ensures FirstCode(t, CodeBits(t, b) + rest, 0) == Some(b)
  {
    var bits := CodeBits(t, b) + rest;
    assert CodeBits(t, b) <= bits;
    BothPrefixes(CodeBits(t, b), CodeBits(t, FirstCode(t, bits, 0).value), bits);
  }

  lemma BothPrefixes(x: Bits, y: Bits, bits: Bits)
    requires x <= bits && y <= bits
    ensures x <= y || y <= x
  {
    assert x == bits[..|x|] && y == bits[..|y|];
    if |x| <= |y| {
      assert x == y[..|x|];
    } else {
      assert y == x[..|y|];
    }
  }

  lemma NoCodeInPadding(t: CodeTable, n: nat)
    requires PrefixFree(t) && n < 8
    ensures FirstCode(t, Ones(n), 0) == None
  {
    forall b: Byte
      ensures CodeBits(t, b) <= Ones(n) ==> CodeBits(t, b) <= Ones(7)
    {
    }
  }

  lemma {:induction false} DecodeStringBits(t: CodeTable, src: Bytes, n: nat)
    requires PrefixFree(t) && n < 8
    ensures DecodeBits(t, StringBits(t, src) + Ones(n)) == Some(src)
    decreases |src|
  {
    hide PrefixFree, FirstCode, CodeBits;
    if src == [] {
      assert StringBits(t, src) + Ones(n) == Ones(n);
      NoCodeInPadding(t, n);
    } else {
      var b, rest := src[0], StringBits(t, src[1..]) + Ones(n);
      var bits := StringBits(t, src) + Ones(n);
      assert bits == CodeBits(t, b) + rest;
      FirstCodeIs(t, b, rest);
      assert bits[|CodeBits(t, b)|..] == rest;
      DecodeStringBits(t, src[1..], n);
      assert src == [src[0]] + src[1..];
    }
  }

  /** Every string is decoded from its code, for every prefix-free table. */
  lemma RoundTrip(t: CodeTable, src: Bytes)
    requires PrefixFree(t)
    ensures Decode(t, Encode(t, src)) == Some(src)
  {
    var bits := StringBits(t, src);
    PackedBits(bits);
    DecodeStringBits(t, src, (8 - |bits| % 8) % 8);
  }
}
