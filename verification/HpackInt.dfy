/**
 Integer and string literals of HPACK (section 5 of RFC 7541): `encode_int`, `encode_str` in hpack/encoder.rs and
 `decode_int` in hpack/decoder.rs.
 */
module HpackInt {
  import opened Arith
  import opened Common
  import Huffman

  datatype NeedMoreKind = UnexpectedEndOfStream | IntegerUnderflow | StringUnderflow

  datatype DecoderError =
    | InvalidRepresentation
    | InvalidIntegerPrefix
    | InvalidTableIndex
    | InvalidHuffmanCode
    | InvalidUtf8
    | InvalidStatusCode
    | InvalidPseudoheader
    | InvalidMaxDynamicSize
    | IntegerOverflow
    | NeedMore(kind: NeedMoreKind)

  /** 2^n - 1, the largest number an n-bit prefix can hold. */
  function PrefixMask(n: nat): (r: nat)
    requires 1 <= n <= 8
  {
    match n
    case 1 => 1
    case 2 => 3
    case 3 => 7
    case 4 => 15
    case 5 => 31
    case 6 => 63
    case 7 => 127
    case _ => 255
  }

  // ----- encoding

  /** Base 128, least significant group first, the high bit set on all but the last octet. */
  function Varint(v: nat): (r: Bytes)
    ensures |r| > 0
  {
    if v >= 128 then [128 + v % 128] + Varint(v / 128) else [v]
  }

  /** What an integer becomes behind the flag bits `first`. */
  function IntBytes(v: nat, prefix: nat, first: Byte): (r: Bytes)
    requires 1 <= prefix <= 8 && first + PrefixMask(prefix) < 256
    ensures |r| > 0
  {
    var low := PrefixMask(prefix);
    if v < low then [first + v] else [first + low] + Varint(v - low)
  }

  /** `encode_int`. The flag bits are above the prefix, so or-ing is adding. */
  method EncodeInt(value: nat, prefix: nat, first: Byte, dst: Bytes) returns (r: Bytes)
    requires 1 <= prefix <= 8 && first + PrefixMask(prefix) < 256
    ensures r == dst + IntBytes(value, prefix, first)
  {
    hide Varint;
    var low := PrefixMask(prefix);
    if value < low {
      return dst + [first + value];
    }
    var v: nat := value - low;
    r := dst + [first + low];
    ghost var whole := dst + IntBytes(value, prefix, first);
    while v >= 128
      invariant r + Varint(v) == whole
    {
      VarintStep(r, v);
      r := r + [128 + v % 128];
      v := v / 128;
    }
    VarintStep(r, v);
    r := r + [v];
  }

  lemma VarintStep(r: Bytes, v: nat)
    ensures r + Varint(v) == if v >= 128 then (r + [128 + v % 128]) + Varint(v / 128) else r + [v]
  {
  }

  /** A string literal: Huffman coded unless empty. */
  function StrBytes(t: Huffman.CodeTable, s: Bytes): (r: Bytes)
    ensures |r| > 0
  {
    if s == [] then [0] else IntBytes(|Huffman.Encode(t, s)|, 7, 128) + Huffman.Encode(t, s)
  }

  const PLACEHOLDER_LEN := 8

  /** The length head of the string fits the eight octets `encode_str` sets aside for it. */
  predicate StrFits(t: Huffman.CodeTable, s: Bytes)
  {
    |IntBytes(|Huffman.Encode(t, s)|, 7, 128)| <= PLACEHOLDER_LEN
  }

  /** `encode_str`: the code is written behind a one-octet placeholder and moved back in place if its length needs a
      longer head. */
  method EncodeStr(t: Huffman.CodeTable, val: Bytes, dst: Bytes) returns (r: Bytes)
    requires StrFits(t, val)
    ensures r == dst + StrBytes(t, val)
  {
    hide Huffman.Encode, IntBytes;
    if val == [] {
      return dst + [0];
    }
    var idx := |dst|;
    r := dst + [0];
    r := Huffman.EncodeInto(t, val, r);
    ghost var huff := Huffman.Encode(t, val);
    var huffLen := |r| - (idx + 1);
    if huffLen < PrefixMask(7) {
      ShortHead(dst, huff);
      r := r[idx := 128 + huffLen];
    } else {
      var head := EncodeInt(huffLen, 7, 128, []);
      assert head == IntBytes(huffLen, 7, 128);
      r := InsertHead(r, idx, head, huffLen, dst, huff);
    }
  }

  lemma ShortHead(dst: Bytes, huff: Bytes)
    requires |huff| < 127
    ensures (dst + [0] + huff)[|dst| := 128 + |huff|] == dst + (IntBytes(|huff|, 7, 128) + huff)
  {
  }

  /** Replaces the placeholder at `idx` by a head of more octets. */
  method InsertHead(src: Bytes, idx: nat, head: Bytes, huffLen: nat, ghost dst: Bytes,
      ghost huff: Bytes) returns (r: Bytes)
    requires src == dst + [0] + huff && idx == |dst| && huffLen == |huff| && |head| >= 1
    ensures r == dst + (head + huff)
  {
    var headLen := |head|;
    r := src + head[1..headLen];
    assert r[idx + 1..idx + 1 + huffLen] == huff;
    assert r[..idx] == dst;
    r := ShiftBack(r, idx, headLen, huffLen, huff);
    for i := 0 to headLen
      invariant |r| == idx + headLen + huffLen
      invariant r[..idx] == dst && r[idx + headLen..] == huff
      invariant forall j :: 0 <= j < i ==> r[idx + j] == head[j]
    {
      r := r[idx + i := head[i]];
    }
    assert r[idx..idx + headLen] == head;
    assert r == r[..idx] + (r[idx..idx + headLen] + r[idx + headLen..]);
  }

  /** Moves the code from behind the placeholder to behind the real head, last octet first. */
  method ShiftBack(dst: Bytes, idx: nat, headLen: nat, huffLen: nat, ghost huff: Bytes) returns (r: Bytes)
    requires |dst| == idx + headLen + huffLen && headLen >= 1 && |huff| == huffLen
    requires dst[idx + 1..idx + 1 + huffLen] == huff
    ensures |r| == |dst| && r[..idx] == dst[..idx] && r[idx + headLen..] == huff
  {
    r := dst;
    for i := 0 to huffLen
      invariant |r| == |dst| && r[..idx] == dst[..idx]
      invariant forall j :: 0 <= j < huffLen - i ==> r[idx + 1 + j] == huff[j]
      invariant forall j :: huffLen - i <= j < huffLen ==> r[idx + headLen + j] == huff[j]
    {
      var srcI := idx + 1 + (huffLen - (i + 1));
      var dstI := idx + headLen + (huffLen - (i + 1));
      r := r[dstI := r[srcI]];
    }
  }

  // ----- decoding

  const MAX_BYTES := 5

  function Pow128(k: nat): (r: nat)
    ensures r > 0
  {
    if k == 0 then 1 else 128 * Pow128(k - 1)
  }

  /** The octets after a full prefix: `groups` of them were read already, and `ret` is the value so far. The result is
      the value and the index after the last octet read. */
  function DecodeVarint(buf: Bytes, i: nat, ret: nat, groups: nat): (r: Result<(nat, nat), DecoderError>)
    requires i <= |buf|
    ensures r.Ok? ==> i < r.value.1 <= |buf|
    decreases |buf| - i
  {
    if i == |buf| then Err(NeedMore(IntegerUnderflow))
    else
      var ret' := ret + (buf[i] % 128) * Pow128(groups);
      if buf[i] < 128 then Ok((ret', i + 1))
      else if groups + 2 == MAX_BYTES then Err(IntegerOverflow)
      else DecodeVarint(buf, i + 1, ret', groups + 1)
  }

  /** What `decode_int` reads from the front of a buffer: the value and how many octets it took. */
  function DecodedInt(buf: Bytes, prefix: nat): (r: Result<(nat, nat), DecoderError>)
    ensures r.Ok? ==> 0 < r.value.1 <= |buf|
  {
    if prefix < 1 || prefix > 8 then Err(InvalidIntegerPrefix)
    else if buf == [] then Err(NeedMore(IntegerUnderflow))
    else
      var mask := PrefixMask(prefix);
      var ret := buf[0] % (mask + 1);
      if ret < mask then Ok((ret, 1)) else DecodeVarint(buf, 1, ret, 0)
  }

  lemma {:induction false} VarintDecodes(v: nat, buf: Bytes, i: nat, ret: nat, groups: nat)
    requires groups <= 3 && i <= |buf| && Varint(v) <= buf[i..]
    ensures DecodeVarint(buf, i, ret, groups) ==
            if v < Pow128(4 - groups) then Ok((ret + v * Pow128(groups), i + |Varint(v)|)) else Err(IntegerOverflow)
    decreases v
  {
    var w := Varint(v);
    assert buf[i] == buf[i..][0] == w[0];
    if v < 128 {
      assert Pow128(4 - groups) >= 128;
    } else if groups == 3 {
      hide Varint;
      assert Pow128(1) == 128;
    } else {
      hide Pow128;
      assert buf[i + 1..] == buf[i..][1..];
      assert Varint(v / 128) == w[1..];
      var ret' := ret + (v % 128) * Pow128(groups);
      VarintDecodes(v / 128, buf, i + 1, ret', groups + 1);
      GroupArithmetic(v, groups);
    }
  }

  lemma GroupArithmetic(v: nat, groups: nat)
    requires groups < 3
    ensures v / 128 < Pow128(3 - groups) <==> v < Pow128(4 - groups)
    ensures (v % 128) * Pow128(groups) + (v / 128) * Pow128(groups + 1) == v * Pow128(groups)
  {
    var p := Pow128(groups);
    assert Pow128(groups + 1) == 128 * p;
    assert (v / 128) * (128 * p) == (v - v % 128) * p;
  }

  /** `decode_int` undoes `encode_int` up to 2^p - 1 + 2^28, and refuses the encodings of all larger numbers. */
  lemma IntRoundTrip(v: nat, prefix: nat, first: Byte, rest: Bytes)
    requires 1 <= prefix <= 8 && first % (PrefixMask(prefix) + 1) == 0
    ensures first + PrefixMask(prefix) < 256
    ensures var w := IntBytes(v, prefix, first);
            DecodedInt(w + rest, prefix) ==
              if v < PrefixMask(prefix) + 0x1000_0000 then Ok((v, |w|)) else Err(IntegerOverflow)
  {
    hide Varint, DecodeVarint;
    FlagsAbove(prefix, first);
    var mask := PrefixMask(prefix);
    var w := IntBytes(v, prefix, first);
    var buf := w + rest;
    if v < mask {
      LowBits(first, mask, v);
      assert buf[0] == first + v;
    } else {
      LowBits(first, mask, mask);
      assert buf[0] == first + mask;
      assert buf[1..] == Varint(v - mask) + rest;
      VarintDecodes(v - mask, buf, 1, mask, 0);
      assert Pow128(4) == 0x1000_0000 by { assert Pow128(2) == 16384; }
    }
  }

  lemma FlagsAbove(prefix: nat, first: Byte)
    requires 1 <= prefix <= 8 && first % (PrefixMask(prefix) + 1) == 0
    ensures first + PrefixMask(prefix) < 256
  {
    if prefix == 8 {
    } else if prefix >= 4 {
    } else {
    }
  }

  lemma LowBits(first: Byte, mask: nat, v: nat)
    requires first % (mask + 1) == 0 && v <= mask
    ensures (first + v) % (mask + 1) == v
  {
    DivModUnique(first + v, mask + 1, first / (mask + 1), v);
  }

  /** The number that groups of seven bits spell, least significant first. */
  function GroupsValue(bs: Bytes): nat
  {
    if bs == [] then 0 else bs[0] % 128 + 128 * GroupsValue(bs[1..])
  }

  /** The continuation groups spell the number, and only the last has its top bit clear. */
  lemma {:induction false} VarintSpells(v: nat)
    ensures var w := Varint(v);
            && GroupsValue(w) == v
            && (forall i :: 0 <= i < |w| ==> (w[i] >= 128 <==> i < |w| - 1))
  {
    if v >= 128 {
      VarintSpells(v / 128);
      assert Varint(v)[1..] == Varint(v / 128);
    } else {
      assert [v][1..] == [];
    }
  }

  /** The first octet holds the flag bits and what of the number fits below them; the groups behind it spell the
      rest (section 5.1 of RFC 7541). */
  lemma IntSpells(v: nat, prefix: nat, first: Byte)
    requires 1 <= prefix <= 8 && first + PrefixMask(prefix) < 256
    ensures var w := IntBytes(v, prefix, first);
            && w[0] == first + (if v < PrefixMask(prefix) then v else PrefixMask(prefix))
            && w[0] - first + GroupsValue(w[1..]) == v
            && (|w| == 1 <==> v < PrefixMask(prefix))
  {
    hide Varint;
    var low := PrefixMask(prefix);
    if v >= low {
      VarintSpells(v - low);
      assert IntBytes(v, prefix, first)[1..] == Varint(v - low);
    } else {
      assert IntBytes(v, prefix, first)[1..] == [];
      assert GroupsValue([]) == 0;
    }
  }

  /** A string literal starts with the Huffman flag exactly when it is not empty. */
  lemma StrFlag(t: Huffman.CodeTable, s: Bytes)
    ensures StrBytes(t, s)[0] >= 128 <==> s != []
  {
    hide Huffman.Encode, IntBytes;
    if s != [] {
      IntSpells(|Huffman.Encode(t, s)|, 7, 128);
    }
  }

  // ----- cutting and extending the input

  lemma {:induction false} VarintCut(buf: Bytes, i: nat, ret: nat, groups: nat, m: nat)
    requires i <= m <= |buf| && DecodeVarint(buf, i, ret, groups).Ok?
    ensures var r := DecodeVarint(buf, i, ret, groups);
            DecodeVarint(buf[..m], i, ret, groups) == if m >= r.value.1 then r else Err(NeedMore(IntegerUnderflow))
    decreases |buf| - i
  {
    if i < m && buf[i] >= 128 {
      VarintCut(buf, i + 1, ret + (buf[i] % 128) * Pow128(groups), groups + 1, m);
    }
  }

  /** An integer is read from its own octets alone, and any proper prefix of them needs more. */
  lemma IntCut(buf: Bytes, prefix: nat, m: nat)
    requires DecodedInt(buf, prefix).Ok? && m <= |buf|
    ensures var r := DecodedInt(buf, prefix);
            DecodedInt(buf[..m], prefix) == if m >= r.value.1 then r else Err(NeedMore(IntegerUnderflow))
  {
    var mask := PrefixMask(prefix);
    var ret := buf[0] % (mask + 1);
    if m > 0 && ret == mask {
      VarintCut(buf, 1, ret, 0, m);
    }
  }
}
