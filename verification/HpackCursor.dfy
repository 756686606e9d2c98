/**
 The cursor the HPACK decoder reads through (`Cursor<&mut BytesMut>` in hpack/decoder.rs). Reading moves the position
 and leaves the octets alone; only `take` splits octets off the front of the buffer for good.
 */
module HpackCursor {
  import opened Common
  import opened HpackInt

  class Cursor {
    var buf: Bytes
    var pos: nat

    ghost predicate Valid()
      reads this
    {
      pos <= |buf|
    }

    /** What has not been read. */
    ghost function Rest(): Bytes
      requires Valid()
      reads this
    {
      buf[pos..]
    }

    constructor (buf: Bytes)
      ensures this.buf == buf && pos == 0
    {
      this.buf, pos := buf, 0;
    }

    /** `peek_u8` */
    method Peek() returns (r: Option<Byte>)
      requires Valid()
      ensures r == if Rest() == [] then None else Some(Rest()[0])
    {
      r := if pos < |buf| then Some(buf[pos]) else None;
    }

    method Advance(n: nat)
      requires Valid() && n <= |Rest()|
      modifies this`pos
      ensures Valid() && pos == old(pos) + n && Rest() == old(Rest())[n..]
    {
      pos := pos + n;
    }

    method GetU8() returns (b: Byte)
      requires Valid() && Rest() != []
      modifies this`pos
      ensures Valid() && pos == old(pos) + 1 && b == old(Rest())[0] && Rest() == old(Rest())[1..]
    {
      b := buf[pos];
      pos := pos + 1;
    }

    method SetPosition(p: nat)
      requires p <= |buf|
      modifies this`pos
      ensures Valid() && pos == p
    {
      pos := p;
    }

    /** `take`: what is before the position goes, and the next n octets are handed out. */
    method Take(n: nat) returns (head: Bytes)
      requires Valid() && n <= |Rest()|
      modifies this
      ensures Valid() && pos == 0 && head == old(Rest())[..n] && buf == old(Rest())[n..]
    {
      head := buf[..pos + n];
      buf := buf[pos + n..];
      head := head[pos..];
      pos := 0;
    }

    /** `consume`: what has been read is gone. */
    method Consume()
      requires Valid()
      modifies this
      ensures Valid() && pos == 0 && buf == old(Rest())
    {
      var _ := Take(0);
    }
  }

  /** `decode_int`. The position moves past what was read, also when that is not enough or too much. */
  method DecodeInt(cur: Cursor, prefix: nat) returns (r: Result<nat, DecoderError>)
    requires cur.Valid()
    modifies cur`pos
    ensures cur.Valid() && cur.pos >= old(cur.pos)
    ensures match DecodedInt(old(cur.Rest()), prefix)
            case Err(e) => r == Err(e)
            case Ok((value, n)) => r == Ok(value) && cur.pos == old(cur.pos) + n
  {
    if prefix < 1 || prefix > 8 {
      return Err(InvalidIntegerPrefix);
    }
    ghost var src := cur.Rest();
    ghost var start := cur.pos;
    if cur.pos == |cur.buf| {
      return Err(NeedMore(IntegerUnderflow));
    }
    var mask := PrefixMask(prefix);
    var first: nat := cur.GetU8();
    var ret: nat := first % (mask + 1);
    if ret < mask {
      return Ok(ret);
    }
    var bytes := 1;
    var shift: nat := 1;
    while cur.pos < |cur.buf|
      invariant cur.Valid() && start < cur.pos && 1 <= bytes < MAX_BYTES && shift == Pow128(bytes - 1)
      invariant cur.Rest() == src[cur.pos - start..] && cur.pos - start <= |src|
      invariant DecodeVarint(src, cur.pos - start, ret, bytes - 1) == DecodedInt(src, prefix)
      decreases |cur.buf| - cur.pos
    {
      var b := cur.GetU8();
      bytes := bytes + 1;
      ret := ret + (b % 128) * shift;
      shift := shift * 128;
      if b < 128 {
        return Ok(ret);
      }
      if bytes == MAX_BYTES {
        return Err(IntegerOverflow);
      }
    }
    r := Err(NeedMore(IntegerUnderflow));
  }
}
