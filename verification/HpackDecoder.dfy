/**
 The HPACK decoder (hpack/decoder.rs). The functions say what one representation and one call of `decode` mean; class
 `Decoder` does it with the source's loops; the lemmas show that a header block may arrive in any fragments.
 */
module HpackDecoder {
  import opened Common
  import opened HpackCursor
  import opened HpackHeader
  import opened HpackInt
  import opened HpackList

  /** What the decoder asks of code outside this model: Huffman decoding and the validation of names and values by the
      `http` crate. */
  datatype Rules = Rules(unhuff: Bytes -> Option<Bytes>, fieldName: Bytes -> bool, fieldValue: (Name, Bytes) -> bool)

  /** The dynamic table, its maximum size, and the largest size the peer may ask for. */
  datatype State = State(entries: Entries, max: nat, lastMax: nat)

  /** A string found in the buffer (`StringMarker`). `len` counts its octets on the wire. */
  datatype Marker = Marker(offset: nat, len: nat, huffman: bool, text: Bytes)

  /** `try_decode_string` */
  function ReadString(rules: Rules, buf: Bytes): (r: Result<Marker, DecoderError>)
    ensures r.Ok? ==> 0 < r.value.offset + r.value.len <= |buf|
  {
    if buf == [] then Err(NeedMore(UnexpectedEndOfStream))
    else
      match DecodedInt(buf, 7)
      case Err(e) => Err(e)
      case Ok((len, offset)) =>
        if len > |buf| - offset then Err(NeedMore(StringUnderflow))
        else
          var raw := buf[offset..offset + len];
          if buf[0] < 128 then Ok(Marker(offset, len, false, raw))
          else
            match rules.unhuff(raw)
            case None => Err(InvalidHuffmanCode)
            case Some(s) => Ok(Marker(offset, len, true, s))
  }

  /** The pseudo-header with this name. */
  function PseudoName(name: Bytes): Option<Name>
  {
    if name == NameBytes(Authority) then Some(Authority)
    else if name == NameBytes(Method) then Some(Method)
    else if name == NameBytes(Scheme) then Some(Scheme)
    else if name == NameBytes(Path) then Some(Path)
    else if name == NameBytes(Protocol) then Some(Protocol)
    else if name == NameBytes(Status) then Some(Status)
    else None
  }

  /** `Header::new`. An empty name is reported as a need for more input. */
  function NewHeader(rules: Rules, name: Bytes, value: Bytes): (r: Result<Header, DecoderError>)
    ensures r.Err? && r.error.NeedMore? <==> name == []
  {
    if name == [] then Err(NeedMore(UnexpectedEndOfStream))
    else if name[0] == ':' as int then
      match PseudoName(name)
      case None => Err(InvalidPseudoheader)
      case Some(n) => if rules.fieldValue(n, value) then Ok(Header(n, value, false)) else Err(InvalidUtf8)
    else if rules.fieldName(name) && rules.fieldValue(Field(name), value) then
      Ok(Header(Field(name), value, false))
    else Err(InvalidUtf8)
  }

  /** `Name::into_entry` */
  function IntoEntry(rules: Rules, n: Name, value: Bytes): (r: Result<Header, DecoderError>)
    ensures r.Err? ==> !r.error.NeedMore?
  {
    if rules.fieldValue(n, value) then Ok(Header(n, value, false))
    else Err(if n.Status? then InvalidStatusCode else InvalidUtf8)
  }

  /** `Table::get` */
  function Lookup(es: Entries, index: nat): Result<Header, DecoderError>
  {
    if index == 0 then Err(InvalidTableIndex)
    else if index <= 61 then Ok(GetStatic(index))
    else if index - DYN_OFFSET < |es| then Ok(es[index - DYN_OFFSET])
    else Err(InvalidTableIndex)
  }

  /** An error, and how many octets of the representation were already split off the buffer. */
  datatype Failure = Failure(error: DecoderError, dropped: nat)

  /** `decode_literal`: the header and how many octets it took. */
  function ReadLiteral(rules: Rules, es: Entries, buf: Bytes, prefix: nat): (r: Result<(Header, nat), Failure>)
    requires prefix == 4 || prefix == 6
    ensures r.Ok? ==> 0 < r.value.1 <= |buf|
    ensures r.Err? ==> r.error.dropped <= |buf|
  {
    match DecodedInt(buf, prefix)
    case Err(e) => Err(Failure(e, 0))
    case Ok((index, n)) =>
      if index == 0 then
        match ReadString(rules, buf[n..])
        case Err(e) => Err(Failure(e, 0))
        case Ok(name) =>
          var n1 := n + name.offset + name.len;
          match ReadString(rules, buf[n1..])
          case Err(e) => Err(Failure(e, 0))
          case Ok(value) =>
            var n2 := n1 + value.offset + value.len;
            match NewHeader(rules, name.text, value.text)
            case Ok(h) => Ok((h, n2))
            // plain strings are split off the buffer when they are read
            case Err(e) => Err(Failure(e, if !value.huffman then n2 else if !name.huffman then n1 else 0))
      else
        match Lookup(es, index)
        case Err(e) => Err(Failure(e, 0))
        case Ok(entry) =>
          match ReadString(rules, buf[n..])
          case Err(e) => Err(Failure(e, 0))
          case Ok(value) =>
            var n2 := n + value.offset + value.len;
            match IntoEntry(rules, entry.name, value.text)
            case Ok(h) => Ok((h, n2))
            case Err(e) => Err(Failure(e, if !value.huffman then n2 else 0))
  }

  datatype Rep = Literal(header: Header, indexed: bool) | SizeUpdate(size: nat)

  /** One representation at the front of the buffer, told apart by its first octet (`Representation::load`), and how
      many octets it took. */
  function ReadRep(rules: Rules, st: State, buf: Bytes): (r: Result<(Rep, nat), Failure>)
    requires buf != []
    ensures r.Ok? ==> 0 < r.value.1 <= |buf|
    ensures r.Err? ==> r.error.dropped <= |buf|
  {
    var b := buf[0];
    if b >= 128 then
      match DecodedInt(buf, 7)
      case Err(e) => Err(Failure(e, 0))
      case Ok((index, n)) =>
        (match Lookup(st.entries, index)
         case Err(e) => Err(Failure(e, 0))
         case Ok(h) => Ok((Literal(h, false), n)))
    else if b >= 64 then
      match ReadLiteral(rules, st.entries, buf, 6)
      case Err(e) => Err(e)
      case Ok((h, n)) => Ok((Literal(h, true), n))
    else if b < 32 then
      match ReadLiteral(rules, st.entries, buf, 4)
      case Err(e) => Err(e)
      case Ok((h, n)) => Ok((Literal(h, false), n))
    else
      match DecodedInt(buf, 5)
      case Err(e) => Err(Failure(e, 0))
      case Ok((size, n)) =>
        if size > st.lastMax then Err(Failure(InvalidMaxDynamicSize, 0)) else Ok((SizeUpdate(size), n))
  }

  predicate IsSizeUpdate(b: Byte)
  {
    32 <= b < 64
  }

  function Apply(st: State, rep: Rep): State
  {
    match rep
    case Literal(h, indexed) => if indexed then st.(entries := Insert(st.entries, st.max, h)) else st
    case SizeUpdate(size) => st.(entries := Evict(st.entries, size), max := size)
  }

  function Emitted(rep: Rep): seq<Header>
  {
    if rep.Literal? then [rep.header] else []
  }

  /** What a call of `decode` yields: the headers handed to the callback, the table, the octets left in the buffer, and
      the error if there was one. */
  datatype Outcome = Outcome(headers: seq<Header>, state: State, rest: Bytes, error: Option<DecoderError>)

  /** The loop of `decode`. Size updates are only allowed before the first header. */
  function Run(rules: Rules, st: State, canResize: bool, buf: Bytes): (r: Outcome)
    ensures |r.rest| <= |buf|
    decreases |buf|
  {
    if buf == [] then Outcome([], st, [], None)
    else if IsSizeUpdate(buf[0]) && !canResize then Outcome([], st, buf, Some(InvalidMaxDynamicSize))
    else
      match ReadRep(rules, st, buf)
      case Err(f) => Outcome([], st, buf[f.dropped..], Some(f.error))
      case Ok((rep, n)) =>
        var r := Run(rules, Apply(st, rep), canResize && rep.SizeUpdate?, buf[n..]);
        r.(headers := Emitted(rep) + r.headers)
  }

  // ----- fragments

  predicate WantsMore(e: DecoderError)
  {
    e.NeedMore?
  }

  lemma StringCut(rules: Rules, buf: Bytes, m: nat)
    requires ReadString(rules, buf).Ok? && m <= |buf|
    ensures var r := ReadString(rules, buf);
            var c := ReadString(rules, buf[..m]);
            if m >= r.value.offset + r.value.len then c == r else c.Err? && WantsMore(c.error)
  {
    if m > 0 {
      IntCut(buf, 7, m);
      var (len, offset) := DecodedInt(buf, 7).value;
      if m >= offset + len {
        assert buf[..m][offset..offset + len] == buf[offset..offset + len];
      }
    }
  }

  /** A proper prefix of an accepted literal needs more, and nothing is lost from the buffer. */
  lemma LiteralCut(rules: Rules, es: Entries, buf: Bytes, prefix: nat, m: nat)
    requires prefix == 4 || prefix == 6
    requires ReadLiteral(rules, es, buf, prefix).Ok? && m <= |buf|
    ensures var r := ReadLiteral(rules, es, buf, prefix);
            var c := ReadLiteral(rules, es, buf[..m], prefix);
            if m >= r.value.1 then c == r else c.Err? && WantsMore(c.error.error) && c.error.dropped == 0
  {
    hide DecodedInt, ReadString, NewHeader, IntoEntry, Lookup;
    IntCut(buf, prefix, m);
    var (index, n) := DecodedInt(buf, prefix).value;
    if m >= n {
      assert buf[..m][n..] == buf[n..][..m - n];
      StringCut(rules, buf[n..], m - n);
      if index == 0 {
        var name := ReadString(rules, buf[n..]).value;
        var n1 := n + name.offset + name.len;
        if m >= n1 {
          assert buf[..m][n1..] == buf[n1..][..m - n1];
          StringCut(rules, buf[n1..], m - n1);
        }
      }
    }
  }

  /** The same for every representation. */
  lemma RepCut(rules: Rules, st: State, buf: Bytes, m: nat)
    requires buf != [] && ReadRep(rules, st, buf).Ok? && 0 < m <= |buf|
    ensures var r := ReadRep(rules, st, buf);
            var c := ReadRep(rules, st, buf[..m]);
            if m >= r.value.1 then c == r else c.Err? && WantsMore(c.error.error) && c.error.dropped == 0
  {
    hide ReadLiteral, DecodedInt;
    var b := buf[0];
    assert buf[..m][0] == b;
    if b >= 128 {
      IntCut(buf, 7, m);
    } else if b >= 64 {
      LiteralCut(rules, st.entries, buf, 6, m);
    } else if b < 32 {
      LiteralCut(rules, st.entries, buf, 4, m);
    } else {
      IntCut(buf, 5, m);
    }
  }

  /** A run that was accepted with size updates forbidden is accepted with them allowed. */
  lemma {:induction false} FlagIrrelevant(rules: Rules, st: State, buf: Bytes)
    requires Run(rules, st, false, buf).error.None?
    ensures Run(rules, st, true, buf) == Run(rules, st, false, buf)
    decreases |buf|
  {
    hide ReadRep, Apply;
    if buf != [] {
      var (rep, n) := ReadRep(rules, st, buf).value;
      RepKind(rules, st, buf);
      FlagIrrelevant(rules, Apply(st, rep), buf[n..]);
    }
  }

  lemma RepKind(rules: Rules, st: State, buf: Bytes)
    requires buf != [] && ReadRep(rules, st, buf).Ok?
    ensures ReadRep(rules, st, buf).value.0.SizeUpdate? <==> IsSizeUpdate(buf[0])
  {
    hide ReadLiteral, DecodedInt;
  }

  /** What is left after the first m octets of an accepted block, joined with the rest, completes it. */
  ghost predicate Resumes(rules: Rules, whole: Outcome, first: Outcome, buf: Bytes, m: nat)
    requires m <= |buf|
  {
    var used := m - |first.rest|;
    && (first.error.Some? ==> WantsMore(first.error.value) && m < |buf|)
    && 0 <= used && first.rest == buf[used..m]
    && var second := Run(rules, first.state, true, buf[used..]);
       && second.error.None?
       && whole.headers == first.headers + second.headers
       && whole.state == second.state && whole.rest == second.rest
  }

  /** Decoding only the first m octets of an accepted block, and then the rest together with what was left over, is
      decoding the block. */
  lemma {:induction false} CutRun(rules: Rules, st: State, flag: bool, flag': bool, buf: Bytes, m: nat)
    requires Run(rules, st, flag, buf).error.None? && m <= |buf| && (flag ==> flag')
    ensures Resumes(rules, Run(rules, st, flag, buf), Run(rules, st, flag', buf[..m]), buf, m)
    decreases |buf|
  {
    hide ReadRep, Apply, Resumes, Run;
    if m == 0 {
      CutNothing(rules, st, flag, flag', buf);
    } else {
      RunHead(rules, st, flag, buf);
      var (rep, n) := ReadRep(rules, st, buf).value;
      RepCut(rules, st, buf, m);
      RepKind(rules, st, buf);
      if m < n {
        CutInside(rules, st, flag, flag', buf, m);
      } else {
        CutRun(rules, Apply(st, rep), flag && rep.SizeUpdate?, flag' && rep.SizeUpdate?, buf[n..], m - n);
        CutJoin(rules, st, flag, flag', buf, m);
      }
    }
  }

  lemma RunHead(rules: Rules, st: State, flag: bool, buf: Bytes)
    requires buf != [] && Run(rules, st, flag, buf).error.None?
    ensures ReadRep(rules, st, buf).Ok? && (IsSizeUpdate(buf[0]) ==> flag)
    ensures var (rep, n) := ReadRep(rules, st, buf).value;
            var r := Run(rules, Apply(st, rep), flag && rep.SizeUpdate?, buf[n..]);
            Run(rules, st, flag, buf) == r.(headers := Emitted(rep) + r.headers) && r.error.None?
  {
    hide ReadRep, Apply;
  }

  lemma CutNothing(rules: Rules, st: State, flag: bool, flag': bool, buf: Bytes)
    requires Run(rules, st, flag, buf).error.None?
    ensures Resumes(rules, Run(rules, st, flag, buf), Run(rules, st, flag', buf[..0]), buf, 0)
  {
    hide Run, Resumes;
    RunEmpty(rules, st, flag');
    if !flag {
      FlagIrrelevant(rules, st, buf);
    }
    NothingFirst(rules, st, Run(rules, st, flag, buf), buf);
    assert buf[..0] == [];
  }

  lemma NothingFirst(rules: Rules, st: State, whole: Outcome, buf: Bytes)
    requires whole == Run(rules, st, true, buf) && whole.error.None?
    ensures Resumes(rules, whole, Outcome([], st, [], None), buf, 0)
  {
    hide Run;
    assert buf[0..] == buf && buf[0..0] == [];
    assert [] + whole.headers == whole.headers;
  }

  lemma RunEmpty(rules: Rules, st: State, flag: bool)
    ensures Run(rules, st, flag, []) == Outcome([], st, [], None)
  {
  }

  lemma RunStep(rules: Rules, st: State, flag: bool, buf: Bytes)
    requires buf != [] && (IsSizeUpdate(buf[0]) ==> flag)
    ensures match ReadRep(rules, st, buf)
            case Err(f) => Run(rules, st, flag, buf) == Outcome([], st, buf[f.dropped..], Some(f.error))
            case Ok((rep, n)) =>
              var r := Run(rules, Apply(st, rep), flag && rep.SizeUpdate?, buf[n..]);
              Run(rules, st, flag, buf) == r.(headers := Emitted(rep) + r.headers)
  {
    hide ReadRep, Apply;
  }

  lemma NoOctets(rules: Rules, st: State, flag: bool)
    ensures Run(rules, st, flag, []) == Outcome([], st, [], None)
  {
  }

  lemma CutInside(rules: Rules, st: State, flag: bool, flag': bool, buf: Bytes, m: nat)
    requires Run(rules, st, flag, buf).error.None? && 0 < m <= |buf| && (flag ==> flag')
    requires ReadRep(rules, st, buf).Ok? && m < ReadRep(rules, st, buf).value.1
    requires var c := ReadRep(rules, st, buf[..m]); c.Err? && WantsMore(c.error.error) && c.error.dropped == 0
    requires IsSizeUpdate(buf[0]) ==> flag
    ensures Resumes(rules, Run(rules, st, flag, buf), Run(rules, st, flag', buf[..m]), buf, m)
  {
    hide ReadRep, Apply, Run;
    RunStep(rules, st, flag', buf[..m]);
    assert buf[0..] == buf && buf[..m][0..] == buf[0..m];
    if !flag {
      FlagIrrelevant(rules, st, buf);
    }
  }

  lemma CutJoin(rules: Rules, st: State, flag: bool, flag': bool, buf: Bytes, m: nat)
    requires buf != [] && Run(rules, st, flag, buf).error.None? && (flag ==> flag')
    requires ReadRep(rules, st, buf).Ok? && ReadRep(rules, st, buf).value.1 <= m <= |buf|
    requires ReadRep(rules, st, buf[..m]) == ReadRep(rules, st, buf)
    requires IsSizeUpdate(buf[0]) ==> flag
    requires var (rep, n) := ReadRep(rules, st, buf).value;
             var st' := Apply(st, rep);
             Resumes(rules, Run(rules, st', flag && rep.SizeUpdate?, buf[n..]),
                     Run(rules, st', flag' && rep.SizeUpdate?, buf[n..][..m - n]), buf[n..], m - n)
    ensures Resumes(rules, Run(rules, st, flag, buf), Run(rules, st, flag', buf[..m]), buf, m)
  {
    hide ReadRep, Apply, Run, Emitted;
    var (rep, n) := ReadRep(rules, st, buf).value;
    var st' := Apply(st, rep);
    RunStep(rules, st, flag, buf);
    RunStep(rules, st, flag', buf[..m]);
    assert buf[..m][n..] == buf[n..][..m - n];
    var tail := Run(rules, st', flag' && rep.SizeUpdate?, buf[n..][..m - n]);
    var used := m - |tail.rest|;
    assert buf[n..][used - n..m - n] == buf[used..m];
    assert buf[n..][used - n..] == buf[used..];
  }

  /** A header block arriving in fragments, as the frame reader feeds it: what one call left over is put in front of the
      next fragment; only the last call may not want more. */
  function Feed(rules: Rules, st: State, carry: Bytes, fragments: seq<Bytes>): Outcome
    requires fragments != []
    decreases |fragments|
  {
    var r := Run(rules, st, true, carry + fragments[0]);
    if |fragments| == 1 || (r.error.Some? && !WantsMore(r.error.value)) then r
    else
      var next := Feed(rules, r.state, r.rest, fragments[1..]);
      next.(headers := r.headers + next.headers)
  }

  function Joined(fragments: seq<Bytes>): Bytes
  {
    if fragments == [] then [] else fragments[0] + Joined(fragments[1..])
  }

  /** Every fragmentation of a block that is accepted whole yields the same headers in the same order and the same
      table. */
  lemma {:induction false} FragmentsAgree(rules: Rules, st: State, carry: Bytes, fragments: seq<Bytes>)
    requires fragments != [] && Run(rules, st, true, carry + Joined(fragments)).error.None?
    ensures Feed(rules, st, carry, fragments) == Run(rules, st, true, carry + Joined(fragments))
    decreases |fragments|
  {
    hide Run;
    var buf := carry + Joined(fragments);
    var piece := carry + fragments[0];
    if |fragments| == 1 {
      assert fragments[1..] == [];
      assert buf == piece;
    } else {
      var m := |piece|;
      assert buf == piece + Joined(fragments[1..]);
      assert buf[..m] == piece;
      CutRun(rules, st, true, true, buf, m);
      var first := Run(rules, st, true, piece);
      var used := m - |first.rest|;
      assert buf[used..] == first.rest + Joined(fragments[1..]);
      FragmentsAgree(rules, first.state, first.rest, fragments[1..]);
    }
  }

  // ----- what a need for more input leaves in the buffer

  /** A literal whose name is the empty string, with both strings there and one of them plain. */
  predicate EmptyNameSplit(rules: Rules, buf: Bytes)
    requires buf != []
  {
    var prefix := if buf[0] >= 64 then 6 else 4;
    && buf[0] < 128 && !IsSizeUpdate(buf[0])
    && var i := DecodedInt(buf, prefix);
       && i.Ok? && i.value.0 == 0
       && var name := ReadString(rules, buf[i.value.1..]);
          && name.Ok? && name.value.text == []
          && var value := ReadString(rules, buf[i.value.1 + name.value.offset + name.value.len..]);
             value.Ok? && !(name.value.huffman && value.value.huffman)
  }

  /** A representation that needs more input stays in the buffer, except when its name is empty: that is reported as a
      need for more input after octets were split off. */
  lemma NeedMoreKeepsBuffer(rules: Rules, st: State, buf: Bytes)
    requires buf != [] && ReadRep(rules, st, buf).Err? && WantsMore(ReadRep(rules, st, buf).error.error)
    ensures ReadRep(rules, st, buf).error.dropped == 0 <==> !EmptyNameSplit(rules, buf)
  {
    hide DecodedInt, ReadString;
    var b := buf[0];
    if b < 128 && !IsSizeUpdate(b) {
      LiteralKeepsBuffer(rules, st.entries, buf, if b >= 64 then 6 else 4);
    }
  }

  lemma KeptExactly(rules: Rules, st: State, buf: Bytes)
    requires buf != []
    ensures match ReadRep(rules, st, buf)
            case Err(f) =>
              f.dropped <= |buf| && (WantsMore(f.error) ==> (buf[f.dropped..] == buf <==> !EmptyNameSplit(rules, buf)))
            case Ok(_) => true
  {
    hide ReadRep, EmptyNameSplit;
    var r := ReadRep(rules, st, buf);
    if r.Err? && WantsMore(r.error.error) {
      NeedMoreKeepsBuffer(rules, st, buf);
      assert buf[0..] == buf;
    }
  }

  lemma LiteralKeepsBuffer(rules: Rules, es: Entries, buf: Bytes, prefix: nat)
    requires prefix == 4 || prefix == 6
    requires ReadLiteral(rules, es, buf, prefix).Err? && WantsMore(ReadLiteral(rules, es, buf, prefix).error.error)
    ensures ReadLiteral(rules, es, buf, prefix).error.dropped > 0 <==>
            var i := DecodedInt(buf, prefix);
            && i.Ok? && i.value.0 == 0
            && var name := ReadString(rules, buf[i.value.1..]);
               && name.Ok? && name.value.text == []
               && var value := ReadString(rules, buf[i.value.1 + name.value.offset + name.value.len..]);
                  value.Ok? && !(name.value.huffman && value.value.huffman)
  {
    hide DecodedInt, ReadString, NewHeader, Lookup, IntoEntry;
  }

  /** The literal 0x40 0x00 0x00, an empty name and an empty value: all three octets are gone although more input is
      asked for. */
  lemma EmptyNameLosesOctets(rules: Rules, st: State)
    ensures Run(rules, st, true, [64, 0, 0]) == Outcome([], st, [], Some(NeedMore(UnexpectedEndOfStream)))
  {
    var buf: Bytes := [64, 0, 0];
    assert DecodedInt(buf, 6) == Ok((0, 1));
    assert buf[1..] == [0, 0] && buf[2..] == [0];
    assert DecodedInt(buf[1..], 7) == Ok((0, 1)) && DecodedInt(buf[2..], 7) == Ok((0, 1));
    assert buf[1..][1..1] == [] && buf[2..][1..1] == [];
    assert ReadString(rules, buf[1..]) == Ok(Marker(1, 0, false, []));
    assert ReadString(rules, buf[2..]) == Ok(Marker(1, 0, false, []));
    assert ReadLiteral(rules, st.entries, buf, 6) == Err(Failure(NeedMore(UnexpectedEndOfStream), 3));
  }

  // ----- reading through the cursor

  /** `StringMarker`: where a string is, and its text if it had to be decoded; plain text stays in the buffer. */
  datatype StringMarker = StringMarker(offset: nat, len: nat, text: Option<Bytes>)

  /** The marker for a string that `ReadString` finds. */
  function MarkerOf(m: Marker): StringMarker
  {
    StringMarker(m.offset, m.len, if m.huffman then Some(m.text) else None)
  }

  /** A string is only located: the position moves on and the buffer stays as it is. */
  method TryDecodeString(rules: Rules, cur: Cursor) returns (r: Result<StringMarker, DecoderError>)
    requires cur.Valid()
    modifies cur`pos
    ensures cur.Valid()
    ensures match ReadString(rules, old(cur.Rest()))
            case Err(e) => r == Err(e)
            case Ok(m) => r == Ok(MarkerOf(m)) && cur.pos == old(cur.pos) + m.offset + m.len
  {
    hide DecodedInt;
    var oldPos := cur.pos;
    var first := cur.Peek();
    if first.None? {
      return Err(NeedMore(UnexpectedEndOfStream));
    }
    var huff := first.value >= 128;
    var len := DecodeInt(cur, 7);
    if len.Err? {
      return Err(len.error);
    }
    if len.value > |cur.buf| - cur.pos {
      return Err(NeedMore(StringUnderflow));
    }
    var offset := cur.pos - oldPos;
    assert cur.buf[cur.pos..cur.pos + len.value] == cur.buf[oldPos..][offset..offset + len.value];
    if huff {
      var text := rules.unhuff(cur.buf[cur.pos..cur.pos + len.value]);
      cur.Advance(len.value);
      r := match text case None => Err(InvalidHuffmanCode) case Some(s) => Ok(StringMarker(offset, len.value, Some(s)));
    } else {
      cur.Advance(len.value);
      r := Ok(StringMarker(offset, len.value, None));
    }
  }

  /** The text of a string that starts at `at`. */
  function TextAt(buf: Bytes, at: nat, m: StringMarker): Bytes
    requires at + m.offset + m.len <= |buf|
  {
    if m.text.Some? then m.text.value else buf[at + m.offset..at + m.offset + m.len]
  }

  /** How many octets are gone once two strings from n on are consumed: a plain one takes everything in front of it
      along. */
  function Gone(a: StringMarker, b: StringMarker, n: nat): nat
  {
    var n1 := n + a.offset + a.len;
    if b.text.None? then n1 + b.offset + b.len else if a.text.None? then n1 else 0
  }

  /** What consuming a string at n leaves: the buffer and the position in it. */
  predicate Leaves(buf: Bytes, n: nat, m: StringMarker, buf1: Bytes, pos1: nat)
  {
    var end := n + m.offset + m.len;
    && end <= |buf|
    && if m.text.Some? then buf1 == buf && pos1 == end else buf1 == buf[end..] && pos1 == 0
  }

  /** `StringMarker::consume`: plain text is split off the buffer, and with it everything in front of it. */
  method ConsumeString(marker: StringMarker, cur: Cursor) returns (text: Bytes)
    requires cur.Valid() && cur.pos + marker.offset + marker.len <= |cur.buf|
    modifies cur
    ensures cur.Valid() && text == TextAt(old(cur.buf), old(cur.pos), marker)
    ensures Leaves(old(cur.buf), old(cur.pos), marker, cur.buf, cur.pos)
  {
    ghost var buf, n := cur.buf, cur.pos;
    cur.Advance(marker.offset);
    match marker.text
    case Some(s) =>
      cur.Advance(marker.len);
      text := s;
    case None =>
      text := cur.Take(marker.len);
      Slices(buf, n + marker.offset, 0, marker.len);
      Suffix(buf, n + marker.offset, marker.len);
  }

  method ConsumeBoth(a: StringMarker, b: StringMarker, cur: Cursor) returns (x: Bytes, y: Bytes)
    requires cur.Valid() && cur.pos + a.offset + a.len + b.offset + b.len <= |cur.buf|
    modifies cur
    ensures cur.Valid()
    ensures var n := old(cur.pos);
            var n1 := n + a.offset + a.len;
            var n2 := n1 + b.offset + b.len;
            && n2 <= |old(cur.buf)| && cur.Rest() == old(cur.buf)[n2..] && cur.buf == old(cur.buf)[Gone(a, b, n)..]
            && x == TextAt(old(cur.buf), n, a) && y == TextAt(old(cur.buf), n1, b)
  {
    hide TextAt, Gone;
    ghost var buf, n := cur.buf, cur.pos;
    x := ConsumeString(a, cur);
    ghost var buf1, pos1 := cur.buf, cur.pos;
    y := ConsumeString(b, cur);
    TextAfter(buf, n, a, b, buf1, pos1);
    LeftAfter(buf, n, a, b, buf1, pos1, cur.buf, cur.pos);
  }

  lemma TextAfter(buf: Bytes, n: nat, a: StringMarker, b: StringMarker, buf1: Bytes, pos1: nat)
    requires Leaves(buf, n, a, buf1, pos1) && n + a.offset + a.len + b.offset + b.len <= |buf|
    ensures pos1 + b.offset + b.len <= |buf1|
    ensures TextAt(buf1, pos1, b) == TextAt(buf, n + a.offset + a.len, b)
  {
    hide TextAt;
    if a.text.None? {
      TextMoves(buf, n + a.offset + a.len, b);
    }
  }

  lemma LeftAfter(buf: Bytes, n: nat, a: StringMarker, b: StringMarker, buf1: Bytes, pos1: nat, buf2: Bytes, pos2: nat)
    requires Leaves(buf, n, a, buf1, pos1) && Leaves(buf1, pos1, b, buf2, pos2)
    ensures var n2 := n + a.offset + a.len + b.offset + b.len;
            n2 <= |buf| && pos2 <= |buf2| && buf2[pos2..] == buf[n2..] && buf2 == buf[Gone(a, b, n)..]
  {
    if a.text.None? {
      Suffix(buf, n + a.offset + a.len, b.offset + b.len);
    }
    assert buf[0..] == buf && buf2[0..] == buf2;
  }

  lemma TextMoves(buf: Bytes, n: nat, m: StringMarker)
    requires n + m.offset + m.len <= |buf|
    ensures TextAt(buf[n..], 0, m) == TextAt(buf, n, m)
  {
    Slices(buf, n, m.offset, m.len);
  }

  lemma Suffix(buf: Bytes, n: nat, i: nat)
    requires n + i <= |buf|
    ensures buf[n..][i..] == buf[n + i..]
  {
  }

  lemma Slices(buf: Bytes, n: nat, i: nat, len: nat)
    requires n + i + len <= |buf|
    ensures buf[n..][i..i + len] == buf[n + i..n + i + len]
  {
  }

  /** Two strings that follow each other. */
  function BothAt(rules: Rules, buf: Bytes, n: nat): Result<(Marker, Marker), DecoderError>
    requires n <= |buf|
  {
    match ReadString(rules, buf[n..])
    case Err(e) => Err(e)
    case Ok(a) =>
      match ReadString(rules, buf[n + a.offset + a.len..])
      case Err(e) => Err(e)
      case Ok(b) => Ok((a, b))
  }

  /** Locating both strings leaves buffer and position alone. */
  method LocateBoth(rules: Rules, cur: Cursor) returns (r: Result<(StringMarker, StringMarker), DecoderError>)
    requires cur.Valid()
    modifies cur`pos
    ensures cur.Valid()
    ensures match BothAt(rules, cur.buf, old(cur.pos))
            case Err(e) => r == Err(e)
            case Ok((a, b)) =>
              r == Ok((MarkerOf(a), MarkerOf(b))) && cur.pos == old(cur.pos)
  {
    hide ReadString;
    var oldPos := cur.pos;
    var name := TryDecodeString(rules, cur);
    if name.Err? {
      return Err(name.error);
    }
    var value := TryDecodeString(rules, cur);
    if value.Err? {
      return Err(value.error);
    }
    cur.SetPosition(oldPos);
    r := Ok((name.value, value.value));
  }

  lemma MarkerLengths(rules: Rules, buf: Bytes, n: nat)
    requires n <= |buf| && BothAt(rules, buf, n).Ok?
    ensures var (a, b) := BothAt(rules, buf, n).value;
            && MarkerOf(a).offset == a.offset && MarkerOf(a).len == a.len
            && MarkerOf(b).offset == b.offset && MarkerOf(b).len == b.len
  {
  }

  /** A literal with its name spelt out, in terms of its two strings. */
  lemma SpeltSpec(rules: Rules, es: Entries, buf: Bytes, prefix: nat, n: nat)
    requires (prefix == 4 || prefix == 6) && DecodedInt(buf, prefix) == Ok((0, n))
    ensures n <= |buf|
    ensures match BothAt(rules, buf, n)
            case Err(e) => ReadLiteral(rules, es, buf, prefix) == Err(Failure(e, 0))
            case Ok((a, b)) =>
              var n1 := n + a.offset + a.len;
              var n2 := n1 + b.offset + b.len;
              && n2 <= |buf|
              && a.text == TextAt(buf, n, MarkerOf(a)) && b.text == TextAt(buf, n1, MarkerOf(b))
              && match NewHeader(rules, a.text, b.text)
                 case Ok(h) => ReadLiteral(rules, es, buf, prefix) == Ok((h, n2))
                 case Err(e) =>
                   ReadLiteral(rules, es, buf, prefix) == Err(Failure(e, Gone(MarkerOf(a), MarkerOf(b), n)))
  {
    hide ReadString, DecodedInt, NewHeader, Lookup, IntoEntry;
    if BothAt(rules, buf, n).Ok? {
      var a := BothAt(rules, buf, n).value.0;
      TextThere(rules, buf, n);
      TextThere(rules, buf, n + a.offset + a.len);
    }
  }

  lemma TextThere(rules: Rules, buf: Bytes, n: nat)
    requires n <= |buf| && ReadString(rules, buf[n..]).Ok?
    ensures var m := ReadString(rules, buf[n..]).value;
            n + m.offset + m.len <= |buf| && m.text == TextAt(buf, n, MarkerOf(m))
  {
    hide ReadString;
    var m := ReadString(rules, buf[n..]).value;
    if !m.huffman {
      PlainText(rules, buf[n..]);
      Slices(buf, n, m.offset, m.len);
    }
  }

  lemma PlainText(rules: Rules, buf: Bytes)
    requires ReadString(rules, buf).Ok? && !ReadString(rules, buf).value.huffman
    ensures var m := ReadString(rules, buf).value; m.text == buf[m.offset..m.offset + m.len]
  {
  }

  // ----- the decoder object

  class Decoder {
    const rules: Rules
    var maxSizeUpdate: Option<nat>
    var lastMaxUpdate: nat
    var entries: Entries
    var size: nat
    var maxSize: nat

    ghost predicate Valid()
      reads this
    {
      size == Size(entries) <= maxSize
    }

    ghost function Model(): State
      reads this
    {
      State(entries, maxSize, lastMaxUpdate)
    }

    /** The state a call of `decode` works on: a queued update of the limit takes effect first. */
    ghost function Started(): State
      reads this
    {
      State(entries, maxSize, if maxSizeUpdate.Some? then maxSizeUpdate.value else lastMaxUpdate)
    }

    constructor (rules: Rules, size: nat)
      ensures Valid() && Model() == State([], size, size) && maxSizeUpdate == None && this.rules == rules
    {
      this.rules := rules;
      maxSizeUpdate, lastMaxUpdate := None, size;
      entries, this.size, maxSize := [], 0, size;
    }

    /** Queues a potential size update; the largest queued one counts. */
    method QueueSizeUpdate(size: nat)
      modifies this`maxSizeUpdate
      ensures maxSizeUpdate.Some? && maxSizeUpdate.value >= size
      ensures maxSizeUpdate == Some(size) || (maxSizeUpdate == old(maxSizeUpdate) && old(maxSizeUpdate.value) > size)
    {
      var s := match maxSizeUpdate case Some(v) => if v > size then v else size case None => size;
      maxSizeUpdate := Some(s);
    }

    /** `decode_string` */
    method DecodeString(cur: Cursor) returns (r: Result<Bytes, DecoderError>)
      requires cur.Valid()
      modifies cur
      ensures cur.Valid()
      ensures match ReadString(rules, old(cur.Rest()))
              case Err(e) => r == Err(e) && cur.buf == old(cur.buf)
              case Ok(m) =>
                && r == Ok(m.text) && cur.Rest() == old(cur.Rest())[m.offset + m.len..]
                && if m.huffman then cur.buf == old(cur.buf) else cur.pos == 0
    {
      hide ReadString, TextAt;
      ghost var buf := cur.buf;
      var oldPos := cur.pos;
      var marker := TryDecodeString(rules, cur);
      if marker.Err? {
        return Err(marker.error);
      }
      cur.SetPosition(oldPos);
      var text := ConsumeString(marker.value, cur);
      TextThere(rules, buf, oldPos);
      Suffix(buf, oldPos, marker.value.offset + marker.value.len);
      r := Ok(text);
    }

    /** `decode_literal`, from the start of a representation. On success what is left is what follows it; on an error
        the buffer has lost exactly the octets that `ReadLiteral` says. */
    method DecodeLiteral(cur: Cursor, index: bool) returns (r: Result<Header, DecoderError>)
      requires cur.Valid() && cur.pos == 0
      modifies cur
      ensures cur.Valid()
      ensures match ReadLiteral(rules, entries, old(cur.buf), if index then 6 else 4)
              case Err(f) => r == Err(f.error) && cur.buf == old(cur.buf)[f.dropped..]
              case Ok((h, n)) => r == Ok(h) && cur.Rest() == old(cur.buf)[n..]
    {
      hide ReadString, DecodedInt, NewHeader, IntoEntry, Lookup;
      ghost var buf := cur.buf;
      var prefix := if index then 6 else 4;
      assert cur.Rest() == buf && buf[0..] == buf;
      var tableIdx := DecodeInt(cur, prefix);
      if tableIdx.Err? {
        return Err(tableIdx.error);
      }
      if tableIdx.value == 0 {
        r := DecodeSpelt(cur, prefix);
      } else {
        var entry := Lookup(entries, tableIdx.value);
        if entry.Err? {
          return Err(entry.error);
        }
        ghost var n := cur.pos;
        var value := DecodeString(cur);
        if value.Err? {
          return Err(value.error);
        }
        ghost var m := ReadString(rules, buf[n..]).value;
        assert buf[n..][m.offset + m.len..] == buf[n + m.offset + m.len..];
        r := IntoEntry(rules, entry.value.name, value.value);
      }
    }

    /** The name and the value of a literal whose name is spelt out: both are located before either is taken. */
    method DecodeSpelt(cur: Cursor, ghost prefix: nat) returns (r: Result<Header, DecoderError>)
      requires cur.Valid() && (prefix == 4 || prefix == 6) && DecodedInt(cur.buf, prefix) == Ok((0, cur.pos))
      modifies cur
      ensures cur.Valid()
      ensures match ReadLiteral(rules, entries, old(cur.buf), prefix)
              case Err(f) => r == Err(f.error) && cur.buf == old(cur.buf)[f.dropped..]
              case Ok((h, n)) => r == Ok(h) && cur.Rest() == old(cur.buf)[n..]
    {
      hide BothAt, DecodedInt, NewHeader, ReadLiteral, TextAt, Gone, MarkerOf;
      ghost var buf := cur.buf;
      SpeltSpec(rules, entries, buf, prefix, cur.pos);
      assert buf[0..] == buf;
      var markers := LocateBoth(rules, cur);
      if markers.Err? {
        return Err(markers.error);
      }
      MarkerLengths(rules, buf, cur.pos);
      var name, value := ConsumeBoth(markers.value.0, markers.value.1, cur);
      r := NewHeader(rules, name, value);
    }

    /** `decode_indexed` */
    method DecodeIndexed(cur: Cursor) returns (r: Result<Header, DecoderError>)
      requires cur.Valid() && cur.pos == 0
      modifies cur`pos
      ensures cur.Valid()
      ensures match DecodedInt(cur.buf, 7)
              case Err(e) => r == Err(e)
              case Ok((index, n)) => r == Lookup(entries, index) && cur.pos == n
    {
      hide DecodedInt, Lookup;
      assert cur.Rest() == cur.buf;
      var index := DecodeInt(cur, 7);
      r := match index case Err(e) => Err(e) case Ok(i) => Lookup(entries, i);
    }

    /** `process_size_update` */
    method ProcessSizeUpdate(cur: Cursor) returns (r: Result<nat, DecoderError>)
      requires Valid() && cur.Valid() && cur.pos == 0
      modifies cur`pos, this`entries, this`size, this`maxSize
      ensures Valid() && cur.Valid()
      ensures match DecodedInt(cur.buf, 5)
              case Err(e) => r == Err(e) && Model() == old(Model())
              case Ok((size, n)) =>
                if size > lastMaxUpdate then r == Err(InvalidMaxDynamicSize) && Model() == old(Model())
                else r == Ok(size) && cur.pos == n && Model() == Apply(old(Model()), SizeUpdate(size))
    {
      hide DecodedInt, Evict, Size;
      assert cur.Rest() == cur.buf;
      var newSize := DecodeInt(cur, 5);
      if newSize.Err? {
        return newSize;
      }
      if newSize.value > lastMaxUpdate {
        return Err(InvalidMaxDynamicSize);
      }
      SetMaxSize(newSize.value);
      r := newSize;
    }

    /** One representation: the header it stands for, if it stands for one. When more input is needed, the buffer is as
        it was if and only if no empty name was split off. */
    method DecodeOne(cur: Cursor) returns (r: Result<Option<Header>, DecoderError>)
      requires Valid() && cur.Valid() && cur.pos == 0 && cur.buf != []
      modifies this`entries, this`size, this`maxSize, cur
      ensures Valid() && cur.Valid()
      ensures match ReadRep(rules, old(Model()), old(cur.buf))
              case Err(f) => r == Err(f.error) && cur.buf == old(cur.buf)[f.dropped..] && Model() == old(Model())
              case Ok((rep, n)) =>
                && r == Ok(if rep.Literal? then Some(rep.header) else None)
                && cur.buf == old(cur.buf)[n..] && cur.pos == 0 && Model() == Apply(old(Model()), rep)
      ensures r.Err? && WantsMore(r.error) ==>
                (cur.buf == old(cur.buf) <==> !EmptyNameSplit(rules, old(cur.buf)))
    {
      hide ReadLiteral, DecodedInt, Lookup, Insert, Evict, Size, EmptyNameSplit;
      ghost var buf := cur.buf;
      assert buf[0..] == buf;
      KeptExactly(rules, Model(), buf);
      var ty := cur.buf[0];
      if ty >= 128 {
        var entry := DecodeIndexed(cur);
        if entry.Err? {
          return Err(entry.error);
        }
        cur.Consume();
        r := Ok(Some(entry.value));
      } else if ty >= 64 {
        var entry := DecodeLiteral(cur, true);
        if entry.Err? {
          return Err(entry.error);
        }
        InsertEntry(entry.value);
        cur.Consume();
        r := Ok(Some(entry.value));
      } else if ty < 32 {
        // without indexing, or never to be indexed: read alike
        var entry := DecodeLiteral(cur, false);
        if entry.Err? {
          return Err(entry.error);
        }
        cur.Consume();
        r := Ok(Some(entry.value));
      } else {
        var size := ProcessSizeUpdate(cur);
        if size.Err? {
          return Err(size.error);
        }
        cur.Consume();
        r := Ok(None);
      }
    }

    /** `decode`: what is in the buffer afterwards is what the next call gets in front of its fragment. */
    method Decode(cur: Cursor) returns (headers: seq<Header>, error: Option<DecoderError>)
      requires Valid() && cur.pos == 0
      modifies this, cur
      ensures Valid() && cur.Valid() && maxSizeUpdate == None
      ensures Outcome(headers, Model(), cur.buf, error) == Run(rules, old(Started()), true, old(cur.buf))
    {
      hide ReadRep, Run, Size, Insert, Evict, Apply;
      var canResize := true;
      if maxSizeUpdate.Some? {
        lastMaxUpdate := maxSizeUpdate.value;
        maxSizeUpdate := None;
      }
      headers, error := [], None;
      ghost var whole := Run(rules, Model(), true, cur.buf);
      while cur.pos < |cur.buf|
        invariant Valid() && cur.pos == 0 && maxSizeUpdate == None && error == None
        invariant whole == Prefixed(headers, Run(rules, Model(), canResize, cur.buf))
        decreases |cur.buf|
      {
        if IsSizeUpdate(cur.buf[0]) && !canResize {
          RunForbidden(rules, Model(), cur.buf);
          error := Some(InvalidMaxDynamicSize);
          return;
        }
        RunStep(rules, Model(), canResize, cur.buf);
        if ReadRep(rules, Model(), cur.buf).Ok? {
          RepKind(rules, Model(), cur.buf);
        }
        if !IsSizeUpdate(cur.buf[0]) {
          canResize := false;
        }
        var r := DecodeOne(cur);
        match r
        case Err(e) =>
          error := Some(e);
          return;
        case Ok(entry) =>
          if entry.Some? {
            headers := headers + [entry.value];
          }
      }
      RunEmpty(rules, Model(), canResize);
    }

    /** `Table::insert` */
    method InsertEntry(entry: Header)
      requires Valid()
      modifies this`entries, this`size
      ensures Valid() && entries == Insert(old(entries), maxSize, entry)
    {
      hide Size, Evict, Len;
      ghost var target := Insert(entries, maxSize, entry);
      var len := Len(entry);
      while size + len > maxSize && entries != []
        invariant size == Size(entries) <= maxSize
        invariant len <= maxSize ==> [entry] + Evict(entries, maxSize - len) == target
        decreases |entries|
      {
        SizePop(entries);
        if len <= maxSize {
          EvictPop(entries, maxSize - len);
        }
        size := size - Len(entries[|entries| - 1]);
        entries := entries[..|entries| - 1];
      }
      if size + len <= maxSize {
        EvictPop(entries, maxSize - len);
        SizeOfFront(entry, entries);
        size := size + len;
        entries := [entry] + entries;
      } else {
        SizeEmpty();
      }
    }

    /** `set_max_size` */
    method SetMaxSize(size: nat)
      requires Valid()
      modifies this`entries, this`size, this`maxSize
      ensures Valid() && maxSize == size && entries == Evict(old(entries), size)
    {
      hide Size, Evict;
      maxSize := size;
      ghost var target := Evict(entries, size);
      while this.size > maxSize
        invariant this.size == Size(entries) && maxSize == size && Evict(entries, size) == target
        decreases |entries|
      {
        EvictPop(entries, size);
        SizePop(entries);
        this.size := this.size - Len(entries[|entries| - 1]);
        entries := entries[..|entries| - 1];
      }
      EvictPop(entries, size);
    }
  }

  lemma SizeEmpty()
    ensures Size([]) == 0
  {
  }

  ghost function Prefixed(headers: seq<Header>, r: Outcome): Outcome
  {
    r.(headers := headers + r.headers)
  }

  /** Whatever octets arrive, the table stays within its size, and its size is raised to no more than was allowed. */
  lemma {:induction false} RunBounded(rules: Rules, st: State, canResize: bool, buf: Bytes)
    requires Size(st.entries) <= st.max
    ensures var r := Run(rules, st, canResize, buf);
            && Size(r.state.entries) <= r.state.max && r.state.lastMax == st.lastMax
            && (r.state.max == st.max || (canResize && r.state.max <= st.lastMax))
    decreases |buf|
  {
    hide ReadLiteral, DecodedInt, Lookup, Size, Evict, Insert;
    if buf != [] && (!IsSizeUpdate(buf[0]) || canResize) && ReadRep(rules, st, buf).Ok? {
      var (rep, n) := ReadRep(rules, st, buf).value;
      RunBounded(rules, Apply(st, rep), canResize && rep.SizeUpdate?, buf[n..]);
    }
  }

  /** The name is a pseudo header, allowed, or in the static table. */
  ghost predicate NameValid(rules: Rules, n: Name)
  {
    n.Field? ==> rules.fieldName(n.bytes) || exists i :: 1 <= i <= 61 && StaticName(i) == n
  }

  /** The header is a static entry, or its name and its value were checked. */
  ghost predicate HeaderValid(rules: Rules, h: Header)
  {
    (exists i :: 1 <= i <= 61 && GetStatic(i) == h) || (NameValid(rules, h.name) && rules.fieldValue(h.name, h.value))
  }

  ghost predicate AllValid(rules: Rules, hs: seq<Header>)
  {
    forall i :: 0 <= i < |hs| ==> HeaderValid(rules, hs[i])
  }

  lemma ValidNames(rules: Rules, h: Header)
    requires HeaderValid(rules, h)
    ensures NameValid(rules, h.name)
  {
    hide StaticName, StaticValue;
    if i :| 1 <= i <= 61 && GetStatic(i) == h {
      assert StaticName(i) == h.name;
    }
  }

  lemma LookupValid(rules: Rules, es: Entries, index: nat)
    requires AllValid(rules, es) && Lookup(es, index).Ok?
    ensures HeaderValid(rules, Lookup(es, index).value)
  {
    hide StaticName, StaticValue, NameValid;
    if index > 61 {
      assert HeaderValid(rules, es[index - DYN_OFFSET]);
    }
  }

  lemma LiteralValid(rules: Rules, es: Entries, buf: Bytes, prefix: nat)
    requires (prefix == 4 || prefix == 6) && AllValid(rules, es) && ReadLiteral(rules, es, buf, prefix).Ok?
    ensures HeaderValid(rules, ReadLiteral(rules, es, buf, prefix).value.0)
  {
    hide DecodedInt, ReadString, Lookup, NameBytes, GetStatic, AllValid, StaticName;
    var (index, n) := DecodedInt(buf, prefix).value;
    if index > 0 {
      LookupValid(rules, es, index);
      ValidNames(rules, Lookup(es, index).value);
    }
  }

  lemma RepValid(rules: Rules, st: State, buf: Bytes)
    requires buf != [] && AllValid(rules, st.entries) && ReadRep(rules, st, buf).Ok?
    ensures var rep := ReadRep(rules, st, buf).value.0;
            AllValid(rules, Emitted(rep)) && AllValid(rules, Apply(st, rep).entries)
  {
    hide DecodedInt, Lookup, ReadLiteral, HeaderValid, Insert, Evict;
    var rep := ReadRep(rules, st, buf).value.0;
    if buf[0] >= 128 {
      LookupValid(rules, st.entries, DecodedInt(buf, 7).value.0);
    } else if buf[0] >= 64 {
      LiteralValid(rules, st.entries, buf, 6);
      InsertValid(rules, st.entries, st.max, rep.header);
    } else if buf[0] < 32 {
      LiteralValid(rules, st.entries, buf, 4);
    } else {
      EvictKeepsNewest(st.entries, rep.size);
    }
  }

  lemma InsertValid(rules: Rules, es: Entries, max: nat, h: Header)
    requires AllValid(rules, es) && HeaderValid(rules, h)
    ensures AllValid(rules, Insert(es, max, h))
  {
    hide HeaderValid, Insert, Size, Len;
    InsertExact(es, max, h);
    var r := Insert(es, max, h);
    forall i | 0 <= i < |r| ensures HeaderValid(rules, r[i]) {
      if i > 0 {
        assert r[i] == r[1..][i - 1] == es[i - 1];
      }
    }
  }

  /** Whatever octets arrive, every header handed out and every entry kept was checked. */
  lemma {:induction false} RunValid(rules: Rules, st: State, canResize: bool, buf: Bytes)
    requires AllValid(rules, st.entries)
    ensures var r := Run(rules, st, canResize, buf);
            AllValid(rules, r.headers) && AllValid(rules, r.state.entries)
    decreases |buf|
  {
    hide ReadRep, HeaderValid, Apply, Emitted;
    if buf != [] && (!IsSizeUpdate(buf[0]) || canResize) && ReadRep(rules, st, buf).Ok? {
      var (rep, n) := ReadRep(rules, st, buf).value;
      RepValid(rules, st, buf);
      RunValid(rules, Apply(st, rep), canResize && rep.SizeUpdate?, buf[n..]);
    }
  }

  lemma RunForbidden(rules: Rules, st: State, buf: Bytes)
    requires buf != [] && IsSizeUpdate(buf[0])
    ensures Run(rules, st, false, buf) == Outcome([], st, buf, Some(InvalidMaxDynamicSize))
  {
  }
}
