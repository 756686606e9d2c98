/**
 HPACK header fields and the static table of RFC 7541 (hpack/header.rs, `index_static` in hpack/table.rs, `get_static`
 in hpack/decoder.rs). Names and values are byte strings that the `http` crate has already validated.
 */
module HpackHeader {
  import opened Common

  datatype Name = Field(bytes: Bytes) | Authority | Method | Scheme | Path | Protocol | Status

  /** `sensitive` is the flag of an `http` header value; only ordinary fields carry it. */
  datatype Header = Header(name: Name, value: Bytes, sensitive: bool)

  function Ascii(s: string): (r: Bytes)
    ensures |r| == |s|
  {
    seq(|s|, i requires 0 <= i < |s| => s[i] as int % 256)
  }

  /** `Name::as_slice` */
  function NameBytes(n: Name): Bytes
  {
    match n
    case Field(b) => b
    case Authority => Ascii(":authority")
    case Method => Ascii(":method")
    case Scheme => Ascii(":scheme")
    case Path => Ascii(":path")
    case Protocol => Ascii(":protocol")
    case Status => Ascii(":status")
  }

  /** `Header::len` */
  function Len(h: Header): (r: nat)
    ensures r >= 32
  {
    32 + |NameBytes(h.name)| + |h.value|
  }

  /** `Header::is_sensitive` */
  predicate IsSensitive(h: Header)
  {
    h.name.Field? && h.sensitive
  }

  /** Same name and same value: what `name() ==` and `value_eq` together compare. */
  predicate SameField(a: Header, b: Header)
  {
    a.name == b.name && a.value == b.value
  }

  /** Names of the ordinary fields of the static table, entries 15 to 61. */
  function StaticFieldName(i: nat): string
    requires 15 <= i <= 61
  {
    match i
    case 15 => "accept-charset"
    case 16 => "accept-encoding"
    case 17 => "accept-language"
    case 18 => "accept-ranges"
    case 19 => "accept"
    case 20 => "access-control-allow-origin"
    case 21 => "age"
    case 22 => "allow"
    case 23 => "authorization"
    case 24 => "cache-control"
    case 25 => "content-disposition"
    case 26 => "content-encoding"
    case 27 => "content-language"
    case 28 => "content-length"
    case 29 => "content-location"
    case 30 => "content-range"
    case 31 => "content-type"
    case 32 => "cookie"
    case 33 => "date"
    case 34 => "etag"
    case 35 => "expect"
    case 36 => "expires"
    case 37 => "from"
    case 38 => "host"
    case 39 => "if-match"
    case 40 => "if-modified-since"
    case 41 => "if-none-match"
    case 42 => "if-range"
    case 43 => "if-unmodified-since"
    case 44 => "last-modified"
    case 45 => "link"
    case 46 => "location"
    case 47 => "max-forwards"
    case 48 => "proxy-authenticate"
    case 49 => "proxy-authorization"
    case 50 => "range"
    case 51 => "referer"
    case 52 => "refresh"
    case 53 => "retry-after"
    case 54 => "server"
    case 55 => "set-cookie"
    case 56 => "strict-transport-security"
    case 57 => "transfer-encoding"
    case 58 => "user-agent"
    case 59 => "vary"
    case 60 => "via"
    case _ => "www-authenticate"
  }

  function StaticName(i: nat): Name
    requires 1 <= i <= 61
  {
    if i == 1 then Authority
    else if i <= 3 then Method
    else if i <= 5 then Path
    else if i <= 7 then Scheme
    else if i <= 14 then Status
    else Field(Ascii(StaticFieldName(i)))
  }

  function StaticValue(i: nat): Bytes
    requires 1 <= i <= 61
  {
    match i
    case 2 => Ascii("GET")
    case 3 => Ascii("POST")
    case 4 => Ascii("/")
    case 5 => Ascii("/index.html")
    case 6 => Ascii("http")
    case 7 => Ascii("https")
    case 8 => Ascii("200")
    case 9 => Ascii("204")
    case 10 => Ascii("206")
    case 11 => Ascii("304")
    case 12 => Ascii("400")
    case 13 => Ascii("404")
    case 14 => Ascii("500")
    case 16 => Ascii("gzip, deflate")
    case _ => []
  }

  /** `get_static` */
  function GetStatic(i: nat): Header
    requires 1 <= i <= 61
  {
    Header(StaticName(i), StaticValue(i), false)
  }

  /** The static entry that carries the given ordinary name, searched from entry i. */
  function StaticFieldIndex(name: Bytes, i: nat): (r: Option<nat>)
    requires 15 <= i <= 62
    ensures r.Some? ==> i <= r.value <= 61 && StaticName(r.value) == Field(name)
    decreases 62 - i
  {
    if i == 62 then None
    else if Ascii(StaticFieldName(i)) == name then Some(i)
    else StaticFieldIndex(name, i + 1)
  }

  /** `index_static`: the static entry for the header's name, and whether the value matched too. */
  function IndexStatic(h: Header): (r: Option<(nat, bool)>)
    ensures r.Some? ==> 1 <= r.value.0 <= 61 && StaticName(r.value.0) == h.name
    ensures r.Some? && r.value.1 ==> SameField(GetStatic(r.value.0), h)
  {
    match h.name
    case Field(name) =>
      (match StaticFieldIndex(name, 15)
       case None => None
       case Some(i) => Some((i, i == 16 && h.value == Ascii("gzip, deflate"))))
    case Authority => Some((1, false))
    case Method =>
      Some(if h.value == Ascii("GET") then (2, true)
           else if h.value == Ascii("POST") then (3, true)
           else (2, false))
    case Scheme =>
      Some(if h.value == Ascii("http") then (6, true)
           else if h.value == Ascii("https") then (7, true)
           else (6, false))
    case Path =>
      Some(if h.value == Ascii("/") then (4, true)
           else if h.value == Ascii("/index.html") then (5, true)
           else (4, false))
    case Protocol => None
    case Status =>
      Some(if h.value == Ascii("200") then (8, true)
           else if h.value == Ascii("204") then (9, true)
           else if h.value == Ascii("206") then (10, true)
           else if h.value == Ascii("304") then (11, true)
           else if h.value == Ascii("400") then (12, true)
           else if h.value == Ascii("404") then (13, true)
           else if h.value == Ascii("500") then (14, true)
           else (8, false))
  }

  /** `Header::skip_value_index` */
  predicate SkipValueIndex(h: Header)
  {
    match h.name
    case Field(name) =>
      name in [Ascii("age"), Ascii("authorization"), Ascii("content-length"), Ascii("etag"),
               Ascii("if-modified-since"), Ascii("if-none-match"), Ascii("location"), Ascii("cookie"),
               Ascii("set-cookie")]
    case Path => true
    case _ => false
  }

  // ----- what the static table settles

  lemma {:induction false} StaticFieldIndexExact(name: Bytes, i: nat)
    requires 15 <= i <= 62
    ensures var r := StaticFieldIndex(name, i);
            forall j :: i <= j < (if r.Some? then r.value else 62) ==> StaticName(j) != Field(name)
    decreases 62 - i
  {
    hide StaticFieldName;
    if i < 62 && Ascii(StaticFieldName(i)) != name {
      StaticFieldIndexExact(name, i + 1);
      assert StaticName(i) != Field(name);
    }
  }

  /** The ordinary fields of the static table have no value, but for one. */
  lemma StaticValues(i: nat)
    requires 15 <= i <= 61
    ensures StaticValue(i) == if i == 16 then Ascii("gzip, deflate") else []
  {
  }

  lemma AcceptEncoding()
    ensures StaticFieldIndex(Ascii("accept-encoding"), 15) == Some(16)
    ensures StaticName(16) == Field(Ascii("accept-encoding"))
  {
    var name := Ascii("accept-encoding");
    assert |Ascii(StaticFieldName(15))| == 14 && |name| == 15;
    assert StaticFieldIndex(name, 15) == StaticFieldIndex(name, 16);
  }

  /** The static entries that stand for a whole header. */
  predicate StaticMatch(i: nat, h: Header)
  {
    1 <= i <= 61 && SameField(GetStatic(i), h) && StaticValue(i) != []
  }

  predicate StaticNamed(i: nat, h: Header)
  {
    1 <= i <= 61 && StaticName(i) == h.name
  }

  /** `index_static` finds the entry for the whole header if there is one, else the first entry of its name, and nothing
      only if no entry has the name. */
  lemma IndexStaticExact(h: Header)
    ensures match IndexStatic(h)
            case None => forall i :: !StaticNamed(i, h)
            case Some((i, true)) => StaticMatch(i, h) && forall j :: StaticMatch(j, h) ==> j == i
            case Some((i, false)) =>
              && StaticNamed(i, h) && (forall j :: StaticNamed(j, h) ==> i <= j)
              && forall j :: !StaticMatch(j, h)
  {
    if h.name.Field? {
      FieldStaticExact(h);
    } else {
      PseudoStaticExact(h);
    }
  }

  lemma FieldStaticExact(h: Header)
    requires h.name.Field?
    ensures match IndexStatic(h)
            case None => forall i :: !StaticNamed(i, h)
            case Some((i, true)) => StaticMatch(i, h) && forall j :: StaticMatch(j, h) ==> j == i
            case Some((i, false)) =>
              && StaticNamed(i, h) && (forall j :: StaticNamed(j, h) ==> i <= j)
              && forall j :: !StaticMatch(j, h)
  {
    hide StaticFieldName, StaticValue, StaticFieldIndex;
    var name := h.name.bytes;
    StaticFieldIndexExact(name, 15);
    AcceptEncoding();
    StaticValues(16);
    forall j | StaticMatch(j, h) ensures j == 16 && name == Ascii("accept-encoding") {
      StaticValues(j);
    }
  }

  lemma PseudoStaticExact(h: Header)
    requires !h.name.Field?
    ensures match IndexStatic(h)
            case None => forall i :: !StaticNamed(i, h)
            case Some((i, true)) => StaticMatch(i, h) && forall j :: StaticMatch(j, h) ==> j == i
            case Some((i, false)) =>
              && StaticNamed(i, h) && (forall j :: StaticNamed(j, h) ==> i <= j)
              && forall j :: !StaticMatch(j, h)
  {
    hide StaticFieldName;
    StatusCodes();
    TwoValues();
    forall j | StaticMatch(j, h) ensures j <= 14 && IndexStatic(h) == Some((j, true)) {
      PseudoMatch(h, j);
    }
  }

  lemma StatusCodes()
    ensures forall i, j :: 8 <= i < j <= 14 ==> StaticValue(i) != StaticValue(j)
  {
    forall i, j | 8 <= i < j <= 14 ensures StaticValue(i) != StaticValue(j) {
      assert StaticValue(i)[0] != StaticValue(j)[0] || StaticValue(i)[1] != StaticValue(j)[1] ||
             StaticValue(i)[2] != StaticValue(j)[2];
    }
  }

  lemma TwoValues()
    ensures StaticValue(2) != StaticValue(3) && StaticValue(4) != StaticValue(5) && StaticValue(6) != StaticValue(7)
  {
    assert |StaticValue(2)| == 3 && |StaticValue(3)| == 4 && |StaticValue(4)| == 1 && |StaticValue(5)| == 11;
    assert |StaticValue(6)| == 4 && |StaticValue(7)| == 5;
  }

  lemma PseudoMatch(h: Header, j: nat)
    requires !h.name.Field? && StaticMatch(j, h)
    ensures j <= 14 && IndexStatic(h) == Some((j, true))
  {
    hide StaticFieldName, Ascii;
    TwoValues();
    assert StaticValue(1) == [];
    if h.name.Status? {
      StatusMatch(h, j);
    }
  }

  lemma StatusMatch(h: Header, j: nat)
    requires h.name.Status? && StaticMatch(j, h)
    ensures 8 <= j <= 14 && IndexStatic(h) == Some((j, true))
  {
    hide StaticFieldName, Ascii;
    StatusCodes();
    assert 8 <= j <= 14;
  }

  /** The names whose values are never indexed, by their places in the static table: every one of them is there. */
  lemma SkippedNames(h: Header)
    ensures SkipValueIndex(h) <==>
            || StaticNamed(4, h) || StaticNamed(21, h) || StaticNamed(23, h) || StaticNamed(28, h)
            || StaticNamed(32, h) || StaticNamed(34, h) || StaticNamed(40, h) || StaticNamed(41, h)
            || StaticNamed(46, h) || StaticNamed(55, h)
  {
    hide StaticName, Ascii;
    PlacesOfSkipped();
    MorePlaces();
    PlaceOfPath();
  }

  lemma PlaceOfPath()
    ensures StaticName(4) == Path
  {
  }

  lemma PlacesOfSkipped()
    ensures StaticName(21) == Field(Ascii("age")) && StaticName(23) == Field(Ascii("authorization"))
    ensures StaticName(28) == Field(Ascii("content-length")) && StaticName(34) == Field(Ascii("etag"))
  {
    hide Ascii;
  }

  lemma MorePlaces()
    ensures StaticName(40) == Field(Ascii("if-modified-since")) && StaticName(41) == Field(Ascii("if-none-match"))
    ensures StaticName(46) == Field(Ascii("location")) && StaticName(32) == Field(Ascii("cookie"))
    ensures StaticName(55) == Field(Ascii("set-cookie"))
  {
    hide Ascii;
  }
}
