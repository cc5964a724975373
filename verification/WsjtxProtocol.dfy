/** The WSJT-X datagram parser: a cursor over big-endian fields and length-prefixed strings. */
module WsjtxProtocol {
  import opened Results
  import opened Utf8

  const MAGIC: nat := 0xADBC_CBDA
  const SCHEMA: nat := 3
  const MSG_TYPE_LOGGED_ADIF: nat := 12
  const U32: nat := 0x1_0000_0000
  const USIZE_MAX: nat := 0xFFFF_FFFF_FFFF_FFFF

  datatype WsjtxError = BadMagic(found: nat) | LengthOverflow | Truncated | InvalidLength(len: int) | InvalidUtf8

  // ------------------------------------------------------------------- fields

  function Be32(n: nat): (bs: seq<byte>)
    requires n < U32
    ensures |bs| == 4
  {
    [n / 0x100_0000, n / 0x1_0000 % 0x100, n / 0x100 % 0x100, n % 0x100]
  }

  function FromBe32(bs: seq<byte>): (n: nat)
    requires |bs| == 4
    ensures n < U32
  {
    ((bs[0] as nat * 0x100 + bs[1]) * 0x100 + bs[2]) * 0x100 + bs[3]
  }

  /** The two's complement reading of 32 bits. */
  function AsI32(n: nat): int
    requires n < U32
  {
    if n < 0x8000_0000 then n else n - U32
  }

  lemma Be32RoundTrip(n: nat)
    requires n < U32
    ensures FromBe32(Be32(n)) == n
  {
    var a, b, c := n / 0x100, n / 0x1_0000, n / 0x100_0000;
    assert b == a / 0x100 && c == b / 0x100;
  }

  lemma Be32Onto(bs: seq<byte>)
    requires |bs| == 4
    ensures Be32(FromBe32(bs)) == bs
  {
    var a: nat := bs[0];
    var b := a * 0x100 + bs[1];
    var c := b * 0x100 + bs[2];
    var n := c * 0x100 + bs[3];
    assert n / 0x100 == c && n / 0x1_0000 == b && n / 0x100_0000 == a;
  }

  // ------------------------------------------------- what the cursor reads, on values

  /** A field and the position behind it. */
  datatype Scan<+T> = Bad(error: WsjtxError) | Good(value: T, pos: nat)

  function TakeAt(buf: seq<byte>, pos: nat, n: nat): (r: Scan<seq<byte>>)
    requires pos <= |buf|
    ensures r.Good? ==> r.pos == pos + n <= |buf| && r.value == buf[pos..pos + n]
  {
    if pos + n > USIZE_MAX then Bad(LengthOverflow)
    else if pos + n > |buf| then Bad(Truncated)
    else Good(buf[pos..pos + n], pos + n)
  }

  function U32At(buf: seq<byte>, pos: nat): (r: Scan<nat>)
    requires pos <= |buf|
    ensures r.Good? ==> r.pos == pos + 4 <= |buf| && r.value < U32
  {
    match TakeAt(buf, pos, 4)
    case Bad(e) => Bad(e)
    case Good(bs, pos') => Good(FromBe32(bs), pos')
  }

  /** A null string has length -1 and reads as empty. */
  function QStringAt(buf: seq<byte>, pos: nat): (r: Scan<string>)
    requires pos <= |buf|
    ensures r.Good? ==> pos + 4 <= r.pos <= |buf|
  {
    match U32At(buf, pos)
    case Bad(e) => Bad(e)
    case Good(n, pos') =>
      var len := AsI32(n);
      if len == -1 then Good("", pos')
      else if len < 0 then Bad(InvalidLength(len))
      else
        match TakeAt(buf, pos', len)
        case Bad(e) => Bad(e)
        case Good(bs, end) =>
          match Decode(bs)
          case None => Bad(InvalidUtf8)
          case Some(text) => Good(text, end)
  }

  datatype Message = Ignored | LoggedAdif(adif: string)

  /** A whole datagram; the position is where parsing stopped. */
  function ParseAt(buf: seq<byte>): (r: Scan<Message>)
    ensures r.Good? ==> r.pos <= |buf|
  {
    match U32At(buf, 0)
    case Bad(e) => Bad(e)
    case Good(magic, p1) =>
      if magic != MAGIC then Bad(BadMagic(magic))
      else
        match U32At(buf, p1)
        case Bad(e) => Bad(e)
        case Good(_, p2) =>
          match U32At(buf, p2)
          case Bad(e) => Bad(e)
          case Good(kind, p3) =>
            if kind != MSG_TYPE_LOGGED_ADIF then Good(Ignored, p3) else BodyAt(buf, p3)
  }

  function BodyAt(buf: seq<byte>, pos: nat): (r: Scan<Message>)
    requires pos <= |buf|
    ensures r.Good? ==> r.pos <= |buf|
  {
    match QStringAt(buf, pos)
    case Bad(e) => Bad(e)
    case Good(_, p1) =>
      match QStringAt(buf, p1)
      case Bad(e) => Bad(e)
      case Good(adif, p2) => Good(LoggedAdif(adif), p2)
  }

  // ----------------------------------------------------------------- the cursor

  class Cursor {
    const buf: seq<byte>
    var pos: nat

    ghost predicate Valid()
      reads this
    {
      pos <= |buf|
    }

    constructor (buf: seq<byte>)
      ensures Valid() && this.buf == buf && pos == 0
    {
      this.buf := buf;
      pos := 0;
    }

    method Take(n: nat) returns (r: Result<seq<byte>, WsjtxError>)
      requires Valid()
      modifies this
      ensures Valid()
      ensures match TakeAt(buf, old(pos), n)
              case Good(bs, end) => r == Ok(bs) && pos == end
              case Bad(e) => r == Err(e) && pos == old(pos)
    {
      var end := pos + n;
      if end > USIZE_MAX {
        return Err(LengthOverflow);
      }
      if end > |buf| {
        return Err(Truncated);
      }
      r := Ok(buf[pos..end]);
      pos := end;
    }

    method ReadU32() returns (r: Result<nat, WsjtxError>)
      requires Valid()
      modifies this
      ensures Valid() && (r.Ok? ==> r.value < U32)
      ensures match U32At(buf, old(pos))
              case Good(n, end) => r == Ok(n) && pos == end
              case Bad(e) => r == Err(e) && pos == old(pos)
    {
      var bytes := Take(4);
      match bytes {
        case Err(e) => r := Err(e);
        case Ok(bs) => r := Ok(FromBe32(bs));
      }
    }

    method ReadQString() returns (r: Result<string, WsjtxError>)
      requires Valid()
      modifies this
      ensures Valid() && pos >= old(pos)
      ensures match QStringAt(buf, old(pos))
              case Good(text, end) => r == Ok(text) && pos == end
              case Bad(e) => r == Err(e)
    {
      var raw := ReadU32();
      if raw.Err? {
        return Err(raw.error);
      }
      var len := AsI32(raw.value);
      if len == -1 {
        return Ok("");
      }
      if len < 0 {
        return Err(InvalidLength(len));
      }
      var bytes := Take(len);
      if bytes.Err? {
        return Err(bytes.error);
      }
      match Decode(bytes.value) {
        case Some(text) => r := Ok(text);
        case None => r := Err(InvalidUtf8);
      }
    }
  }

  /** Parse a datagram: the ADIF of a type-12 message, nothing for any other message, or an error. */
  method ParseLoggedAdif(bytes: seq<byte>) returns (r: Result<Option<string>, WsjtxError>)
    ensures match ParseAt(bytes)
            case Bad(e) => r == Err(e)
            case Good(Ignored, _) => r == Ok(None)
            case Good(LoggedAdif(adif), _) => r == Ok(Some(adif))
  {
    var c := new Cursor(bytes);
    var magic := c.ReadU32();
    if magic.Err? {
      return Err(magic.error);
    }
    if magic.value != MAGIC {
      return Err(BadMagic(magic.value));
    }
    var schema := c.ReadU32();
    if schema.Err? {
      return Err(schema.error);
    }
    var messageType := c.ReadU32();
    if messageType.Err? {
      return Err(messageType.error);
    }
    if messageType.value != MSG_TYPE_LOGGED_ADIF {
      return Ok(None);
    }
    var id := c.ReadQString();
    if id.Err? {
      return Err(id.error);
    }
    var adif := c.ReadQString();
    r := if adif.Err? then Err(adif.error) else Ok(Some(adif.value));
  }

  // ------------------------------------------------------- what packets look like

  predicate Fits(text: string) { |Encode(text)| < 0x8000_0000 }

  function QString(text: string): seq<byte>
    requires Fits(text)
  {
    Be32(|Encode(text)|) + Encode(text)
  }

  /** A string field on the wire: null, or a length and that many bytes of UTF-8. */
  predicate IsQString(field: seq<byte>, text: string) {
    (field == Be32(U32 - 1) && text == "") || (Fits(text) && field == QString(text))
  }

  method PushQString(out: seq<byte>, text: string) returns (out': seq<byte>)
    requires Fits(text)
    ensures out' == out + QString(text)
  {
    out' := out + Be32(|Encode(text)|);
    out' := out' + Encode(text);
    assert out' == out + (Be32(|Encode(text)|) + Encode(text));
  }

  function Header(schema: nat, kind: nat): seq<byte>
    requires schema < U32 && kind < U32
  {
    Be32(MAGIC) + Be32(schema) + Be32(kind)
  }

  function LoggedAdifPacket(id: string, adif: string): seq<byte>
    requires Fits(id) && Fits(adif)
  {
    Header(SCHEMA, MSG_TYPE_LOGGED_ADIF) + QString(id) + QString(adif)
  }

  method EncodeLoggedAdif(id: string, adif: string) returns (out: seq<byte>)
    requires Fits(id) && Fits(adif)
    ensures out == LoggedAdifPacket(id, adif)
  {
    out := [];
    out := out + Be32(MAGIC);
    out := out + Be32(SCHEMA);
    out := out + Be32(MSG_TYPE_LOGGED_ADIF);
    assert out == Header(SCHEMA, MSG_TYPE_LOGGED_ADIF);
    out := PushQString(out, id);
    out := PushQString(out, adif);
  }

  // ------------------------------------------- reading does not look past its end

  lemma TakeExtends(buf: seq<byte>, t: seq<byte>, pos: nat, n: nat)
    requires pos <= |buf| && TakeAt(buf, pos, n).Good?
    ensures TakeAt(buf + t, pos, n) == TakeAt(buf, pos, n)
  {
    assert (buf + t)[pos..pos + n] == buf[pos..pos + n];
  }

  lemma U32Extends(buf: seq<byte>, t: seq<byte>, pos: nat)
    requires pos <= |buf| && U32At(buf, pos).Good?
    ensures U32At(buf + t, pos) == U32At(buf, pos)
  {
    TakeExtends(buf, t, pos, 4);
  }

  lemma QStringExtends(buf: seq<byte>, t: seq<byte>, pos: nat)
    requires pos <= |buf| && QStringAt(buf, pos).Good?
    ensures QStringAt(buf + t, pos) == QStringAt(buf, pos)
  {
    hide TakeAt, Decode;
    U32Extends(buf, t, pos);
    var len := AsI32(U32At(buf, pos).value);
    if len >= 0 {
      TakeExtends(buf, t, pos + 4, len);
    }
  }

  /** A datagram that parses, parses the same with anything behind it. */
  lemma ParseExtends(buf: seq<byte>, t: seq<byte>)
    requires ParseAt(buf).Good?
    ensures ParseAt(buf + t) == ParseAt(buf)
  {
    hide U32At, QStringAt;
    U32Extends(buf, t, 0);
    U32Extends(buf, t, 4);
    U32Extends(buf, t, 8);
    if U32At(buf, 8).value == MSG_TYPE_LOGGED_ADIF {
      QStringExtends(buf, t, 12);
      QStringExtends(buf, t, QStringAt(buf, 12).pos);
    }
  }

  // -------------------------------------------------------------- round trips

  lemma U32RoundTrip(before: seq<byte>, n: nat, after: seq<byte>)
    requires n < U32 && |before| + 4 <= USIZE_MAX
    ensures U32At(before + Be32(n) + after, |before|) == Good(n, |before| + 4)
  {
    assert (before + Be32(n) + after)[|before|..|before| + 4] == Be32(n);
    Be32RoundTrip(n);
  }

  lemma QStringRoundTrip(before: seq<byte>, field: seq<byte>, text: string, after: seq<byte>)
    requires IsQString(field, text) && |before| + |field| <= USIZE_MAX
    ensures QStringAt(before + field + after, |before|) == Good(text, |before| + |field|)
  {
    hide Decode, Be32, FromBe32, U32At;
    var buf := before + field + after;
    if Fits(text) && field == QString(text) {
      var bytes := Encode(text);
      U32RoundTrip(before, |bytes|, bytes + after);
      assert buf == before + Be32(|bytes|) + (bytes + after);
      assert buf[|before| + 4..|before| + |field|] == bytes;
      RoundTrip(text);
    } else {
      U32RoundTrip(before, U32 - 1, after);
    }
  }

  /** Any header, then two string fields: the parser finds the ADIF and stops behind it. */
  lemma FieldsParse(schema: nat, idField: seq<byte>, id: string, adifField: seq<byte>, adif: string, t: seq<byte>)
    requires schema < U32 && IsQString(idField, id) && IsQString(adifField, adif)
    ensures var head := Header(schema, MSG_TYPE_LOGGED_ADIF);
            ParseAt(head + idField + adifField + t) == Good(LoggedAdif(adif), |head| + |idField| + |adifField|)
  {
    hide U32At, QStringAt, Be32, IsQString;
    FieldIsShort(idField, id);
    FieldIsShort(adifField, adif);
    var head := Header(schema, MSG_TYPE_LOGGED_ADIF);
    var buf := head + idField + adifField + t;
    HeaderParses(schema, MSG_TYPE_LOGGED_ADIF, idField + adifField + t);
    assert buf == head + (idField + adifField + t);
    QStringRoundTrip(head, idField, id, adifField + t);
    assert buf == head + idField + (adifField + t);
    QStringRoundTrip(head + idField, adifField, adif, t);
  }

  lemma FieldIsShort(field: seq<byte>, text: string)
    requires IsQString(field, text)
    ensures |field| < 0x8000_0000 + 4
  {
  }

  lemma HeaderParses(schema: nat, kind: nat, t: seq<byte>)
    requires schema < U32 && kind < U32
    ensures var buf := Header(schema, kind) + t;
            && |Header(schema, kind)| == 12
            && U32At(buf, 0) == Good(MAGIC, 4) && U32At(buf, 4) == Good(schema, 8) && U32At(buf, 8) == Good(kind, 12)
  {
    hide U32At, Be32;
    var buf := Header(schema, kind) + t;
    U32RoundTrip([], MAGIC, Be32(schema) + Be32(kind) + t);
    assert buf == [] + Be32(MAGIC) + (Be32(schema) + Be32(kind) + t);
    U32RoundTrip(Be32(MAGIC), schema, Be32(kind) + t);
    assert buf == Be32(MAGIC) + Be32(schema) + (Be32(kind) + t);
    U32RoundTrip(Be32(MAGIC) + Be32(schema), kind, t);
  }

  /** An encoded type-12 packet parses to its ADIF, with any bytes behind it. */
  lemma PacketRoundTrip(id: string, adif: string, t: seq<byte>)
    requires Fits(id) && Fits(adif)
    ensures ParseAt(LoggedAdifPacket(id, adif) + t) == Good(LoggedAdif(adif), |LoggedAdifPacket(id, adif)|)
  {
    hide QString, Header, ParseAt, Fits;
    FieldsParse(SCHEMA, QString(id), id, QString(adif), adif, t);
  }

  /** Every proper prefix of an encoded packet is an error. */
  lemma PrefixIsError(id: string, adif: string, p: seq<byte>)
    requires Fits(id) && Fits(adif) && p < LoggedAdifPacket(id, adif)
    ensures ParseAt(p).Bad?
  {
    hide LoggedAdifPacket, ParseAt, Fits;
    var packet := LoggedAdifPacket(id, adif);
    PacketRoundTrip(id, adif, []);
    assert packet + [] == packet;
    assert p + packet[|p|..] == packet;
    if ParseAt(p).Good? {
      ParseExtends(p, packet[|p|..]);
    }
  }

  // ------------------------------------------------------- what the parser accepts

  lemma U32IsBe32(buf: seq<byte>, pos: nat)
    requires pos <= |buf| && U32At(buf, pos).Good?
    ensures buf[pos..pos + 4] == Be32(U32At(buf, pos).value)
  {
    Be32Onto(buf[pos..pos + 4]);
  }

  lemma QStringIsField(buf: seq<byte>, pos: nat)
    requires pos <= |buf| && QStringAt(buf, pos).Good?
    ensures IsQString(buf[pos..QStringAt(buf, pos).pos], QStringAt(buf, pos).value)
  {
    hide Decode, Be32, FromBe32, Encode;
    var end := QStringAt(buf, pos).pos;
    U32IsBe32(buf, pos);
    if AsI32(U32At(buf, pos).value) != -1 {
      DecodedIsEncoded(buf[pos + 4..end]);
      assert buf[pos..end] == buf[pos..pos + 4] + buf[pos + 4..end];
    }
  }

  /** The bytes of a type-12 datagram carrying this ADIF, with anything behind them. */
  ghost predicate CarriesAdif(buf: seq<byte>, adif: string) {
    exists schema: nat, idField: seq<byte>, id: string, adifField: seq<byte>, t: seq<byte> ::
      && schema < U32 && IsQString(idField, id) && IsQString(adifField, adif)
      && buf == Header(schema, MSG_TYPE_LOGGED_ADIF) + idField + adifField + t
  }

  /** The parser yields an ADIF exactly for the datagrams that carry it, whatever the bytes are. */
  lemma ParsesIffCarries(buf: seq<byte>, adif: string)
    ensures (ParseAt(buf).Good? && ParseAt(buf).value == LoggedAdif(adif)) <==> CarriesAdif(buf, adif)
  {
    hide U32At, QStringAt, Be32, IsQString, Header;
    if ParseAt(buf).Good? && ParseAt(buf).value == LoggedAdif(adif) {
      AcceptedCarries(buf, adif);
    }
    if CarriesAdif(buf, adif) {
      var schema: nat, idField: seq<byte>, id: string, adifField: seq<byte>, t: seq<byte> :|
        && schema < U32 && IsQString(idField, id) && IsQString(adifField, adif)
        && buf == Header(schema, MSG_TYPE_LOGGED_ADIF) + idField + adifField + t;
      FieldsParse(schema, idField, id, adifField, adif, t);
    }
  }

  /** A datagram is passed over exactly if it has the magic and a whole header of another type. */
  lemma IgnoredIffOtherType(buf: seq<byte>)
    requires |buf| <= USIZE_MAX
    ensures (ParseAt(buf).Good? && ParseAt(buf).value.Ignored?) <==>
            |buf| >= 12 && buf[..4] == [0xAD, 0xBC, 0xCB, 0xDA] && buf[8..12] != [0, 0, 0, 12]
  {
    WireNumbers();
    hide QStringAt, Be32, FromBe32;
    if |buf| >= 12 {
      Be32RoundTrip(MAGIC);
      Be32RoundTrip(MSG_TYPE_LOGGED_ADIF);
      Be32Onto(buf[0..4]);
      Be32Onto(buf[8..12]);
      assert buf[0..4] == buf[..4];
    }
  }

  lemma AcceptedCarries(buf: seq<byte>, adif: string)
    requires ParseAt(buf).Good? && ParseAt(buf).value == LoggedAdif(adif)
    ensures CarriesAdif(buf, adif)
  {
    hide U32At, QStringAt, Be32, IsQString;
    U32IsBe32(buf, 0);
    U32IsBe32(buf, 4);
    U32IsBe32(buf, 8);
    QStringIsField(buf, 12);
    var p1 := QStringAt(buf, 12).pos;
    QStringIsField(buf, p1);
    var p2 := QStringAt(buf, p1).pos;
    var schema := U32At(buf, 4).value;
    assert buf[..12] == Header(schema, MSG_TYPE_LOGGED_ADIF) by {
      assert buf[..12] == buf[0..4] + buf[4..8] + buf[8..12];
    }
    assert buf == buf[..12] + buf[12..p1] + buf[p1..p2] + buf[p2..];
  }

  // ------------------------------------------------------- the wire, byte by byte

  /** Most significant byte first; lengths are in two's complement. */
  lemma WireNumbers()
    ensures Be32(MAGIC) == [0xAD, 0xBC, 0xCB, 0xDA] && Be32(MSG_TYPE_LOGGED_ADIF) == [0, 0, 0, 12]
    ensures Be32(SCHEMA) == [0, 0, 0, 3] && Be32(U32 - 1) == [0xFF, 0xFF, 0xFF, 0xFF]
    ensures Be32(0x0102_0304) == [1, 2, 3, 4] && FromBe32([1, 2, 3, 4]) == 0x0102_0304
    ensures AsI32(FromBe32([0xFF, 0xFF, 0xFF, 0xFF])) == -1 && AsI32(FromBe32([0xFF, 0xFF, 0xFF, 0xFE])) == -2
    ensures AsI32(FromBe32([0x80, 0, 0, 0])) == -2_147_483_648
    ensures AsI32(FromBe32([0x7F, 0xFF, 0xFF, 0xFF])) == 2_147_483_647
  {
  }

  /** The header of a datagram that carries an ADIF, with any schema version. */
  lemma HeaderBytes(buf: seq<byte>, adif: string)
    requires CarriesAdif(buf, adif)
    ensures |buf| >= 12 && buf[..4] == [0xAD, 0xBC, 0xCB, 0xDA] && buf[8..12] == [0, 0, 0, 12]
  {
    hide IsQString, Be32;
    WireNumbers();
    var schema: nat, idField: seq<byte>, id: string, adifField: seq<byte>, t: seq<byte> :|
      && schema < U32 && IsQString(idField, id) && IsQString(adifField, adif)
      && buf == Header(schema, MSG_TYPE_LOGGED_ADIF) + idField + adifField + t;
    assert buf[..4] == Be32(MAGIC) && buf[8..12] == Be32(MSG_TYPE_LOGGED_ADIF);
  }

  /** A whole packet: an empty id, and the ADIF `A`. */
  lemma SmallPacket()
    ensures Fits("") && Fits("A")
    ensures LoggedAdifPacket("", "A")
         == [0xAD, 0xBC, 0xCB, 0xDA, 0, 0, 0, 3, 0, 0, 0, 12, 0, 0, 0, 0, 0, 0, 0, 1, 0x41]
  {
    WireNumbers();
    assert Encode("A") == [0x41] + [];
    assert Be32(0) == [0, 0, 0, 0] && Be32(1) == [0, 0, 0, 1];
  }

  /** What is wrong with a datagram that is refused at its header, or at the length of a string. */
  lemma Refusals(buf: seq<byte>)
    requires |buf| <= USIZE_MAX
    ensures |buf| < 4 ==> ParseAt(buf) == Bad(Truncated)
    ensures |buf| >= 4 && buf[..4] != [0xAD, 0xBC, 0xCB, 0xDA] ==>
              ParseAt(buf) == Bad(BadMagic(FromBe32(buf[..4])))
    ensures 4 <= |buf| < 12 && buf[..4] == [0xAD, 0xBC, 0xCB, 0xDA] ==> ParseAt(buf) == Bad(Truncated)
    ensures |buf| >= 16 && (buf[12..16] == [0xFF, 0xFF, 0xFF, 0xFF] || buf[12..16] == [0, 0, 0, 0]) ==>
              QStringAt(buf, 12) == Good("", 16)
    ensures |buf| >= 16 && buf[12] >= 0x80 && buf[12..16] != [0xFF, 0xFF, 0xFF, 0xFF] ==>
              QStringAt(buf, 12) == Bad(InvalidLength(AsI32(FromBe32(buf[12..16]))))
  {
    WireNumbers();
    if |buf| >= 4 {
      Be32Onto(buf[..4]);
      assert buf[0..4] == buf[..4];
    }
    if |buf| >= 16 {
      Be32Onto(buf[12..16]);
      LengthSign(buf[12..16]);
      NothingIsEmpty();
      assert buf[16..16] == [];
    }
  }

  /** A field of which the end is no 64-bit position, or behind the datagram. */
  lemma FieldsOutside(buf: seq<byte>, pos: nat, n: nat)
    requires pos <= |buf|
    ensures pos + n > 0xFFFF_FFFF_FFFF_FFFF ==> TakeAt(buf, pos, n) == Bad(LengthOverflow)
    ensures |buf| < pos + n <= 0xFFFF_FFFF_FFFF_FFFF ==> TakeAt(buf, pos, n) == Bad(Truncated)
  {
  }

  lemma LengthSign(bs: seq<byte>)
    requires |bs| == 4
    ensures AsI32(FromBe32(bs)) < 0 <==> bs[0] >= 0x80
    ensures AsI32(FromBe32(bs)) == -1 <==> bs == [0xFF, 0xFF, 0xFF, 0xFF]
    ensures FromBe32([0, 0, 0, 0]) == 0
  {
    Be32Onto(bs);
    WireNumbers();
  }
}
