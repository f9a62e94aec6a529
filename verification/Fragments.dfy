/** The 12-byte header of a DTLS handshake fragment (section 4.2.2 of RFC 6347) and its parser. */
module Fragments {
  import opened Basics
  import opened Words

  const HEADER_LENGTH: nat := 12
  const MAX_U16: nat := 0x1_0000
  const MAX_U24: nat := 0x100_0000

  /** The longest flight, and so the number of messages a receiver keeps. */
  const MAX_FLIGHT: nat := 7

  datatype Header = Header(typ: Byte, msgLen: nat, seqNo: nat, off: nat, len: nat)

  /** The header of a message sent as one single fragment. */
  function Whole(typ: Byte, seqNo: nat, msgLen: nat): Header {
    Header(typ, msgLen, seqNo, 0, msgLen)
  }

  predicate Encodable(h: Header) {
    h.msgLen < MAX_U24 && h.seqNo < MAX_U16 && h.off < MAX_U24 && h.len < MAX_U24
  }

  function U16(n: nat): seq<Byte>
    requires n < MAX_U16
  {
    [n / 256, n % 256]
  }

  function U24(n: nat): seq<Byte>
    requires n < MAX_U24
  {
    [n / 65536, n / 256 % 256, n % 256]
  }

  function GetU16(s: seq<Byte>, i: nat): nat
    requires i + 2 <= |s|
  {
    var a: int, b: int := s[i], s[i + 1];
    a * 256 + b
  }

  function GetU24(s: seq<Byte>, i: nat): nat
    requires i + 3 <= |s|
  {
    var a: int, b: int, c: int := s[i], s[i + 1], s[i + 2];
    a * 65536 + b * 256 + c
  }

  function Serialize(h: Header): (s: seq<Byte>)
    requires Encodable(h)
    ensures |s| == HEADER_LENGTH
  {
    [h.typ] + U24(h.msgLen) + U16(h.seqNo) + U24(h.off) + U24(h.len)
  }

  datatype Parsed = Parsed(header: Header, body: seq<Byte>, rest: seq<Byte>)

  function ParseHeader(s: seq<Byte>): Header
    requires |s| >= HEADER_LENGTH
  {
    Header(s[0], GetU24(s, 1), GetU16(s, 4), GetU24(s, 6), GetU24(s, 9))
  }

  /** Takes one fragment off the front of a record. */
  function Parse(s: seq<Byte>): (r: Option<Parsed>)
    ensures r.Some? ==> |r.value.rest| < |s| && |r.value.body| == r.value.header.len
  {
    if |s| < HEADER_LENGTH then None
    else
      var h := ParseHeader(s);
      if |s| - HEADER_LENGTH < h.len then None
      else Some(Parsed(h, s[HEADER_LENGTH..HEADER_LENGTH + h.len], s[HEADER_LENGTH + h.len..]))
  }

  lemma HeaderRoundTrip(h: Header, tail: seq<Byte>)
    requires Encodable(h)
    ensures ParseHeader(Serialize(h) + tail) == h
  {
    var s := Serialize(h) + tail;
    assert s[1] == h.msgLen / 65536 && s[2] == h.msgLen / 256 % 256 && s[3] == h.msgLen % 256;
    assert s[4] == h.seqNo / 256 && s[5] == h.seqNo % 256;
    assert s[6] == h.off / 65536 && s[7] == h.off / 256 % 256 && s[8] == h.off % 256;
    assert s[9] == h.len / 65536 && s[10] == h.len / 256 % 256 && s[11] == h.len % 256;
  }

  /** Which bytes are what, in the order of section 4.2.2 of RFC 6347 and with the high byte first */
  lemma HeaderLayout(h: Header)
    requires Encodable(h)
    ensures var s := Serialize(h);
            && s[0] == h.typ && BigEndian(s[1..4]) == h.msgLen && BigEndian(s[4..6]) == h.seqNo
            && BigEndian(s[6..9]) == h.off && BigEndian(s[9..12]) == h.len
  {
    var s := Serialize(h);
    ThreeBytes(h.msgLen);
    ThreeBytes(h.off);
    ThreeBytes(h.len);
    assert s[1..4] == U24(h.msgLen) && s[4..6] == U16(h.seqNo) && s[6..9] == U24(h.off) && s[9..12] == U24(h.len);
    var two := U16(h.seqNo);
    assert two[..1] == [two[0]] && two[..1][..0] == [];
    assert BigEndian(two[..1]) == two[0];
  }

  lemma ThreeBytes(n: nat)
    requires n < MAX_U24
    ensures BigEndian(U24(n)) == n
  {
    var s := U24(n);
    assert s[..2][..1] == [s[0]] && s[..1][..0] == [] && [s[0]][..0] == [];
    assert BigEndian([s[0]]) == s[0];
    assert BigEndian(s[..2]) == BigEndian([s[0]]) * 256 + s[1];
    assert n / 256 == (n / 65536) * 256 + n / 256 % 256;
  }

  /** Parsing undoes serializing, whatever follows in the record. */
  lemma ParseSerialize(h: Header, body: seq<Byte>, rest: seq<Byte>)
    requires Encodable(h) && |body| == h.len
    ensures Parse(Serialize(h) + body + rest) == Some(Parsed(h, body, rest))
  {
    var s := Serialize(h) + body + rest;
    assert s == Serialize(h) + (body + rest);
    HeaderRoundTrip(h, body + rest);
    assert s[HEADER_LENGTH..] == body + rest;
    assert s[HEADER_LENGTH..HEADER_LENGTH + h.len] == body;
    assert s[HEADER_LENGTH + h.len..] == rest;
  }

  /** Serializing undoes parsing: a fragment has one encoding only. */
  lemma {:induction false} SerializeParse(s: seq<Byte>)
    requires Parse(s).Some?
    ensures var p := Parse(s).value;
            Encodable(p.header) && Serialize(p.header) + p.body + p.rest == s
  {
    var h := ParseHeader(s);
    U24OfGet(s, 1);
    U16OfGet(s, 4);
    U24OfGet(s, 6);
    U24OfGet(s, 9);
    assert Serialize(h) == [s[0]] + s[1..4] + s[4..6] + s[6..9] + s[9..12] == s[..HEADER_LENGTH];
  }

  lemma U24OfGet(s: seq<Byte>, i: nat)
    requires i + 3 <= |s|
    ensures GetU24(s, i) < MAX_U24 && U24(GetU24(s, i)) == s[i..i + 3]
  {
    var n := GetU24(s, i);
    assert n / 256 == s[i] as int * 256 + s[i + 1] as int;
  }

  lemma U16OfGet(s: seq<Byte>, i: nat)
    requires i + 2 <= |s|
    ensures GetU16(s, i) < MAX_U16 && U16(GetU16(s, i)) == s[i..i + 2]
  {
  }
}
