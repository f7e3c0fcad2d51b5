/** Reading the reflexive address out of a STUN Binding Response (RFC 5389). */
module Stun {
  import opened Types
  import opened Text

  type Bytes = seq<Byte>

  const HEADER_LEN: nat := 20
  const XOR_MAPPED_ADDRESS: U16 := 0x0020
  const BINDING_RESPONSE: U16 := 0x0101
  const COOKIE_HIGH: U16 := 0x2112
  const COOKIE: Bytes := [0x21, 0x12, 0xA4, 0x42]

  /** Indexing past the end of a slice stops the task that does it. */
  datatype Reply = Address(ip: string, port: U16) | Invalid(reason: string) | OutOfBounds

  /** Exclusive or, bit by bit. */
  function Xor(m: nat, n: nat): nat {
    if m == 0 && n == 0 then 0 else 2 * Xor(m / 2, n / 2) + if m % 2 == n % 2 then 0 else 1
  }

  lemma {:induction false} XorBound(m: nat, n: nat, bits: nat)
    requires m < Pow(2, bits) && n < Pow(2, bits)
    ensures Xor(m, n) < Pow(2, bits)
  {
    if m != 0 || n != 0 {
      XorBound(m / 2, n / 2, bits - 1);
    }
  }

  function XorByte(m: Byte, n: Byte): Byte {
    assert Pow(2, 8) == 256 by {
      assert Pow(2, 4) == 16;
    }
    XorBound(m, n, 8);
    Xor(m, n)
  }

  function XorU16(m: U16, n: U16): U16 {
    assert Pow(2, 16) == 0x1_0000 by {
      assert Pow(2, 4) == 16 && Pow(2, 8) == 256 && Pow(2, 12) == 4096;
    }
    XorBound(m, n, 16);
    Xor(m, n)
  }

  function FromBytes(hi: Byte, lo: Byte): U16 {
    hi * 256 + lo
  }

  /** Attributes are padded to whole words of four bytes. */
  function Padded(length: int): nat {
    if length <= 0 then 0 else 4 + Padded(length - 4)
  }

  lemma {:induction false} PaddedIs(length: nat)
    ensures Padded(length) == (length + 3) / 4 * 4
  {
    if length > 4 {
      PaddedIs(length - 4);
    }
  }

  function TypeAt(data: Bytes, offset: nat): U16
    requires offset + 4 <= |data|
  {
    FromBytes(data[offset], data[offset + 1])
  }

  function LengthAt(data: Bytes, offset: nat): nat
    requires offset + 4 <= |data|
  {
    FromBytes(data[offset + 2], data[offset + 3])
  }

  function NextAttribute(data: Bytes, offset: nat): nat
    requires offset + 4 <= |data|
  {
    offset + 4 + Padded(LengthAt(data, offset))
  }

  function Dotted(a: Byte, b: Byte, c: Byte, d: Byte): string {
    Decimal(a) + "." + Decimal(b) + "." + Decimal(c) + "." + Decimal(d)
  }

  /** The value of the attribute is data; only its announced length is checked. */
  function ParseXorAddress(data: Bytes, length: nat): Reply {
    if length < 4 || |data| < length then Invalid("Invalid XOR address length")
    else if data[0] != 0x01 then Invalid("Only IPv4 is supported")
    else if |data| < 8 then OutOfBounds
    else
      Address(Dotted(XorByte(data[4], COOKIE[0]), XorByte(data[5], COOKIE[1]),
                     XorByte(data[6], COOKIE[2]), XorByte(data[7], COOKIE[3])),
              XorU16(FromBytes(data[2], data[3]), COOKIE_HIGH))
  }

  /** The first attribute of the wanted type from a boundary on. */
  function FindAddress(data: Bytes, offset: nat): (found: Option<nat>)
    ensures found.Some? ==> offset <= found.value && found.value + 4 < |data|
    decreases |data| - offset
  {
    if offset + 4 >= |data| then None
    else if TypeAt(data, offset) == XOR_MAPPED_ADDRESS then Some(offset)
    else FindAddress(data, NextAttribute(data, offset))
  }

  function Parse(data: Bytes): Reply {
    if |data| < HEADER_LEN + 4 then Invalid("STUN response too short")
    else if FromBytes(data[0], data[1]) != BINDING_RESPONSE then Invalid("Expected Binding Response")
    else if data[4..8] != COOKIE then Invalid("Invalid magic cookie")
    else
      match FindAddress(data, HEADER_LEN)
      case None => Invalid("XOR-MAPPED-ADDRESS not found")
      case Some(offset) => ParseXorAddress(data[offset + 4..], LengthAt(data, offset))
  }

  lemma PassOver(data: Bytes, offset: nat, kind: U16, length: nat)
    requires offset + 4 < |data| && TypeAt(data, offset) == kind != XOR_MAPPED_ADDRESS
    requires LengthAt(data, offset) == length
    ensures FindAddress(data, offset) == FindAddress(data, offset + 4 + Padded(length))
  {
  }

  lemma PassOverPadded(data: Bytes, offset: nat, kind: U16, length: nat)
    requires offset + 4 < |data| && TypeAt(data, offset) == kind != XOR_MAPPED_ADDRESS
    requires LengthAt(data, offset) == length
    ensures FindAddress(data, offset) == FindAddress(data, offset + 4 + (length + 3) / 4 * 4)
  {
    PassOver(data, offset, kind, length);
    PaddedIs(length);
  }

  method ParseXorMappedAddress(data: Bytes) returns (reply: Reply)
    ensures reply == Parse(data)
  {
    if |data| < HEADER_LEN + 4 {
      return Invalid("STUN response too short");
    }
    if FromBytes(data[0], data[1]) != BINDING_RESPONSE {
      return Invalid("Expected Binding Response");
    }
    if data[4..8] != COOKIE {
      return Invalid("Invalid magic cookie");
    }
    var offset := HEADER_LEN;
    while offset < |data| - 4
      invariant FindAddress(data, HEADER_LEN) == FindAddress(data, offset)
      decreases |data| - offset
    {
      var kind := FromBytes(data[offset], data[offset + 1]);
      var length: nat := FromBytes(data[offset + 2], data[offset + 3]);
      if kind == XOR_MAPPED_ADDRESS {
        return ParseXorAddress(data[offset + 4..], length);
      }
      PassOverPadded(data, offset, kind, length);
      offset := offset + 4 + (length + 3) / 4 * 4;
    }
    reply := Invalid("XOR-MAPPED-ADDRESS not found");
  }

  // ---------- what the walk visits ----------

  /**
   * The path of a walk from start to end: every offset on it holds a readable header of
   * another type, and the next attribute begins after its padded value.
   */
  predicate PassesOver(data: Bytes, path: seq<nat>, start: nat, end: nat) {
    if path == [] then start == end
    else
      && path[0] == start && start + 4 < |data| && TypeAt(data, start) != XOR_MAPPED_ADDRESS
      && PassesOver(data, path[1..], NextAttribute(data, start), end)
  }

  lemma NextIsAligned(offset: nat, length: nat)
    ensures (offset + 4 + Padded(length)) % 4 == offset % 4
  {
    PaddedIs(length);
  }

  lemma {:induction false} PassesAligned(data: Bytes, path: seq<nat>, start: nat, end: nat)
    requires PassesOver(data, path, start, end)
    ensures end % 4 == start % 4 && forall i | 0 <= i < |path| :: path[i] % 4 == start % 4
  {
    if path != [] {
      var next := NextAttribute(data, start);
      PassesAligned(data, path[1..], next, end);
      NextIsAligned(start, LengthAt(data, start));
      forall i | 0 <= i < |path| ensures path[i] % 4 == start % 4 {
        if i > 0 { assert path[i] == path[1..][i - 1]; }
      }
    }
  }

  lemma {:induction false} FindAddressPath(data: Bytes, start: nat) returns (path: seq<nat>, end: nat)
    ensures PassesOver(data, path, start, end)
    ensures match FindAddress(data, start)
            case Some(found) => found == end && TypeAt(data, end) == XOR_MAPPED_ADDRESS
            case None => end + 4 >= |data|
    decreases |data| - start
  {
    if start + 4 >= |data| || TypeAt(data, start) == XOR_MAPPED_ADDRESS {
      path, end := [], start;
    } else {
      var rest;
      rest, end := FindAddressPath(data, NextAttribute(data, start));
      path := [start] + rest;
      assert path[1..] == rest;
    }
  }

  /**
   * The search passes over whole attributes of other types, at offsets a multiple of four
   * apart, and stops at the first address attribute or where no header with a value is left.
   */
  lemma FindAddressPassesOver(data: Bytes, start: nat)
    ensures exists path: seq<nat>, end: nat ::
              && PassesOver(data, path, start, end)
              && end % 4 == start % 4 && (forall i | 0 <= i < |path| :: path[i] % 4 == start % 4)
              && match FindAddress(data, start)
                 case Some(found) => found == end && TypeAt(data, end) == XOR_MAPPED_ADDRESS
                 case None => end + 4 >= |data|
  {
    var path, end := FindAddressPath(data, start);
    PassesAligned(data, path, start, end);
  }

  // ---------- encoded responses ----------

  datatype Attribute = Attribute(kind: U16, length: U16, value: Bytes, padding: Bytes)

  predicate WellFormed(a: Attribute) {
    |a.value| == a.length && |a.value| + |a.padding| == Padded(|a.value|)
  }

  /** Attributes a parser has to skip to find the address. */
  predicate Others(attributes: seq<Attribute>) {
    attributes != [] ==>
      WellFormed(attributes[0]) && attributes[0].kind != XOR_MAPPED_ADDRESS && Others(attributes[1..])
  }

  function Be16(n: U16): Bytes {
    [n / 256, n % 256]
  }

  function Head(a: Attribute): Bytes {
    Be16(a.kind) + Be16(a.length)
  }

  function Encode(a: Attribute): Bytes {
    Head(a) + (a.value + a.padding)
  }

  function EncodeAll(attributes: seq<Attribute>): Bytes {
    if attributes == [] then [] else Encode(attributes[0]) + EncodeAll(attributes[1..])
  }

  /** Section 15.2: a leading byte, the family, the port and the address XORed with the cookie. */
  function XorMappedAddress(lead: Byte, family: Byte, port: U16, a: Byte, b: Byte, c: Byte, d: Byte): Attribute {
    var p := XorU16(port, COOKIE_HIGH);
    Attribute(XOR_MAPPED_ADDRESS, 8,
              [lead, family, p / 256, p % 256,
               XorByte(a, COOKIE[0]), XorByte(b, COOKIE[1]), XorByte(c, COOKIE[2]), XorByte(d, COOKIE[3])], [])
  }

  /** Section 6: type, length, magic cookie and transaction id. */
  function Header(length: U16, transaction: Bytes): Bytes {
    Be16(BINDING_RESPONSE) + Be16(length) + COOKIE + transaction
  }

  lemma Be16RoundTrip(n: U16)
    ensures FromBytes(Be16(n)[0], Be16(n)[1]) == n
  {
  }

  lemma HeadReadsBack(a: Attribute)
    ensures |Head(a)| == 4
    ensures FromBytes(Head(a)[0], Head(a)[1]) == a.kind && FromBytes(Head(a)[2], Head(a)[3]) == a.length
  {
    Be16RoundTrip(a.kind);
    Be16RoundTrip(a.length);
  }

  /** These bytes stand at this offset. */
  predicate At(data: Bytes, offset: nat, e: Bytes) {
    offset + |e| <= |data| && forall i | 0 <= i < |e| :: data[offset + i] == e[i]
  }

  lemma AtParts(data: Bytes, offset: nat, first: Bytes, second: Bytes)
    requires At(data, offset, first + second)
    ensures At(data, offset, first) && At(data, offset + |first|, second)
  {
    assert forall i | 0 <= i < |first| :: (first + second)[i] == first[i];
    forall i | 0 <= i < |second| ensures data[offset + |first| + i] == second[i] {
      assert (first + second)[|first| + i] == second[i];
    }
  }

  /** An encoded attribute reads back wherever it stands. */
  lemma ReadsBack(data: Bytes, offset: nat, a: Attribute)
    requires WellFormed(a) && At(data, offset, Encode(a))
    ensures TypeAt(data, offset) == a.kind && LengthAt(data, offset) == |a.value|
    ensures At(data, offset + 4, a.value)
  {
    HeadReadsBack(a);
    AtParts(data, offset, Head(a), a.value + a.padding);
    AtParts(data, offset + 4, a.value, a.padding);
    assert data[offset + 0] == Head(a)[0] && data[offset + 1] == Head(a)[1];
    assert data[offset + 2] == Head(a)[2] && data[offset + 3] == Head(a)[3];
  }

  /** The search skips any number of whole attributes of other types. */
  lemma {:induction false} FindAddressSkips(data: Bytes, offset: nat, attributes: seq<Attribute>)
    requires At(data, offset, EncodeAll(attributes)) && offset + |EncodeAll(attributes)| < |data|
    requires Others(attributes)
    ensures FindAddress(data, offset) == FindAddress(data, offset + |EncodeAll(attributes)|)
    decreases |attributes|
  {
    if attributes != [] {
      var a := attributes[0];
      AtParts(data, offset, Encode(a), EncodeAll(attributes[1..]));
      ReadsBack(data, offset, a);
      HeadReadsBack(a);
      PassOver(data, offset, a.kind, |a.value|);
      FindAddressSkips(data, offset + |Encode(a)|, attributes[1..]);
    }
  }

  lemma HalfOf(half: nat, bit: nat)
    requires bit < 2
    ensures (2 * half + bit) / 2 == half && (2 * half + bit) % 2 == bit
  {
  }

  lemma {:induction false} XorTwice(m: nat, n: nat)
    ensures Xor(Xor(m, n), n) == m
  {
    if m != 0 || n != 0 {
      XorTwice(m / 2, n / 2);
      HalfOf(Xor(m / 2, n / 2), if m % 2 == n % 2 then 0 else 1);
    }
  }

  lemma XorHalves(m: nat, n: nat)
    ensures Xor(m, n) / 2 == Xor(m / 2, n / 2)
    ensures Xor(m, n) % 2 == if m % 2 == n % 2 then 0 else 1
  {
    if m != 0 || n != 0 {
      HalfOf(Xor(m / 2, n / 2), if m % 2 == n % 2 then 0 else 1);
    }
  }

  /** Each bit of an exclusive or is set exactly when the two bits differ. */
  lemma {:induction false} XorBits(m: nat, n: nat, i: nat)
    ensures Xor(m, n) / Pow(2, i) % 2 == if m / Pow(2, i) % 2 == n / Pow(2, i) % 2 then 0 else 1
    decreases i
  {
    XorHalves(m, n);
    DigitOfStep(m, 2, i);
    DigitOfStep(n, 2, i);
    DigitOfStep(Xor(m, n), 2, i);
    if i > 0 {
      XorBits(m / 2, n / 2, i - 1);
    }
  }

  lemma Decodes(data: Bytes, port: U16, a: Byte, b: Byte, c: Byte, d: Byte)
    requires |data| >= 8 && data[2] == port / 256 && data[3] == port % 256
    requires data[4] == a && data[5] == b && data[6] == c && data[7] == d
    ensures ParseXorAddress(data, 8) ==
            if data[0] != 0x01 then Invalid("Only IPv4 is supported")
            else Address(Dotted(XorByte(a, COOKIE[0]), XorByte(b, COOKIE[1]),
                                XorByte(c, COOKIE[2]), XorByte(d, COOKIE[3])),
                         XorU16(port, COOKIE_HIGH))
  {
    Be16RoundTrip(port);
  }

  lemma EightAt(data: Bytes, value: Bytes)
    requires At(data, 0, value) && |value| == 8
    ensures |data| >= 8 && data[0] == value[0] && data[2] == value[2] && data[3] == value[3]
    ensures data[4] == value[4] && data[5] == value[5] && data[6] == value[6] && data[7] == value[7]
  {
    assert forall i | 0 <= i < 8 :: data[0 + i] == value[i];
  }

  lemma XorByteTwice(m: Byte, n: Byte)
    ensures XorByte(XorByte(m, n), n) == m
  {
    XorTwice(m, n);
  }

  lemma XorU16Twice(m: U16, n: U16)
    ensures XorU16(XorU16(m, n), n) == m
  {
    XorTwice(m, n);
  }

  /** Decoding the value of an XOR-MAPPED-ADDRESS depends on its leading byte, not its family. */
  lemma ValueReadsBack(data: Bytes, lead: Byte, family: Byte, port: U16, a: Byte, b: Byte, c: Byte, d: Byte)
    requires At(data, 0, XorMappedAddress(lead, family, port, a, b, c, d).value)
    ensures ParseXorAddress(data, 8) ==
            if lead == 0x01 then Address(Dotted(a, b, c, d), port) else Invalid("Only IPv4 is supported")
  {
    EightAt(data, XorMappedAddress(lead, family, port, a, b, c, d).value);
    Decodes(data, XorU16(port, COOKIE_HIGH),
            XorByte(a, COOKIE[0]), XorByte(b, COOKIE[1]), XorByte(c, COOKIE[2]), XorByte(d, COOKIE[3]));
    XorU16Twice(port, COOKIE_HIGH);
    XorByteTwice(a, COOKIE[0]);
    XorByteTwice(b, COOKIE[1]);
    XorByteTwice(c, COOKIE[2]);
    XorByteTwice(d, COOKIE[3]);
  }

  lemma TailAt(data: Bytes, offset: nat, e: Bytes)
    requires At(data, offset, e)
    ensures At(data[offset..], 0, e)
  {
  }

  /** A whole response: other attributes, the address, and anything after it. */
  function Response(length: U16, transaction: Bytes, others: seq<Attribute>, address: Attribute, rest: Bytes): Bytes {
    Header(length, transaction) + (EncodeAll(others) + (Encode(address) + rest))
  }

  lemma ResponseParts(length: U16, transaction: Bytes, others: seq<Attribute>, address: Attribute, rest: Bytes)
    requires |transaction| == 12
    ensures var data := Response(length, transaction, others, address, rest);
            && |Header(length, transaction)| == HEADER_LEN
            && At(data, 0, Header(length, transaction))
            && At(data, HEADER_LEN, EncodeAll(others))
            && At(data, HEADER_LEN + |EncodeAll(others)|, Encode(address))
  {
    var data := Response(length, transaction, others, address, rest);
    var header := Header(length, transaction);
    assert At(data, 0, header + (EncodeAll(others) + (Encode(address) + rest)));
    AtParts(data, 0, header, EncodeAll(others) + (Encode(address) + rest));
    AtParts(data, HEADER_LEN, EncodeAll(others), Encode(address) + rest);
    AtParts(data, HEADER_LEN + |EncodeAll(others)|, Encode(address), rest);
  }

  /** A well-formed header leaves the answer to the attributes behind it. */
  lemma HeaderPasses(length: U16, transaction: Bytes, data: Bytes)
    requires |transaction| == 12 && At(data, 0, Header(length, transaction)) && |data| >= HEADER_LEN + 4
    ensures FindAddress(data, HEADER_LEN).Some? ==>
              Parse(data) == ParseXorAddress(data[FindAddress(data, HEADER_LEN).value + 4..],
                                             LengthAt(data, FindAddress(data, HEADER_LEN).value))
  {
    var header := Header(length, transaction);
    assert header[0] == 1 && header[1] == 1 && header[4..8] == COOKIE;
    assert data[0 + 0] == header[0] && data[0 + 1] == header[1];
    assert data[0 + 4] == header[4] && data[0 + 5] == header[5] && data[0 + 6] == header[6] && data[0 + 7] == header[7];
    assert data[4..8] == COOKIE;
  }

  /** The search stops at the address attribute behind any number of others. */
  lemma SearchStops(data: Bytes, others: seq<Attribute>, address: Attribute)
    requires Others(others) && WellFormed(address) && address.kind == XOR_MAPPED_ADDRESS && |address.value| > 0
    requires At(data, HEADER_LEN, EncodeAll(others)) && At(data, HEADER_LEN + |EncodeAll(others)|, Encode(address))
    ensures var offset := HEADER_LEN + |EncodeAll(others)|;
            && offset + 4 < |data| && FindAddress(data, HEADER_LEN) == Some(offset)
            && LengthAt(data, offset) == |address.value| && At(data, offset + 4, address.value)
  {
    HeadReadsBack(address);
    FindAddressSkips(data, HEADER_LEN, others);
    ReadsBack(data, HEADER_LEN + |EncodeAll(others)|, address);
  }

  /** The parser decodes the value of the address attribute, wherever it comes. */
  lemma AddressIsFound(length: U16, transaction: Bytes, others: seq<Attribute>, address: Attribute, rest: Bytes)
    requires |transaction| == 12 && Others(others)
    requires WellFormed(address) && address.kind == XOR_MAPPED_ADDRESS && |address.value| > 0
    ensures var data := Response(length, transaction, others, address, rest);
            var offset := HEADER_LEN + |EncodeAll(others)|;
            && offset + 4 < |data|
            && At(data[offset + 4..], 0, address.value)
            && Parse(data) == ParseXorAddress(data[offset + 4..], |address.value|)
  {
    var data := Response(length, transaction, others, address, rest);
    var offset := HEADER_LEN + |EncodeAll(others)|;
    ResponseParts(length, transaction, others, address, rest);
    SearchStops(data, others, address);
    HeaderPasses(length, transaction, data);
    TailAt(data, offset + 4, address.value);
  }

  /**
   * Of every Binding Response the parser recovers the encoded address and port exactly when
   * the attribute's leading byte is 1. RFC 5389 puts the family in the second byte and gives
   * the first no meaning, so the family byte written here plays no part.
   */
  lemma ResponseReadsBackIffLeadIsOne(
      length: U16, transaction: Bytes, others: seq<Attribute>, lead: Byte, family: Byte, port: U16,
      a: Byte, b: Byte, c: Byte, d: Byte, rest: Bytes)
    requires |transaction| == 12 && Others(others)
    ensures Parse(Response(length, transaction, others, XorMappedAddress(lead, family, port, a, b, c, d), rest)) ==
            if lead == 0x01 then Address(Dotted(a, b, c, d), port) else Invalid("Only IPv4 is supported")
  {
    var address := XorMappedAddress(lead, family, port, a, b, c, d);
    var offset := HEADER_LEN + |EncodeAll(others)|;
    var data := Response(length, transaction, others, address, rest);
    AddressIsFound(length, transaction, others, address, rest);
    ValueReadsBack(data[offset + 4..], lead, family, port, a, b, c, d);
  }

  /** So is refused an address with a zero leading byte, as section 15.1 has it for MAPPED-ADDRESS. */
  lemma ZeroLeadIsRefused(
      length: U16, transaction: Bytes, others: seq<Attribute>, port: U16,
      a: Byte, b: Byte, c: Byte, d: Byte, rest: Bytes)
    requires |transaction| == 12 && Others(others)
    ensures Parse(Response(length, transaction, others, XorMappedAddress(0x00, 0x01, port, a, b, c, d), rest)) ==
            Invalid("Only IPv4 is supported")
  {
    ResponseReadsBackIffLeadIsOne(length, transaction, others, 0x00, 0x01, port, a, b, c, d, rest);
  }

  /** A response for 192.0.2.1 and port 32853, with a 1 where the parser looks for the family. */
  const Example: Bytes := [
    0x01, 0x01, 0x00, 0x0C, 0x21, 0x12, 0xA4, 0x42,
    0x00, 0x00, 0x00, 0x00, 0x00, 0x00, 0x00, 0x00, 0x00, 0x00, 0x00, 0x00,
    0x00, 0x20, 0x00, 0x08,
    0x01, 0x01, 0xA1, 0x47, 0xE1, 0x12, 0xA6, 0x43
  ]

  lemma ExampleBytes()
    ensures Xor(0xe1, 0x21) == 0xc0
    ensures Xor(0x12, 0x12) == 0x0
    ensures Xor(0xa6, 0xa4) == 0x2
    ensures Xor(0x43, 0x42) == 0x1
  {
    assert Xor(0x7, 0x1) == 0x6;
    assert Xor(0xe, 0x2) == 0xc;
    assert Xor(0x1c, 0x4) == 0x18;
    assert Xor(0x38, 0x8) == 0x30;
    assert Xor(0x70, 0x10) == 0x60;
    assert Xor(0xe1, 0x21) == 0xc0;
    assert Xor(0x4, 0x4) == 0x0;
    assert Xor(0x9, 0x9) == 0x0;
    assert Xor(0x12, 0x12) == 0x0;
    assert Xor(0x5, 0x5) == 0x0;
    assert Xor(0xa, 0xa) == 0x0;
    assert Xor(0x14, 0x14) == 0x0;
    assert Xor(0x29, 0x29) == 0x0;
    assert Xor(0x53, 0x52) == 0x1;
    assert Xor(0xa6, 0xa4) == 0x2;
    assert Xor(0x4, 0x4) == 0x0;
    assert Xor(0x8, 0x8) == 0x0;
    assert Xor(0x10, 0x10) == 0x0;
    assert Xor(0x21, 0x21) == 0x0;
    assert Xor(0x43, 0x42) == 0x1;
  }

  lemma ExamplePort()
    ensures Xor(0xa147, 0x2112) == 0x8055
  {
    assert Xor(0x5, 0x1) == 0x4;
    assert Xor(0xa, 0x2) == 0x8;
    assert Xor(0x14, 0x4) == 0x10;
    assert Xor(0x28, 0x8) == 0x20;
    assert Xor(0x50, 0x10) == 0x40;
    assert Xor(0xa1, 0x21) == 0x80;
    assert Xor(0x142, 0x42) == 0x100;
    assert Xor(0x285, 0x84) == 0x201;
    assert Xor(0x50a, 0x108) == 0x402;
    assert Xor(0xa14, 0x211) == 0x805;
    assert Xor(0x1428, 0x422) == 0x100a;
    assert Xor(0x2851, 0x844) == 0x2015;
    assert Xor(0x50a3, 0x1089) == 0x402a;
    assert Xor(0xa147, 0x2112) == 0x8055;
  }

  lemma ExampleText()
    ensures Dotted(192, 0, 2, 1) == "192.0.2.1"
  {
    DecimalSnoc(0);
    DecimalSnoc(1);
    DecimalSnoc(2);
    DecimalAppend(1, 9);
    DecimalAppend(19, 2);
  }

  lemma ExampleHeader()
    ensures Header(12, Example[8..20]) == Example[..20]
  {
    assert Be16(BINDING_RESPONSE) == [0x01, 0x01] && Be16(12) == [0x00, 0x0C];
    assert Example[..8] == [0x01, 0x01, 0x00, 0x0C, 0x21, 0x12, 0xA4, 0x42];
    assert Example[..20] == Example[..8] + Example[8..20];
  }

  lemma ExampleAttribute()
    ensures Encode(Attribute(XOR_MAPPED_ADDRESS, 8, Example[24..], [])) == Example[20..]
  {
    assert Be16(XOR_MAPPED_ADDRESS) == [0x00, 0x20] && Be16(8) == [0x00, 0x08];
    assert Example[20..24] == [0x00, 0x20, 0x00, 0x08];
    assert Example[20..] == Example[20..24] + Example[24..];
  }

  lemma ExampleIsResponse()
    ensures Example ==
            Response(12, Example[8..20], [], Attribute(XOR_MAPPED_ADDRESS, 8, Example[24..], []), [])
  {
    ExampleHeader();
    ExampleAttribute();
    assert EncodeAll([]) == [];
    assert Example == Example[..20] + ([] + (Example[20..] + []));
  }

  lemma ExampleValue(data: Bytes)
    requires At(data, 0, Example[24..])
    ensures ParseXorAddress(data, 8) == Address("192.0.2.1", 32853)
  {
    EightAt(data, Example[24..]);
    ExampleBytes();
    ExamplePort();
    ExampleText();
  }

  lemma ExampleIsRead()
    ensures Parse(Example) == Address("192.0.2.1", 32853)
  {
    var address := Attribute(XOR_MAPPED_ADDRESS, 8, Example[24..], []);
    ExampleIsResponse();
    AddressIsFound(12, Example[8..20], [], address, []);
    ExampleValue(Example[24..]);
  }

  /** What the decoder refuses; of the rest it reads the first eight bytes, if there are as many. */
  lemma DecodingRefusals(data: Bytes, length: nat)
    ensures ParseXorAddress(data, length) == Invalid("Invalid XOR address length") <==> length < 4 || |data| < length
    ensures ParseXorAddress(data, length) == Invalid("Only IPv4 is supported") <==>
              4 <= length <= |data| && data[0] != 0x01
    ensures ParseXorAddress(data, length).Address? <==> 4 <= length <= |data| && data[0] == 0x01 && |data| >= 8
    ensures ParseXorAddress(data, length).Address? ==> ParseXorAddress(data, length) == ParseXorAddress(data, 8)
  {
  }

  /** What is refused before any attribute is looked at, and what after. */
  lemma RefusalsAre(data: Bytes)
    ensures Parse(data) == Invalid("STUN response too short") <==> |data| < 24
    ensures Parse(data) == Invalid("Expected Binding Response") <==>
              |data| >= 24 && !(data[0] == 0x01 && data[1] == 0x01)
    ensures Parse(data) == Invalid("Invalid magic cookie") <==>
              |data| >= 24 && data[0] == 0x01 && data[1] == 0x01 && data[4..8] != [0x21, 0x12, 0xA4, 0x42]
    ensures Parse(data) == Invalid("XOR-MAPPED-ADDRESS not found") <==>
              && |data| >= 24 && data[0] == 0x01 && data[1] == 0x01 && data[4..8] == [0x21, 0x12, 0xA4, 0x42]
              && FindAddress(data, 20) == None
  {
  }

  lemma ValueOutOfBoundsIff(data: Bytes, offset: nat, length: nat)
    requires offset <= |data|
    ensures ParseXorAddress(data[offset..], length) == OutOfBounds <==>
              4 <= length <= |data| - offset < 8 && data[offset] == 0x01
  {
    if offset < |data| {
      assert data[offset..][0] == data[offset];
    }
  }

  /**
   * Decoding runs past the data exactly when the attribute announces four to seven bytes, the
   * data has them but fewer than eight, and the leading byte is 1.
   */
  lemma OutOfBoundsIff(data: Bytes)
    ensures Parse(data) == OutOfBounds <==>
            && |data| >= HEADER_LEN + 4 && FromBytes(data[0], data[1]) == BINDING_RESPONSE && data[4..8] == COOKIE
            && var found := FindAddress(data, HEADER_LEN);
               && found.Some?
               && 4 <= LengthAt(data, found.value) <= |data| - (found.value + 4) < 8
               && data[found.value + 4] == 0x01
  {
    if |data| >= HEADER_LEN + 4 {
      var found := FindAddress(data, HEADER_LEN);
      if found.Some? {
        ValueOutOfBoundsIff(data, found.value + 4, LengthAt(data, found.value));
      }
    }
  }
}
