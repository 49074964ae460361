/** Reading the mapped address out of a STUN Binding Success Response (RFC 5389). */
module Stun {
  import opened Events

  type Byte = b: nat | b < 256

  datatype Mapping = Mapping(ip: seq<Byte>, port: nat)

  function U16(hi: Byte, lo: Byte): (n: nat)
    ensures n < 65536
  {
    hi * 256 + lo
  }

  /** Bitwise exclusive or. */
  function Xor(a: nat, b: nat): nat
    decreases a + b
  {
    if a == 0 && b == 0 then 0 else (if a % 2 == b % 2 then 0 else 1) + 2 * Xor(a / 2, b / 2)
  }

  function Pow2(n: nat): (p: nat)
    ensures p > 0
  {
    if n == 0 then 1 else 2 * Pow2(n - 1)
  }

  lemma {:induction false} XorBound(a: nat, b: nat, n: nat)
    requires a < Pow2(n) && b < Pow2(n)
    ensures Xor(a, b) < Pow2(n)
    decreases n
  {
    if n > 0 && (a != 0 || b != 0) { XorBound(a / 2, b / 2, n - 1); }
  }

  function Bit(a: nat, k: nat): nat { if k == 0 then a % 2 else Bit(a / 2, k - 1) }

  /** Each bit of the result says whether the two bits differ. */
  lemma {:induction false} XorBits(a: nat, b: nat, k: nat)
    ensures Bit(Xor(a, b), k) == if Bit(a, k) == Bit(b, k) then 0 else 1
    decreases k
  {
    if k > 0 {
      assert Xor(a, b) / 2 == Xor(a / 2, b / 2);
      XorBits(a / 2, b / 2, k - 1);
    }
  }

  /** Applying a mask twice gives the number back. */
  lemma {:induction false} XorTwice(a: nat, mask: nat)
    ensures Xor(Xor(a, mask), mask) == a
    decreases a + mask
  {
    if a != 0 || mask != 0 {
      var x := Xor(a, mask);
      assert x / 2 == Xor(a / 2, mask / 2);
      XorTwice(a / 2, mask / 2);
    }
  }

  const MAGIC: seq<Byte> := [0x21, 0x12, 0xA4, 0x42]
  const MAPPED: nat := 0x0001
  const XOR_MAPPED: nat := 0x0020

  // ----- decoding one attribute -----

  lemma {:induction false} Pow2Values()
    ensures Pow2(8) == 256 && Pow2(16) == 65536
  {
    assert Pow2(4) == 16;
    assert Pow2(8) == 256;
    assert Pow2(12) == 4096;
  }

  function XorByte(a: Byte, mask: Byte): Byte {
    Pow2Values();
    XorBound(a, mask, 8);
    Xor(a, mask)
  }

  /** port ^ 0x2112 */
  function MaskPort(port: nat): (r: nat)
    requires port < 65536
    ensures r < 65536
  {
    Pow2Values();
    XorBound(port, 0x2112, 16);
    Xor(port, 0x2112)
  }

  function XorIp(ip: seq<Byte>): (r: seq<Byte>)
    requires |ip| == 4
    ensures |r| == 4
  {
    [XorByte(ip[0], MAGIC[0]), XorByte(ip[1], MAGIC[1]), XorByte(ip[2], MAGIC[2]), XorByte(ip[3], MAGIC[3])]
  }

  /** The number of names that the assignments from struct.unpack("!BBH", ...) bind, and the number of
      values that this format yields. */
  const NAMES: nat := 2

  const VALUES: nat := 3

  /** struct.unpack("!BBH", value[:4]): reserved byte, family and port; None for the error of a short slice. */
  function UnpackBBH(value: seq<Byte>): (r: Option<seq<nat>>)
    ensures r.Some? <==> |value| >= 4
    ensures r.Some? ==> |r.value| == VALUES && r.value[2] < 65536
  {
    if |value| < 4 then None else Some([value[0], value[1], U16(value[2], value[3])])
  }

  /** The branches for an address, on the bytes after the attribute header, if they bound that many names,
      the last of them to the port. Assigning to more or fewer names than there are values raises, like a
      short slice or inet_ntoa on a short address; None stands for every such error. */
  function DecodeAddress(names: nat, kind: nat, value: seq<Byte>): Option<Mapping>
    requires kind == MAPPED || kind == XOR_MAPPED
  {
    var fields := UnpackBBH(value);
    if fields == None || |fields.value| != names || |value| < 8 then None
    else
      var port, ip := fields.value[names - 1], value[4..8];
      if kind == MAPPED then Some(Mapping(ip, port)) else Some(Mapping(XorIp(ip), MaskPort(port)))
  }

  /** The number of 32-bit words an attribute with this value length takes, header and padding included. */
  function Words(length: nat): (n: nat)
    ensures n >= 1 && 4 + length <= 4 * n < 8 + length
  {
    1 + (length + 3) / 4
  }

  /** 4 + ((attr_len + 3) & ~3) */
  function Advance(length: nat): (n: nat)
    ensures n >= 4 && 4 + length <= n < 8 + length
  {
    4 * Words(length)
  }

  /** The walk over the attributes still unread. */
  function Scan(names: nat, rest: seq<Byte>): Option<Mapping>
    decreases |rest|
  {
    if |rest| < 4 then None
    else
      var kind, length := U16(rest[0], rest[1]), U16(rest[2], rest[3]);
      if kind == MAPPED || kind == XOR_MAPPED then DecodeAddress(names, kind, rest[4..])
      else if Advance(length) > |rest| then None
      else Scan(names, rest[Advance(length)..])
  }

  /** The whole response; None where the function returns None or catches an exception. */
  function Response(names: nat, data: seq<Byte>): Option<Mapping> {
    if |data| < 20 || U16(data[0], data[1]) != 0x0101 then None else Scan(names, data[20..])
  }

  /** Scan by position in the whole response, the way the source keeps its offset. */
  function ScanFrom(names: nat, data: seq<Byte>, offset: nat): Option<Mapping>
    decreases |data| - offset
  {
    if offset + 4 > |data| then None
    else
      var kind, length := U16(data[offset], data[offset + 1]), U16(data[offset + 2], data[offset + 3]);
      if kind == MAPPED || kind == XOR_MAPPED then DecodeAddress(names, kind, data[offset + 4..])
      else ScanFrom(names, data, offset + Advance(length))
  }

  /** One attribute of the walk, seen by position. */
  lemma {:induction false} ScanStep(names: nat, data: seq<Byte>, offset: nat, kind: nat, next: nat)
    requires offset + 4 <= |data| && kind == U16(data[offset], data[offset + 1])
    requires next == offset + Advance(U16(data[offset + 2], data[offset + 3]))
    ensures Scan(names, data[offset..])
         == if kind == MAPPED || kind == XOR_MAPPED then DecodeAddress(names, kind, data[offset + 4..])
            else if next > |data| then None
            else Scan(names, data[next..])
  {
    var rest := data[offset..];
    assert rest[4..] == data[offset + 4..];
    if next <= |data| { assert rest[next - offset..] == data[next..]; }
  }

  lemma {:induction false} ScanFromIs(names: nat, data: seq<Byte>, offset: nat)
    requires offset <= |data|
    ensures ScanFrom(names, data, offset) == Scan(names, data[offset..])
    decreases |data| - offset
  {
    if offset + 4 <= |data| {
      var next := offset + Advance(U16(data[offset + 2], data[offset + 3]));
      ScanStep(names, data, offset, U16(data[offset], data[offset + 1]), next);
      if next <= |data| { ScanFromIs(names, data, next); }
    }
  }

  lemma {:induction false} DecodeAt(kind: nat, data: seq<Byte>, at: nat)
    requires (kind == MAPPED || kind == XOR_MAPPED) && at + 8 <= |data|
    ensures var port, ip := U16(data[at + 2], data[at + 3]), data[at + 4..at + 8];
      DecodeAddress(VALUES, kind, data[at..])
      == if kind == MAPPED then Some(Mapping(ip, port)) else Some(Mapping(XorIp(ip), MaskPort(port)))
  {
    assert data[at..][4..8] == data[at + 4..at + 8];
  }

  /** The two address branches, which read at fixed offsets behind the attribute header. */
  method ReadAddress(names: nat, kind: nat, data: seq<Byte>, at: nat) returns (r: Option<Mapping>)
    requires (kind == MAPPED || kind == XOR_MAPPED) && at <= |data|
    ensures r == DecodeAddress(names, kind, data[at..])
  {
    var fields := UnpackBBH(data[at..]);
    if fields == None || |fields.value| != names { return None; }
    if at + 8 > |data| { return None; }
    DecodeAt(kind, data, at);
    var port, ip := fields.value[names - 1], data[at + 4..at + 8];
    if kind == MAPPED {
      r := Some(Mapping(ip, port));
    } else {
      r := Some(Mapping(XorIp(ip), MaskPort(port)));
    }
  }

  method WalkAttributes(names: nat, data: seq<Byte>) returns (r: Option<Mapping>)
    requires |data| >= 20
    ensures r == ScanFrom(names, data, 20)
  {
    var offset := 20;
    ghost var words := 5;
    while offset < |data|
      invariant offset >= 20 && offset == 4 * words
      invariant ScanFrom(names, data, 20) == ScanFrom(names, data, offset)
      decreases |data| - offset
    {
      if offset + 4 > |data| { return None; }
      var kind, length := U16(data[offset], data[offset + 1]), U16(data[offset + 2], data[offset + 3]);
      if kind == MAPPED || kind == XOR_MAPPED {
        r := ReadAddress(names, kind, data, offset + 4);
        return;
      }
      words := words + Words(length);
      offset := offset + Advance(length);
    }
    return None;
  }

  method ParseResponse(names: nat, data: seq<Byte>) returns (r: Option<Mapping>)
    ensures r == Response(names, data)
  {
    if |data| < 20 || U16(data[0], data[1]) != 0x0101 { return None; }
    ScanFromIs(names, data, 20);
    r := WalkAttributes(names, data);
  }

  /** get_stun_mapping as written, from the received bytes on: it returns None on every datagram. */
  method GetStunMapping(data: seq<Byte>) returns (r: Option<Mapping>)
    ensures r == Response(NAMES, data) == None
  {
    r := ParseResponse(NAMES, data);
    NothingReturned(NAMES, data);
  }

  // ----- the code as written against the decoder that binds all values -----

  lemma {:induction false} NothingScanned(names: nat, rest: seq<Byte>)
    requires names != VALUES
    ensures Scan(names, rest) == None
    decreases |rest|
  {
    if |rest| >= 4 {
      var next := Advance(U16(rest[2], rest[3]));
      if next <= |rest| { NothingScanned(names, rest[next..]); }
    }
  }

  /** With any other number of names than three no response gives a mapping. */
  lemma {:induction false} NothingReturned(names: nat, data: seq<Byte>)
    requires names != VALUES
    ensures Response(names, data) == None
  {
    if |data| >= 20 { NothingScanned(names, data[20..]); }
  }

  /** The walk comes to an address attribute with at least 8 bytes behind its header. */
  predicate ReachesAddress(rest: seq<Byte>)
    decreases |rest|
  {
    |rest| >= 4
    && (var kind, next := U16(rest[0], rest[1]), Advance(U16(rest[2], rest[3]));
        if kind == MAPPED || kind == XOR_MAPPED then |rest| >= 12 else next <= |rest| && ReachesAddress(rest[next..]))
  }

  predicate AddressReached(data: seq<Byte>) {
    |data| >= 20 && U16(data[0], data[1]) == 0x0101 && ReachesAddress(data[20..])
  }

  lemma {:induction false} ScannedIff(rest: seq<Byte>)
    ensures Scan(VALUES, rest).Some? <==> ReachesAddress(rest)
    decreases |rest|
  {
    if |rest| >= 4 {
      var next := Advance(U16(rest[2], rest[3]));
      if next <= |rest| { ScannedIff(rest[next..]); }
    }
  }

  /** The code as written gives what the decoder that binds all three values gives exactly on the
      datagrams whose walk comes to no such attribute; there both give nothing. */
  lemma {:induction false} AsWrittenIff(data: seq<Byte>)
    ensures Response(NAMES, data) == Response(VALUES, data) <==> !AddressReached(data)
  {
    NothingReturned(NAMES, data);
    if |data| >= 20 { ScannedIff(data[20..]); }
  }

  // ----- building responses (sections 6, 15, 15.1 and 15.2) -----

  /** Type and value, with the padding bytes that follow; their content is free. */
  datatype Attribute = Attribute(kind: nat, value: seq<Byte>, padding: seq<Byte>)

  predicate WellFormed(a: Attribute) {
    a.kind < 65536 && |a.value| < 65536 && 4 + |a.value| + |a.padding| == Advance(|a.value|)
  }

  function Encode(a: Attribute): (r: seq<Byte>)
    requires WellFormed(a)
    ensures |r| == Advance(|a.value|) == 4 * Words(|a.value|)
  {
    [a.kind / 256, a.kind % 256, |a.value| / 256, |a.value| % 256] + a.value + a.padding
  }

  function EncodeAll(attributes: seq<Attribute>): (r: seq<Byte>)
    requires forall a :: a in attributes ==> WellFormed(a)
  {
    if attributes == [] then [] else Encode(attributes[0]) + EncodeAll(attributes[1..])
  }

  predicate IsAddress(a: Attribute) { a.kind == 0x0001 || a.kind == 0x0020 }

  lemma {:induction false} ScanAttribute(names: nat, a: Attribute, rest: seq<Byte>)
    requires WellFormed(a)
    ensures !IsAddress(a) ==> Scan(names, Encode(a) + rest) == Scan(names, rest)
    ensures IsAddress(a) && |a.value| >= 8 ==> Scan(names, Encode(a) + rest) == DecodeAddress(names, a.kind, a.value)
  {
    var s := Encode(a) + rest;
    assert U16(s[0], s[1]) == a.kind && U16(s[2], s[3]) == |a.value|;
    if IsAddress(a) {
      if |a.value| >= 8 {
        assert s[4..][2] == a.value[2] && s[4..][3] == a.value[3];
        assert s[4..][4..8] == a.value[4..8];
      }
    } else {
      assert s[Advance(|a.value|)..] == rest;
    }
  }

  lemma {:induction false} BoundariesReached(names: nat, before: seq<Attribute>, rest: seq<Byte>)
    requires forall b :: b in before ==> WellFormed(b) && !IsAddress(b)
    ensures Scan(names, EncodeAll(before) + rest) == Scan(names, rest)
    decreases |before|
  {
    if before == [] {
      assert EncodeAll(before) + rest == rest;
    } else {
      var tail := EncodeAll(before[1..]) + rest;
      assert EncodeAll(before) + rest == Encode(before[0]) + tail;
      ScanAttribute(names, before[0], tail);
      BoundariesReached(names, before[1..], rest);
    }
  }

  /** Any attributes without an address, then one with an address: that address is the result, whatever
      follows it. The walk passes through every attribute boundary. */
  lemma {:induction false} FirstAddressFound(names: nat, before: seq<Attribute>, a: Attribute, rest: seq<Byte>)
    requires forall b :: b in before ==> WellFormed(b) && !IsAddress(b)
    requires WellFormed(a) && IsAddress(a) && |a.value| >= 8
    ensures Scan(names, EncodeAll(before) + Encode(a) + rest) == DecodeAddress(names, a.kind, a.value)
  {
    assert EncodeAll(before) + Encode(a) + rest == EncodeAll(before) + (Encode(a) + rest);
    BoundariesReached(names, before, Encode(a) + rest);
    ScanAttribute(names, a, rest);
  }

  /** The 32-bit words a list of attributes takes. */
  function WordsOf(attributes: seq<Attribute>): nat {
    if attributes == [] then 0 else Words(|attributes[0].value|) + WordsOf(attributes[1..])
  }

  lemma {:induction false} EncodedInWords(attributes: seq<Attribute>)
    requires forall a :: a in attributes ==> WellFormed(a)
    ensures |EncodeAll(attributes)| == 4 * WordsOf(attributes)
  {
    if attributes != [] { EncodedInWords(attributes[1..]); }
  }

  lemma {:induction false} WalkPasses(names: nat, data: seq<Byte>, start: nat, boundary: nat, before: seq<Attribute>)
    requires start <= boundary <= |data|
    requires forall b :: b in before ==> WellFormed(b) && !IsAddress(b)
    requires data[start..] == EncodeAll(before) + data[boundary..]
    ensures ScanFrom(names, data, start) == ScanFrom(names, data, boundary)
  {
    BoundariesReached(names, before, data[boundary..]);
    ScanFromIs(names, data, start);
    ScanFromIs(names, data, boundary);
  }

  /** The walk by offsets, started behind the header, stands at the end of every attribute that comes
      before an address; each of these offsets is a multiple of 4. */
  lemma {:induction false} OffsetsAligned(names: nat, header: seq<Byte>, before: seq<Attribute>, rest: seq<Byte>)
    requires |header| == 20
    requires forall b :: b in before ==> WellFormed(b) && !IsAddress(b)
    ensures var data, boundary := header + EncodeAll(before) + rest, 4 * (5 + WordsOf(before));
      boundary == 20 + |EncodeAll(before)| && ScanFrom(names, data, 20) == ScanFrom(names, data, boundary)
  {
    var encoded := EncodeAll(before);
    var data := header + encoded + rest;
    EncodedInWords(before);
    assert data[20..] == encoded + rest && data[20 + |encoded|..] == rest;
    WalkPasses(names, data, 20, 20 + |encoded|, before);
  }

  /** A response without an address attribute gives no mapping. */
  lemma {:induction false} NoAddressFound(names: nat, attributes: seq<Attribute>)
    requires forall b :: b in attributes ==> WellFormed(b) && !IsAddress(b)
    ensures Scan(names, EncodeAll(attributes)) == None
  {
    BoundariesReached(names, attributes, []);
    assert EncodeAll(attributes) + [] == EncodeAll(attributes);
  }

  /** The value of MAPPED-ADDRESS for an IPv4 address: a zero byte, the family, port and address. */
  function MappedValue(m: Mapping): seq<Byte>
    requires |m.ip| == 4 && m.port < 65536
  {
    [0, 1, m.port / 256, m.port % 256] + m.ip
  }

  /** XOR-MAPPED-ADDRESS: port and address masked with the magic cookie 0x2112A442. */
  function XorMappedValue(m: Mapping): seq<Byte>
    requires |m.ip| == 4 && m.port < 65536
  {
    Pow2Values();
    XorBound(m.port, 0x2112, 16);
    var x := Xor(m.port, 0x2112);
    [0, 1, x / 256, x % 256]
    + [XorByte(m.ip[0], 0x21), XorByte(m.ip[1], 0x12), XorByte(m.ip[2], 0xA4), XorByte(m.ip[3], 0x42)]
  }

  function AddressAttribute(m: Mapping, masked: bool): (a: Attribute)
    requires |m.ip| == 4 && m.port < 65536
    ensures WellFormed(a) && IsAddress(a) && |a.value| == 8
  {
    if masked then Attribute(0x0020, XorMappedValue(m), []) else Attribute(0x0001, MappedValue(m), [])
  }

  lemma {:induction false} XorByteTwice(x: Byte, mask: Byte)
    ensures XorByte(XorByte(x, mask), mask) == x
  {
    XorTwice(x, mask);
  }

  lemma {:induction false} XorIpTwice(ip: seq<Byte>)
    requires |ip| == 4
    ensures XorIp(XorIp(ip)) == ip
  {
    XorByteTwice(ip[0], MAGIC[0]);
    XorByteTwice(ip[1], MAGIC[1]);
    XorByteTwice(ip[2], MAGIC[2]);
    XorByteTwice(ip[3], MAGIC[3]);
  }

  lemma {:induction false} PortTwice(port: nat)
    requires port < 65536
    ensures MaskPort(MaskPort(port)) == port
  {
    XorTwice(port, 0x2112);
  }

  lemma {:induction false} ValueDecodes(kind: nat, port: nat, ip: seq<Byte>)
    requires (kind == MAPPED || kind == XOR_MAPPED) && port < 65536 && |ip| == 4
    ensures DecodeAddress(VALUES, kind, [0, 1, port / 256, port % 256] + ip)
         == if kind == MAPPED then Some(Mapping(ip, port)) else Some(Mapping(XorIp(ip), MaskPort(port)))
  {
    var v := [0, 1, port / 256, port % 256] + ip;
    assert v[4..8] == ip && U16(v[2], v[3]) == port;
  }

  lemma {:induction false} AddressDecodes(m: Mapping, masked: bool)
    requires |m.ip| == 4 && m.port < 65536
    ensures var a := AddressAttribute(m, masked); DecodeAddress(VALUES, a.kind, a.value) == Some(m)
  {
    if masked {
      PortTwice(m.port);
      XorIpTwice(m.ip);
      ValueDecodes(XOR_MAPPED, MaskPort(m.port), XorIp(m.ip));
    } else {
      ValueDecodes(MAPPED, m.port, m.ip);
    }
  }

  /** For every response whose first address attribute, plain or masked, carries an IPv4 address and
      port, the decoder that binds all three values returns exactly that pair; the code as written does not. */
  lemma {:induction false} MappingRecovered(header: seq<Byte>, before: seq<Attribute>, m: Mapping, masked: bool,
                                            rest: seq<Byte>)
    requires |header| == 20 && U16(header[0], header[1]) == 0x0101
    requires forall b :: b in before ==> WellFormed(b) && !IsAddress(b)
    requires |m.ip| == 4 && m.port < 65536
    ensures var data := header + (EncodeAll(before) + Encode(AddressAttribute(m, masked)) + rest);
      Response(VALUES, data) == Some(m) && Response(NAMES, data) == None
  {
    var a := AddressAttribute(m, masked);
    var body := EncodeAll(before) + Encode(a) + rest;
    assert (header + body)[20..] == body;
    FirstAddressFound(VALUES, before, a, rest);
    AddressDecodes(m, masked);
    NothingReturned(NAMES, header + body);
  }

  /** Only bytes 2 to 7 of the value matter: the reserved byte and the address family are not looked
      at, so the first four bytes of an IPv6 address are taken for an IPv4 address. */
  lemma {:induction false} ValueFamilyIgnored(names: nat, kind: nat, v: seq<Byte>, w: seq<Byte>)
    requires kind == MAPPED || kind == XOR_MAPPED
    requires |v| >= 8 && |w| >= 8 && v[2..8] == w[2..8]
    ensures DecodeAddress(names, kind, v) == DecodeAddress(names, kind, w)
  {
    assert v[2] == v[2..8][0] == w[2] && v[3] == v[2..8][1] == w[3];
    assert v[4..8] == v[2..8][2..6] && w[4..8] == w[2..8][2..6];
  }

  /** Of the header only the length and the message type count: the message length, the magic cookie and
      the transaction id may be anything. */
  lemma {:induction false} HeaderIgnored(names: nat, data: seq<Byte>, other: seq<Byte>)
    requires |data| >= 20 && |other| >= 20 && data[..2] == other[..2] && data[20..] == other[20..]
    ensures Response(names, data) == Response(names, other)
  {
    assert data[0] == data[..2][0] == other[0] && data[1] == data[..2][1] == other[1];
  }

  /** Two responses that differ only in the header behind the type, in the reserved byte and family of
      the first address, and in what follows that address, give the same result. */
  lemma {:induction false} FamilyIgnored(names: nat, header: seq<Byte>, other: seq<Byte>, before: seq<Attribute>,
                                         a: Attribute, b: Attribute, rest: seq<Byte>, rest': seq<Byte>)
    requires |header| == |other| == 20 && header[..2] == other[..2]
    requires forall x :: x in before ==> WellFormed(x) && !IsAddress(x)
    requires WellFormed(a) && WellFormed(b) && IsAddress(a) && a.kind == b.kind
    requires |a.value| >= 8 && |b.value| >= 8 && a.value[2..8] == b.value[2..8]
    ensures Response(names, header + (EncodeAll(before) + Encode(a) + rest))
         == Response(names, other + (EncodeAll(before) + Encode(b) + rest'))
  {
    var x, y := EncodeAll(before) + Encode(a) + rest, EncodeAll(before) + Encode(b) + rest';
    FirstAddressFound(names, before, a, rest);
    FirstAddressFound(names, before, b, rest');
    ValueFamilyIgnored(names, a.kind, a.value, b.value);
    SameScan(names, header, other, x, y);
  }

  lemma {:induction false} SameScan(names: nat, header: seq<Byte>, other: seq<Byte>, x: seq<Byte>, y: seq<Byte>)
    requires |header| == |other| == 20 && header[..2] == other[..2] && Scan(names, x) == Scan(names, y)
    ensures Response(names, header + x) == Response(names, other + y)
  {
    assert (header + x)[20..] == x && (other + y)[20..] == y;
    assert header[0] == header[..2][0] == other[0] && header[1] == header[..2][1] == other[1];
  }
}
