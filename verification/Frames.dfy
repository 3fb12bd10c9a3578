/** Ethernet frames as `build_eth_packet` (`util.c`) writes them, read back as the switch's packet handler
    (`switch_main.c`) does: RoCEv2 data and acknowledgements of the reliable service, section 9.7 of the
    InfiniBand Architecture Specification Volume 1.
 */
module Frames {
  import Ipv4Checksum
  import Crc32

  type Byte = x: int | 0 <= x < 256

  const ETH: nat := 14
  const IP: nat := 20
  const UDP: nat := 8
  const BTH: nat := 12
  const IMM: nat := 4
  const ICRC: nat := 4
  const BODY: nat := 54

  /** The caller's packet buffer. */
  const BUFFER: nat := 4096

  const PSN_SPACE: nat := 0x100_0000
  const ACK_REQUEST: nat := 0x8000_0000
  const MSN_BOUND: nat := 0x2000_0000

  const OPCODE_ACK: nat := 0x11

  datatype PacketType = Data | Ack | Nak

  datatype Addresses = Addresses(srcMac: seq<Byte>, dstMac: seq<Byte>, srcIp: seq<Byte>, dstIp: seq<Byte>,
                                 srcPort: nat, dstPort: nat, qp: nat)

  predicate ValidAddresses(a: Addresses) {
    && |a.srcMac| == |a.dstMac| == 6 && |a.srcIp| == |a.dstIp| == 4
    && a.srcPort < 0x1_0000 && a.dstPort < 0x1_0000
  }

  // ----- Numbers in network order

  function Be16(x: nat): (b: seq<Byte>)
    ensures |b| == 2
  {
    [x / 256 % 256, x % 256]
  }

  function Be32(x: nat): (b: seq<Byte>)
    ensures |b| == 4
  {
    Be16(x / 0x1_0000) + Be16(x % 0x1_0000)
  }

  function Le32(x: nat): (b: seq<Byte>)
    ensures |b| == 4
  {
    var b := Be32(x);
    [b[3], b[2], b[1], b[0]]
  }

  function U16(b: seq<Byte>, at: nat): nat
    requires at + 2 <= |b|
  {
    (b[at] as int) * 256 + b[at + 1]
  }

  function U32(b: seq<Byte>, at: nat): nat
    requires at + 4 <= |b|
  {
    U16(b, at) * 0x1_0000 + U16(b, at + 2)
  }

  lemma ReadBe16(b: seq<Byte>, at: nat, x: nat)
    requires at + 2 <= |b| && b[at..at + 2] == Be16(x) && x < 0x1_0000
    ensures U16(b, at) == x
  {
    assert b[at..at + 2][0] == b[at] && b[at..at + 2][1] == b[at + 1];
  }

  lemma ReadBe32(b: seq<Byte>, at: nat, x: nat)
    requires at + 4 <= |b| && b[at..at + 4] == Be32(x) && x < 0x1_0000_0000
    ensures U32(b, at) == x
  {
    var hi, lo := x / 0x1_0000, x % 0x1_0000;
    Halves(b, at, Be16(hi), Be16(lo));
    ReadBe16(b, at, hi);
    ReadBe16(b, at + 2, lo);
  }

  lemma Halves(b: seq<Byte>, at: nat, hi: seq<Byte>, lo: seq<Byte>)
    requires at + 4 <= |b| && |hi| == |lo| == 2 && b[at..at + 4] == hi + lo
    ensures b[at..at + 2] == hi && b[at + 2..at + 4] == lo
  {
    assert b[at..at + 2] == b[at..at + 4][..2] && b[at + 2..at + 4] == b[at..at + 4][2..];
  }

  // ----- Header fields

  /** `x | 0x80000000` */
  function WithAckRequest(x: nat): nat
    requires x < 0x1_0000_0000
  {
    if x < ACK_REQUEST then x + ACK_REQUEST else x
  }

  /** `msn | 0x1f000000`, an acknowledgement's syndrome: bits 24 to 28 set. */
  function AckSyndrome(msn: nat): nat {
    msn / 0x2000_0000 * 0x2000_0000 + 0x1F00_0000 + msn % 0x100_0000
  }

  /** `msn | 0x60000000`, the syndrome of a sequence error: bits 29 and 30 set. */
  function NakSyndrome(msn: nat): nat {
    msn / 0x8000_0000 * 0x8000_0000 + 0x6000_0000 + msn % 0x2000_0000
  }

  function EthHeader(a: Addresses): (h: seq<Byte>)
    requires ValidAddresses(a)
    ensures |h| == ETH
  {
    a.dstMac + a.srcMac + Be16(0x0800)
  }

  function IpHeader(a: Addresses, len: nat, checksum: nat): (h: seq<Byte>)
    requires ValidAddresses(a)
    ensures |h| == IP
  {
    [0x45, 0x00] + Be16(len) + [0x11, 0x11] + Be16(0x4000) + [0x40, 0x11] + Be16(checksum) + a.srcIp + a.dstIp
  }

  function UdpHeader(a: Addresses, len: nat): (h: seq<Byte>)
    requires ValidAddresses(a)
    ensures |h| == UDP
  {
    Be16(a.srcPort) + Be16(a.dstPort) + Be16(len) + [0, 0]
  }

  function BthHeader(a: Addresses, opcode: Byte, apsn: nat): (h: seq<Byte>)
    ensures |h| == BTH
  {
    [opcode, 0x00, 0xFF, 0xFF] + Be32(a.qp % PSN_SPACE) + Be32(apsn)
  }

  /** The header's ten words. */
  function HalfWords(h: seq<Byte>): (w: seq<Ipv4Checksum.Half>)
    requires |h| % 2 == 0
    ensures |w| == |h| / 2
    ensures forall i :: 0 <= i < |w| ==> w[i] == (h[2 * i] as int) * 256 + h[2 * i + 1]
  {
    if h == [] then [] else HalfWords(h[..|h| - 2]) + [(h[|h| - 2] as int) * 256 + h[|h| - 1]]
  }

  function HeaderChecksum(a: Addresses, len: nat): Ipv4Checksum.Half
    requires ValidAddresses(a)
  {
    Ipv4Checksum.MAX - Ipv4Checksum.OnesSum(HalfWords(IpHeader(a, len, 0)))
  }

  // ----- The invariant CRC

  function AsBits(b: seq<Byte>): (r: seq<bv8>)
    ensures |r| == |b|
  {
    if b == [] then [] else AsBits(b[..|b| - 1]) + [b[|b| - 1] as bv8]
  }

  /** What the ICRC is computed over: eight bytes of ones in front, and ones for the fields that may change on
      the way: type of service, time to live, both checksums, and the byte in front of the queue pair. */
  function Masked(packet: seq<Byte>): seq<Byte>
    requires |packet| >= IP + UDP + BTH
  {
    [0xFF, 0xFF, 0xFF, 0xFF, 0xFF, 0xFF, 0xFF, 0xFF]
    + packet[1 := 0xFF][8 := 0xFF][10 := 0xFF][11 := 0xFF][26 := 0xFF][27 := 0xFF][32 := 0xFF]
  }

  function Icrc(packet: seq<Byte>): nat
    requires |packet| >= IP + UDP + BTH
  {
    Crc32.Reference(AsBits(Masked(packet))) as int
  }

  /** A field of the header that may change on the way. */
  predicate Variant(i: nat) {
    i in {1, 8, 10, 11, 26, 27, 32}
  }

  /** The ICRC does not depend on those fields. */
  lemma IcrcIgnoresVariantFields(p: seq<Byte>, q: seq<Byte>)
    requires |p| == |q| >= IP + UDP + BTH && forall i :: 0 <= i < |p| && !Variant(i) ==> p[i] == q[i]
    ensures Icrc(p) == Icrc(q)
  {
    assert Masked(p) == Masked(q);
  }

  // ----- Frames

  function Body(t: PacketType, data: seq<Byte>, msn: nat): seq<Byte> {
    match t
    case Data => data
    case Ack => Be32(AckSyndrome(msn))
    case Nak => Be32(NakSyndrome(msn))
  }

  /** Everything between the Ethernet header and the ICRC. */
  function Packet(t: PacketType, data: seq<Byte>, a: Addresses, opcode: Byte, psn: nat, msn: nat): (p: seq<Byte>)
    requires ValidAddresses(a) && psn < 0x1_0000_0000
    ensures |p| == IP + UDP + BTH + |Body(t, data, msn)|
  {
    var body := Body(t, data, msn);
    var len := IP + UDP + BTH + |body| + ICRC;
    IpHeader(a, len, HeaderChecksum(a, len)) + UdpHeader(a, len - IP)
    + BthHeader(a, if t == Data then opcode else OPCODE_ACK, if t == Data then WithAckRequest(psn) else psn) + body
  }

  function Frame(t: PacketType, data: seq<Byte>, a: Addresses, opcode: Byte, psn: nat, msn: nat): (f: seq<Byte>)
    requires ValidAddresses(a) && psn < 0x1_0000_0000
    ensures |f| == BODY + |Body(t, data, msn)| + ICRC
  {
    var p := Packet(t, data, a, opcode, psn, msn);
    EthHeader(a) + p + Le32(Icrc(p))
  }

  /** The frame is short enough for the buffer, and so for its 16-bit length fields. */
  predicate FitsBuffer(t: PacketType, data: seq<Byte>) {
    BODY + |Body(t, data, 0)| + ICRC <= BUFFER
  }

  // ----- Reading a frame

  datatype Parsed = Parsed(psn: nat, opcode: Byte, payloadLen: int, payload: seq<Byte>)

  predicate HasImm(opcode: Byte) {
    opcode == 0x03 || opcode == 0x05
  }

  function ImmOffset(opcode: Byte): nat {
    if HasImm(opcode) then IMM else 0
  }

  /** What the handler takes from a frame; the payload is empty if its length comes out negative. */
  function Parse(f: seq<Byte>): Parsed
    requires |f| >= BODY + IMM
  {
    var opcode := f[42];
    var len := U16(f, 38) - UDP - BTH - ICRC - ImmOffset(opcode);
    var at := BODY + ImmOffset(opcode);
    Parsed(U32(f, 50) % PSN_SPACE, opcode, len, if 0 <= len && at + len <= |f| then f[at..at + len] else [])
  }

  /** How an acknowledgement is told from a negative one: the top three bits of the syndrome. */
  predicate IsNak(f: seq<Byte>)
    requires |f| >= BODY + 4
  {
    U32(f, BODY) / MSN_BOUND != 0
  }

  // ----- Round trips

  lemma FieldsOfFrame(f: seq<Byte>, eth: seq<Byte>, ip: seq<Byte>, udp: seq<Byte>, bth: seq<Byte>, body: seq<Byte>,
                      icrc: seq<Byte>)
    requires |eth| == ETH && |ip| == IP && |udp| == UDP && |bth| == BTH && f == eth + (ip + udp + bth + body) + icrc
    ensures |f| == BODY + |body| + |icrc| && f[..14] == eth && f[BODY + |body|..] == icrc
    ensures f[14..34] == ip && f[34..42] == udp && f[42..54] == bth && f[BODY..BODY + |body|] == body
  {
  }

  lemma FrameOpcodeAndPsn(f: seq<Byte>, a: Addresses, opcode: Byte, apsn: nat)
    requires |f| >= BODY && f[42..54] == BthHeader(a, opcode, apsn) && apsn < 0x1_0000_0000
    ensures f[42] == opcode && U32(f, 50) == apsn
  {
    assert f[42] == f[42..54][0];
    assert f[50..54] == f[42..54][8..12] == Be32(apsn);
    ReadBe32(f, 50, apsn);
  }

  lemma AckRequestKeepsPsn(psn: nat)
    requires psn < 0x1_0000_0000
    ensures WithAckRequest(psn) < 0x1_0000_0000 && WithAckRequest(psn) % PSN_SPACE == psn % PSN_SPACE
  {
  }

  /** What is read from a data frame. */
  lemma ParsedDataFrame(data: seq<Byte>, a: Addresses, opcode: Byte, psn: nat, msn: nat)
    requires ValidAddresses(a) && psn < 0x1_0000_0000 && FitsBuffer(Data, data)
    ensures var f := Frame(Data, data, a, opcode, psn, msn);
            && Parse(f).psn == psn % PSN_SPACE && Parse(f).opcode == opcode
            && Parse(f).payloadLen == |data| - ImmOffset(opcode)
            && (!HasImm(opcode) ==> Parse(f).payload == data)
  {
    hide EthHeader, IpHeader, UdpHeader, BthHeader, HeaderChecksum, U16, U32, Icrc;
    var p := Packet(Data, data, a, opcode, psn, msn);
    var f := Frame(Data, data, a, opcode, psn, msn);
    var len := IP + UDP + BTH + |data| + ICRC;
    var ip, udp := IpHeader(a, len, HeaderChecksum(a, len)), UdpHeader(a, len - IP);
    var bth := BthHeader(a, opcode, WithAckRequest(psn));
    assert p == ip + udp + bth + data;
    FieldsOfFrame(f, EthHeader(a), ip, udp, bth, data, Le32(Icrc(p)));
    UdpFields(f, a, len - IP);
    AckRequestKeepsPsn(psn);
    FrameOpcodeAndPsn(f, a, opcode, WithAckRequest(psn));
  }

  /** A data frame is read back with the same opcode, number modulo 2^24, length and contents if and only if its
      opcode has no immediate data, which these frames do not carry. */
  lemma DataRoundTripIff(data: seq<Byte>, a: Addresses, opcode: Byte, psn: nat, msn: nat)
    requires ValidAddresses(a) && psn < 0x1_0000_0000 && FitsBuffer(Data, data)
    ensures Parse(Frame(Data, data, a, opcode, psn, msn)) == Parsed(psn % PSN_SPACE, opcode, |data|, data)
       <==> !HasImm(opcode)
  {
    ParsedDataFrame(data, a, opcode, psn, msn);
  }

  /** `strip_immediate_opcode` */
  function StripImmediate(opcode: Byte): Byte {
    if opcode == 0x05 then 0x04 else if opcode == 0x03 then 0x02 else opcode
  }

  /** Whatever the opcode of the packet that completed a result, the result itself is read back as sent. */
  lemma StrippedDataRoundTrip(data: seq<Byte>, a: Addresses, opcode: Byte, psn: nat, msn: nat)
    requires ValidAddresses(a) && psn < 0x1_0000_0000 && FitsBuffer(Data, data)
    ensures var stripped := if opcode == 0x03 then 0x02 else if opcode == 0x05 then 0x04 else opcode;
            Parse(Frame(Data, data, a, StripImmediate(opcode), psn, msn))
            == Parsed(psn % 0x100_0000, stripped, |data|, data)
  {
    DataRoundTripIff(data, a, StripImmediate(opcode), psn, msn);
  }

  lemma SyndromeBits(msn: nat)
    requires msn < 0x1_0000_0000
    ensures AckSyndrome(msn) < 0x1_0000_0000 && AckSyndrome(msn) / MSN_BOUND == msn / MSN_BOUND
    ensures NakSyndrome(msn) < 0x1_0000_0000 && NakSyndrome(msn) / MSN_BOUND != 0
  {
  }

  /** An acknowledgement carries its number, and is taken for positive if and only if the message number leaves
      the top three bits alone; a negative one is always taken for negative. */
  lemma AckClassifiedIff(t: PacketType, data: seq<Byte>, a: Addresses, opcode: Byte, psn: nat, msn: nat)
    requires ValidAddresses(a) && psn < 0x1_0000_0000 && msn < 0x1_0000_0000 && t != Data
    ensures var f := Frame(t, data, a, opcode, psn, msn);
            && Parse(f).psn == psn % PSN_SPACE && Parse(f).opcode == OPCODE_ACK
            && (IsNak(f) <==> t == Nak || msn >= MSN_BOUND)
  {
    hide EthHeader, IpHeader, UdpHeader, BthHeader, HeaderChecksum, U16, U32, Icrc;
    var p := Packet(t, data, a, opcode, psn, msn);
    var f := Frame(t, data, a, opcode, psn, msn);
    var body := Body(t, data, msn);
    var len := IP + UDP + BTH + |body| + ICRC;
    var ip, udp := IpHeader(a, len, HeaderChecksum(a, len)), UdpHeader(a, len - IP);
    var bth := BthHeader(a, OPCODE_ACK, psn);
    assert p == ip + udp + bth + body;
    FieldsOfFrame(f, EthHeader(a), ip, udp, bth, body, Le32(Icrc(p)));
    FrameOpcodeAndPsn(f, a, OPCODE_ACK, psn);
    SyndromeBits(msn);
    ReadBe32(f, BODY, if t == Ack then AckSyndrome(msn) else NakSyndrome(msn));
  }

  // ----- What is where in a frame

  lemma PartOfPart(f: seq<Byte>, from: nat, to: nat, part: seq<Byte>, i: nat, j: nat)
    requires from <= to <= |f| && f[from..to] == part && i <= j <= to - from
    ensures f[from + i..from + j] == part[i..j]
    ensures forall k :: i <= k < j ==> f[from + k] == part[k]
  {
    assert forall k :: 0 <= k < to - from ==> f[from + k] == f[from..to][k];
  }

  lemma EthFields(f: seq<Byte>, a: Addresses)
    requires ValidAddresses(a) && |f| >= BODY && f[..14] == EthHeader(a)
    ensures f[0..6] == a.dstMac && f[6..12] == a.srcMac && f[12] == 0x08 && f[13] == 0x00
  {
    PartOfPart(f, 0, 14, EthHeader(a), 0, 6);
    PartOfPart(f, 0, 14, EthHeader(a), 6, 12);
    PartOfPart(f, 0, 14, EthHeader(a), 12, 14);
  }

  lemma IpFields(f: seq<Byte>, a: Addresses, len: nat, checksum: nat)
    requires ValidAddresses(a) && |f| >= BODY && f[14..34] == IpHeader(a, len, checksum) && len < 0x1_0000
    ensures f[14] == 0x45 && f[15] == 0 && U16(f, 16) == len && U16(f, 18) == 0x1111 && U16(f, 20) == 0x4000
    ensures f[22] == 0x40 && f[23] == 17 && f[26..30] == a.srcIp && f[30..34] == a.dstIp
  {
    var h := IpHeader(a, len, checksum);
    PartOfPart(f, 14, 34, h, 0, 20);
    PartOfPart(f, 14, 34, h, 2, 4);
    ReadBe16(f, 16, len);
    PartOfPart(f, 14, 34, h, 6, 8);
    ReadBe16(f, 20, 0x4000);
    PartOfPart(f, 14, 34, h, 12, 16);
    PartOfPart(f, 14, 34, h, 16, 20);
  }

  lemma UdpFields(f: seq<Byte>, a: Addresses, len: nat)
    requires ValidAddresses(a) && |f| >= BODY && f[34..42] == UdpHeader(a, len) && len < 0x1_0000
    ensures U16(f, 34) == a.srcPort && U16(f, 36) == a.dstPort && U16(f, 38) == len && U16(f, 40) == 0
  {
    var h := UdpHeader(a, len);
    PartOfPart(f, 34, 42, h, 0, 2);
    ReadBe16(f, 34, a.srcPort);
    PartOfPart(f, 34, 42, h, 2, 4);
    ReadBe16(f, 36, a.dstPort);
    PartOfPart(f, 34, 42, h, 4, 6);
    ReadBe16(f, 38, len);
    PartOfPart(f, 34, 42, h, 6, 8);
  }

  lemma BthFields(f: seq<Byte>, a: Addresses, opcode: Byte, apsn: nat)
    requires |f| >= BODY && f[42..54] == BthHeader(a, opcode, apsn) && apsn < 0x1_0000_0000
    ensures f[42] == opcode && f[43] == 0 && U16(f, 44) == 0xFFFF && f[46] == 0
    ensures U32(f, 46) == a.qp % 0x100_0000 && U32(f, 50) == apsn
  {
    var h := BthHeader(a, opcode, apsn);
    PartOfPart(f, 42, 54, h, 0, 4);
    PartOfPart(f, 42, 54, h, 4, 8);
    ReadBe32(f, 46, a.qp % PSN_SPACE);
    FrameOpcodeAndPsn(f, a, opcode, apsn);
  }

  /** Every frame, byte by byte from its start: destination and source MAC, ether type; the IPv4 header with total
      length, protocol UDP, source and destination; ports and UDP length; opcode, partition key, queue pair and number.
      Data frames ask for an acknowledgement in the top bit of the number's word. */
  lemma FrameFields(t: PacketType, data: seq<Byte>, a: Addresses, opcode: Byte, psn: nat, msn: nat)
    requires ValidAddresses(a) && psn < 0x1_0000_0000 && FitsBuffer(t, data)
    ensures var f := Frame(t, data, a, opcode, psn, msn);
            && |f| == (if t == Data then 58 + |data| else 62) && (t == Data ==> f[54..|f| - 4] == data)
            && f[0..6] == a.dstMac && f[6..12] == a.srcMac && f[12] == 0x08 && f[13] == 0x00
            && f[14] == 0x45 && f[15] == 0 && U16(f, 16) == |f| - 14 && U16(f, 18) == 0x1111 && U16(f, 20) == 0x4000
            && f[22] == 0x40 && f[23] == 17 && Ipv4Checksum.OnesSum(HalfWords(f[14..34])) == 0xFFFF
            && f[26..30] == a.srcIp && f[30..34] == a.dstIp
            && U16(f, 34) == a.srcPort && U16(f, 36) == a.dstPort && U16(f, 38) == |f| - 34 && U16(f, 40) == 0
            && f[42] == (if t == Data then opcode else 0x11) && f[43] == 0 && U16(f, 44) == 0xFFFF
            && f[46] == 0 && U32(f, 46) == a.qp % 0x100_0000
            && U32(f, 50) == (if t == Data then 0x8000_0000 + psn % 0x8000_0000 else psn)
  {
    hide EthHeader, IpHeader, UdpHeader, BthHeader, HalfWords, HeaderChecksum, U16, U32, Icrc;
    var p, f := Packet(t, data, a, opcode, psn, msn), Frame(t, data, a, opcode, psn, msn);
    var body := Body(t, data, msn);
    var len := IP + UDP + BTH + |body| + ICRC;
    var ip, udp := IpHeader(a, len, HeaderChecksum(a, len)), UdpHeader(a, len - IP);
    var op, apsn := if t == Data then opcode else OPCODE_ACK, if t == Data then WithAckRequest(psn) else psn;
    assert p == ip + udp + BthHeader(a, op, apsn) + body;
    FieldsOfFrame(f, EthHeader(a), ip, udp, BthHeader(a, op, apsn), body, Le32(Icrc(p)));
    EthFields(f, a);
    IpFields(f, a, len, HeaderChecksum(a, len));
    HeaderSumIsAllOnes(a, len);
    UdpFields(f, a, len - IP);
    BthFields(f, a, op, apsn);
  }

  /** What an acknowledgement says.  The syndrome's low bits are all ones in a positive one, whose top three bits are
      those of the message number; in a negative one bits 29 and 30 are set.  The message number's own 24 bits are
      untouched. */
  lemma SyndromeOfFrame(t: PacketType, data: seq<Byte>, a: Addresses, opcode: Byte, psn: nat, msn: nat)
    requires ValidAddresses(a) && psn < 0x1_0000_0000 && msn < 0x1_0000_0000 && t != Data
    ensures var f := Frame(t, data, a, opcode, psn, msn);
            && |f| == 62 && U32(f, 54) % 0x100_0000 == msn % 0x100_0000
            && U32(f, 54) / 0x100_0000
               == if t == Ack then msn / 0x2000_0000 * 32 + 31 else msn / 0x8000_0000 * 128 + 96 + msn / 0x100_0000 % 32
  {
    hide EthHeader, IpHeader, UdpHeader, BthHeader, HeaderChecksum, U16, U32, Icrc;
    var p, f := Packet(t, data, a, opcode, psn, msn), Frame(t, data, a, opcode, psn, msn);
    var body := Body(t, data, msn);
    var len := IP + UDP + BTH + |body| + ICRC;
    var ip, udp := IpHeader(a, len, HeaderChecksum(a, len)), UdpHeader(a, len - IP);
    assert p == ip + udp + BthHeader(a, OPCODE_ACK, psn) + body;
    FieldsOfFrame(f, EthHeader(a), ip, udp, BthHeader(a, OPCODE_ACK, psn), body, Le32(Icrc(p)));
    SyndromeBits(msn);
    SyndromeParts(msn);
    ReadBe32(f, BODY, if t == Ack then AckSyndrome(msn) else NakSyndrome(msn));
  }

  lemma SyndromeParts(msn: nat)
    requires msn < 0x1_0000_0000
    ensures AckSyndrome(msn) % 0x100_0000 == NakSyndrome(msn) % 0x100_0000 == msn % 0x100_0000
    ensures AckSyndrome(msn) / 0x100_0000 == msn / 0x2000_0000 * 32 + 31
    ensures NakSyndrome(msn) / 0x100_0000 == msn / 0x8000_0000 * 128 + 96 + msn / 0x100_0000 % 32
  {
    var own := msn % 0x100_0000;
    Parts(msn / 0x2000_0000 * 32 + 31, own);
    Parts(msn / 0x8000_0000 * 128 + 96 + msn / 0x100_0000 % 32, own);
    assert msn % 0x2000_0000 == msn / 0x100_0000 % 32 * 0x100_0000 + own;
  }

  lemma Parts(top: nat, own: nat)
    requires own < 0x100_0000
    ensures (top * 0x100_0000 + own) / 0x100_0000 == top && (top * 0x100_0000 + own) % 0x100_0000 == own
  {
  }

  /** A number in four bytes, the least significant first. */
  lemma ReadLe32(b: seq<Byte>, x: nat)
    requires b == Le32(x) && x < 0x1_0000_0000
    ensures |b| == 4
    ensures (b[3] as int) * 0x100_0000 + (b[2] as int) * 0x1_0000 + (b[1] as int) * 0x100 + (b[0] as int) == x
  {
    var backwards := [b[3], b[2], b[1], b[0]];
    assert backwards == Be32(x) && backwards[0..4] == backwards;
    ReadBe32(backwards, 0, x);
  }

  /** What the CRC of frame f is taken over: eight bytes of ones and everything between the Ethernet header and the last
      four bytes, with ones for the type of service, the time to live, both checksums and the byte in front of the
      queue pair. */
  predicate IcrcInput(f: seq<Byte>, m: seq<Byte>)
    requires |f| >= BODY + ICRC
  {
    && |m| == |f| - 10 && (forall i :: 0 <= i < 8 ==> m[i] == 0xFF)
    && forall i :: 14 <= i < |f| - 4 ==> m[i - 6] == if i in {15, 22, 24, 25, 40, 41, 46} then 0xFF else f[i]
  }

  lemma MaskedAt(p: seq<Byte>, i: nat)
    requires |p| >= IP + UDP + BTH && i < |p|
    ensures Masked(p)[i + 8] == if i in {1, 8, 10, 11, 26, 27, 32} then 0xFF else p[i]
  {
  }

  /** The last four bytes of every frame, least significant first, are its CRC-32. */
  lemma IcrcOfFrame(t: PacketType, data: seq<Byte>, a: Addresses, opcode: Byte, psn: nat, msn: nat)
    returns (m: seq<Byte>)
    requires ValidAddresses(a) && psn < 0x1_0000_0000
    ensures var f := Frame(t, data, a, opcode, psn, msn);
            && IcrcInput(f, m)
            && (f[|f| - 1] as int) * 0x100_0000 + (f[|f| - 2] as int) * 0x1_0000 + (f[|f| - 3] as int) * 0x100
               + (f[|f| - 4] as int) == Crc32.Reference(AsBits(m)) as int
  {
    hide EthHeader, Packet, Le32, Crc32.Reference;
    var p, f := Packet(t, data, a, opcode, psn, msn), Frame(t, data, a, opcode, psn, msn);
    m := Masked(p);
    assert f == EthHeader(a) + p + Le32(Icrc(p));
    assert f[|f| - 4..] == Le32(Icrc(p));
    ReadLe32(f[|f| - 4..], Icrc(p));
    forall i | 14 <= i < |f| - 4
      ensures m[i - 6] == if i in {15, 22, 24, 25, 40, 41, 46} then 0xFF else f[i]
    {
      MaskedAt(p, i - 14);
      assert f[i] == p[i - 14];
    }
  }

  // ----- The IPv4 header of a frame

  /** Only word 5 depends on the checksum. */
  lemma ChecksumIsWordFive(a: Addresses, len: nat, c: nat)
    requires ValidAddresses(a) && c < 0x1_0000
    ensures HalfWords(IpHeader(a, len, c)) == HalfWords(IpHeader(a, len, 0))[Ipv4Checksum.CHECKSUM := c]
  {
    var h, h0 := IpHeader(a, len, c), IpHeader(a, len, 0);
    var w := HalfWords(h0)[Ipv4Checksum.CHECKSUM := c];
    forall i | 0 <= i < 10
      ensures HalfWords(h)[i] == w[i]
    {
      assert h[2 * i] == if i == 5 then c / 256 else h0[2 * i];
      assert h[2 * i + 1] == if i == 5 then c % 256 else h0[2 * i + 1];
    }
  }

  lemma HeaderWords(a: Addresses, len: nat)
    requires ValidAddresses(a)
    ensures var h := HalfWords(IpHeader(a, len, 0));
            && |h| == 10 && h[0] == 0x4500 && h[Ipv4Checksum.CHECKSUM] == 0 && Ipv4Checksum.Words(h[0]) == 10
            && Ipv4Checksum.Cleared(h) == h && Ipv4Checksum.Covered(h) == h
  {
    var h := HalfWords(IpHeader(a, len, 0));
    assert h[..10] == h;
  }

  /** The one's-complement sum of the header of every frame is 0xFFFF. */
  lemma HeaderSumIsAllOnes(a: Addresses, len: nat)
    requires ValidAddresses(a)
    ensures Ipv4Checksum.OnesSum(HalfWords(IpHeader(a, len, HeaderChecksum(a, len)))) == Ipv4Checksum.MAX
  {
    HeaderWords(a, len);
    ChecksumIsWordFive(a, len, HeaderChecksum(a, len));
    StoredIsRight(HalfWords(IpHeader(a, len, 0)), HeaderChecksum(a, len));
  }

  lemma StoredIsRight(h: seq<Ipv4Checksum.Half>, c: Ipv4Checksum.Half)
    requires |h| == 10 && h[0] == 0x4500 && Ipv4Checksum.Words(h[0]) == 10
    requires Ipv4Checksum.Cleared(h) == h && Ipv4Checksum.Covered(h) == h
    requires c == Ipv4Checksum.MAX - Ipv4Checksum.OnesSum(h)
    ensures Ipv4Checksum.OnesSum(h[Ipv4Checksum.CHECKSUM := c]) == Ipv4Checksum.MAX
  {
    Ipv4Checksum.StoredChecksumIsRightIff(h, c);
    assert Ipv4Checksum.Covered(h[Ipv4Checksum.CHECKSUM := c]) == h[Ipv4Checksum.CHECKSUM := c];
  }

  // ----- Writing a frame

  method Put(buf: array<Byte>, at: nat, bytes: seq<Byte>)
    requires at + |bytes| <= buf.Length
    modifies buf
    ensures buf[..at + |bytes|] == old(buf[..at]) + bytes
  {
    for i := 0 to |bytes|
      invariant buf[..at + i] == old(buf[..at]) + bytes[..i]
    {
      buf[at + i] := bytes[i];
    }
    assert bytes[..|bytes|] == bytes;
  }

  /** Whatever happens to be in the checksum field. */
  method HeaderSum(a: Addresses, len: nat, garbage: nat) returns (checksum: Ipv4Checksum.Half)
    requires ValidAddresses(a) && garbage < 0x1_0000
    ensures checksum == HeaderChecksum(a, len)
  {
    var words := HalfWords(IpHeader(a, len, garbage));
    var ip := new Ipv4Checksum.Half[10](i requires 0 <= i < 10 => words[i]);
    ChecksumIsWordFive(a, len, garbage);
    ghost var h := HalfWords(IpHeader(a, len, 0));
    assert ip[..] == words && words[0] == 0x4500 && h[5] == 0;
    assert Ipv4Checksum.Cleared(words) == h;
    assert Ipv4Checksum.Covered(h) == h;
    checksum := Ipv4Checksum.Checksum(ip);
  }

  method BuildPacket(t: PacketType, data: seq<Byte>, a: Addresses, opcode: Byte, psn: nat, msn: nat, garbage: nat)
    returns (p: seq<Byte>)
    requires ValidAddresses(a) && psn < 0x1_0000_0000 && garbage < 0x1_0000
    ensures p == Packet(t, data, a, opcode, psn, msn)
  {
    var body := Body(t, data, msn);
    var len := IP + UDP + BTH + |body| + ICRC;
    var checksum := HeaderSum(a, len, garbage);
    p := IpHeader(a, len, checksum) + UdpHeader(a, len - IP)
         + BthHeader(a, if t == Data then opcode else OPCODE_ACK, if t == Data then WithAckRequest(psn) else psn)
         + body;
  }

  /** `compute_icrc`, by the tables. */
  method ComputeIcrc(p: seq<Byte>, tables: Crc32.Tables) returns (icrc: seq<Byte>)
    requires |p| >= IP + UDP + BTH && tables.Valid() && tables.Filled(8)
    ensures icrc == Le32(Icrc(p))
  {
    var crc := tables.Crc(AsBits(Masked(p)));
    icrc := Le32(crc as int);
  }

  method WriteParts(buf: array<Byte>, eth: seq<Byte>, p: seq<Byte>, icrc: seq<Byte>)
    requires |eth| + |p| + |icrc| <= buf.Length
    modifies buf
    ensures buf[..|eth| + |p| + |icrc|] == eth + p + icrc
  {
    Put(buf, 0, eth);
    Put(buf, |eth|, p);
    Put(buf, |eth| + |p|, icrc);
  }

  method BuildEthPacket(buf: array<Byte>, t: PacketType, data: seq<Byte>, a: Addresses, opcode: Byte, psn: nat,
                        msn: nat, tables: Crc32.Tables) returns (len: nat)
    requires ValidAddresses(a) && psn < 0x1_0000_0000 && buf.Length == BUFFER && FitsBuffer(t, data)
    requires tables.Valid() && tables.Filled(8)
    modifies buf
    ensures len <= BUFFER && buf[..len] == Frame(t, data, a, opcode, psn, msn)
  {
    var p := BuildPacket(t, data, a, opcode, psn, msn, (buf[24] as int) * 256 + buf[25]);
    var icrc := ComputeIcrc(p, tables);
    WriteParts(buf, EthHeader(a), p, icrc);
    len := ETH + |p| + ICRC;
  }
}
