/** The one's-complement checksum: byte order, 32-bit accumulation and the fold loop. */
module Checksum {
  import opened Arith
  import opened Common

  type Word = x: int | 0 <= x < 0x1_0000 witness 0

  const WRAP32 := 0x1_0000_0000

  /** Swaps the two bytes of a 16-bit value, as the byte-order macro expands. */
  function ChangeEndian16(v: Word): Word { (v % 256) * 256 + (v / 256) % 256 }

  lemma ChangeEndianInvolutive(v: Word)
    ensures ChangeEndian16(ChangeEndian16(v)) == v
  {
  }

  lemma SwapZero(v: Word)
    ensures ChangeEndian16(v) == 0 <==> v == 0
  {
    var hi, lo := v / 256, v % 256;
    assert v == 256 * hi + lo;
  }

  /** A 16-bit field as the machine reads it from memory, low byte first. */
  function LoadWord(b: seq<Byte>, i: nat): Word
    requires i + 1 < |b|
  {
    (b[i] as int) + 256 * (b[i + 1] as int)
  }

  /** The bytes of a 16-bit value stored low byte first. */
  function StoreWord(v: Word): (s: seq<Byte>)
    ensures |s| == 2
  {
    [v % 256, v / 256]
  }

  /** Storing a swapped value and loading and swapping it back is the identity. */
  lemma NetworkOrderRoundTrip(v: Word, rest: seq<Byte>)
    ensures ChangeEndian16(LoadWord(StoreWord(ChangeEndian16(v)) + rest, 0)) == v
    ensures StoreWord(ChangeEndian16(v)) == [v / 256, v % 256]
  {
  }

  /** Sum of the big-endian 16-bit words, an odd last byte padded with zero. */
  ghost function SumWords(b: seq<Byte>): nat {
    if |b| == 0 then 0
    else if |b| == 1 then 256 * b[0]
    else 256 * b[0] + b[1] + SumWords(b[2..])
  }

  lemma {:induction false} SumAppend(a: seq<Byte>, b: seq<Byte>)
    requires |a| % 2 == 0
    ensures SumWords(a + b) == SumWords(a) + SumWords(b)
  {
    if a == [] {
      assert a + b == b;
    } else {
      SumAppend(a[2..], b);
      assert (a + b)[2..] == a[2..] + b;
    }
  }

  lemma {:induction false} SumBound(b: seq<Byte>)
    ensures SumWords(b) <= 0xffff * ((|b| + 1) / 2)
  {
    if |b| > 1 { SumBound(b[2..]); }
  }

  /** The unique folded value: congruent modulo 65535, at most 0xffff, zero only for zero. */
  ghost function Folded(n: nat): (r: Word) {
    if n == 0 then 0 else if n % 0xffff == 0 then 0xffff else n % 0xffff
  }

  /** Moving the high half down takes off a multiple of 65535. */
  lemma FoldStep(c: nat)
    requires c > 0xffff
    ensures var d := c % 0x1_0000 + c / 0x1_0000; 0 < d < c && d % 0xffff == c % 0xffff
  {
    var q := c / 0x1_0000;
    assert c == (c % 0x1_0000 + q) + q * 0xffff;
    ModAddMultiple(c % 0x1_0000 + q, 0xffff, q);
  }

  method Fold(sum: nat) returns (cs: Word)
    requires sum < WRAP32
    ensures cs == Folded(sum)
  {
    var c := sum;
    while c > 0xffff
      invariant 0 <= c <= sum && c % 0xffff == sum % 0xffff && (c == 0 <==> sum == 0)
      decreases c
    {
      FoldStep(c);
      c := c % 0x1_0000 + c / 0x1_0000;
    }
    cs := c;
  }

  /** Adding the complement of the folded sum makes the total fold to all ones. */
  lemma ComplementCancels(n: nat)
    ensures Folded(n + (0xffff - Folded(n))) == 0xffff
    ensures Folded(n) == 0xffff ==> Folded(n + 0xffff) == 0xffff
  {
  }

  lemma SumPair(b: seq<Byte>, i: nat)
    requires i + 1 < |b|
    ensures SumWords([b[i], b[i + 1]]) == ChangeEndian16(LoadWord(b, i))
  {
    assert [b[i], b[i + 1]][2..] == [];
  }

  lemma SumLast(last: Byte)
    ensures SumWords([last]) == ChangeEndian16(last)
  {
  }

  lemma NoWords()
    ensures SumWords([]) == 0
  {
  }

  /** Sum of the words of a buffer, an odd last byte included. */
  method AccumulateWords(b: seq<Byte>, start: nat) returns (cs: nat)
    requires |b| <= 0xffff && start <= 0x8_0000
    ensures cs == start + SumWords(b) && cs < WRAP32
  {
    hide SumWords, ChangeEndian16;
    cs := start;
    var i := 0;
    NoWords();
    assert b[..0] == [];
    while (i + 1) * 2 <= |b|
      invariant 0 <= 2 * i <= |b| && cs == start + SumWords(b[..2 * i]) && cs <= start + 0xffff * i
    {
      var v := ChangeEndian16(LoadWord(b, 2 * i));
      assert b[..2 * (i + 1)] == b[..2 * i] + [b[2 * i], b[2 * i + 1]];
      SumAppend(b[..2 * i], [b[2 * i], b[2 * i + 1]]);
      SumPair(b, 2 * i);
      cs := (cs + v) % WRAP32;
      i := i + 1;
    }
    if |b| % 2 != 0 {
      var last := b[|b| - 1];
      assert b == b[..2 * i] + [last];
      SumAppend(b[..2 * i], [last]);
      SumLast(last);
      cs := (cs + ChangeEndian16(last)) % WRAP32;
    } else {
      assert b[..2 * i] == b;
    }
  }
}

/** A UDP datagram in an IPv4 packet, built and validated byte by byte. */
module UdpIp {
  import opened Common
  import opened Checksum

  const IP_HEADER_SIZE := 20
  const UDP_HEADER_SIZE := 8
  const MAX_UDP_PAYLOAD_SIZE := 65507
  const IP_DATA_PROTOCOL_UDP := 17

  function AddressBytes(a: Address): (s: seq<Byte>)
    ensures |s| == 4
  {
    [a.b0, a.b1, a.b2, a.b3]
  }

  /** The header with a given checksum field; every 16-bit field is stored swapped. */
  function IPHeader(totalLength: Word, protocol: Byte, src: Address, dst: Address, checksum: Word): (h: seq<Byte>)
    ensures |h| == IP_HEADER_SIZE
  {
    [0x45, 0] + StoreWord(ChangeEndian16(totalLength)) + [0, 0, 0x40, 0, 32, protocol]
    + StoreWord(checksum) + AddressBytes(src) + AddressBytes(dst)
  }

  function UDPHeader(srcPort: Word, dstPort: Word, length: Word, checksum: Word): (h: seq<Byte>)
    ensures |h| == UDP_HEADER_SIZE
  {
    StoreWord(ChangeEndian16(srcPort)) + StoreWord(ChangeEndian16(dstPort))
    + StoreWord(ChangeEndian16(length)) + StoreWord(checksum)
  }

  function PacketSize(p: seq<Byte>): nat
    requires |p| >= IP_HEADER_SIZE
  {
    ChangeEndian16(LoadWord(p, 2))
  }

  function HeaderSize(p: seq<Byte>): nat
    requires |p| >= IP_HEADER_SIZE
  {
    4 * (p[0] % 16)
  }

  /** The pseudo header's contribution to the UDP checksum. */
  function PseudoSum(src: Address, dst: Address, protocol: Byte, dataSize: nat): nat {
    ChangeEndian16(src.b0 + 256 * src.b1) + ChangeEndian16(src.b2 + 256 * src.b3)
    + ChangeEndian16(dst.b0 + 256 * dst.b1) + ChangeEndian16(dst.b2 + 256 * dst.b3)
    + protocol + dataSize
  }

  /** It is the word sum of the pseudo header of RFC 768: both addresses, a zero byte, the protocol and the length. */
  lemma PseudoHeaderSum(src: Address, dst: Address, protocol: Byte, dataSize: nat)
    requires dataSize < 0x1_0000
    ensures PseudoSum(src, dst, protocol, dataSize)
            == SumWords(AddressBytes(src) + AddressBytes(dst) + [0, protocol] + [dataSize / 256, dataSize % 256])
  {
    hide SumWords, ChangeEndian16;
    SwapIsBigEndian(0, protocol);
    SwapIsBigEndian(dataSize / 256, dataSize % 256);
    SumPairs(AddressBytes(src));
    SumPairs(AddressBytes(dst));
    SumAppend(AddressBytes(src), AddressBytes(dst));
    SumAppend(AddressBytes(src) + AddressBytes(dst), [0, protocol]);
    SumAppend(AddressBytes(src) + AddressBytes(dst) + [0, protocol], [dataSize / 256, dataSize % 256]);
    SumTwo(0, protocol);
    SumTwo(dataSize / 256, dataSize % 256);
  }

  lemma SwapIsBigEndian(a: int, b: int)
    requires 0 <= a < 256 && 0 <= b < 256
    ensures ChangeEndian16(a + 256 * b) == 256 * a + b
  {
  }

  lemma SumTwo(a: Byte, b: Byte)
    ensures SumWords([a, b]) == ChangeEndian16(a + 256 * b)
  {
    assert [a, b][2..] == [];
  }

  lemma SumPairs(b: seq<Byte>)
    requires |b| == 4
    ensures SumWords(b) == ChangeEndian16(LoadWord(b, 0)) + ChangeEndian16(LoadWord(b, 2))
  {
    hide SumWords, ChangeEndian16;
    assert b == [b[0], b[1]] + [b[2], b[3]];
    SumAppend([b[0], b[1]], [b[2], b[3]]);
    SumTwo(b[0], b[1]);
    SumTwo(b[2], b[3]);
  }

  /** The value stored for a sum: its folded complement, swapped. */
  ghost function ChecksumOf(sum: nat): Word { ChangeEndian16(0xffff - Folded(sum)) }

  lemma ZeroChecksum(sum: nat)
    ensures ChecksumOf(sum) == 0 <==> Folded(sum) == 0xffff
  {
    hide Folded;
    SwapZero(0xffff - Folded(sum));
  }

  method CalculateIPHeaderChecksum(h: seq<Byte>) returns (cs: Word)
    requires |h| <= 60
    ensures cs == ChecksumOf(SumWords(h))
  {
    var sum := AccumulateWords(h, 0);
    var folded := Fold(sum);
    cs := ChangeEndian16(0xffff - folded);
  }

  method CalculateIPDataChecksum(data: seq<Byte>, src: Address, dst: Address, protocol: Byte) returns (cs: Word)
    requires |data| <= 0xffff
    ensures cs == ChecksumOf(PseudoSum(src, dst, protocol, |data|) + SumWords(data))
    ensures cs == ChecksumOf(SumWords(AddressBytes(src) + AddressBytes(dst) + [0, protocol] + [|data| / 256, |data| % 256] + data))
  {
    PseudoHeaderSum(src, dst, protocol, |data|);
    SumAppend(AddressBytes(src) + AddressBytes(dst) + [0, protocol] + [|data| / 256, |data| % 256], data);
    var sum := AccumulateWords(data, PseudoSum(src, dst, protocol, |data|));
    var folded := Fold(sum);
    cs := ChangeEndian16(0xffff - folded);
  }

  /** Builds the packet; the checksum covers the data, so it is computed last. */
  method InitUDPIPPacket(data: seq<Byte>, src: Address, srcPort: Word, dst: Address, dstPort: Word)
    returns (p: seq<Byte>, ipSum: Word, udpSum: Word)
    requires |data| <= MAX_UDP_PAYLOAD_SIZE
    ensures p == IPHeader(28 + |data|, IP_DATA_PROTOCOL_UDP, src, dst, ipSum)
                 + UDPHeader(srcPort, dstPort, 8 + |data|, udpSum) + data
    ensures Folded(SumWords(p[..20])) == 0xffff && udpSum != 0
    ensures Folded(PseudoSum(src, dst, IP_DATA_PROTOCOL_UDP, 8 + |data|) + SumWords(p[20..])) == 0xffff
  {
    hide SumWords, Folded, ChecksumOf, PseudoSum, ChangeEndian16, StoreWord;
    var length := 8 + |data|;
    ipSum := CalculateIPHeaderChecksum(IPHeader(20 + length, IP_DATA_PROTOCOL_UDP, src, dst, 0));
    HeaderSums(20 + length, IP_DATA_PROTOCOL_UDP, src, dst, ipSum);
    var h := IPHeader(20 + length, IP_DATA_PROTOCOL_UDP, src, dst, ipSum);
    udpSum := CalculateIPDataChecksum(UDPHeader(srcPort, dstPort, length, 0) + data, src, dst, IP_DATA_PROTOCOL_UDP);
    if udpSum == 0 { udpSum := 0xffff; }
    DatagramSums(srcPort, dstPort, length, udpSum, data, PseudoSum(src, dst, IP_DATA_PROTOCOL_UDP, length));
    var u := UDPHeader(srcPort, dstPort, length, udpSum);
    p := h + u + data;
    assert p[..20] == h && p[20..] == u + data;
  }

  /** The header's sum is the sum with a zero field plus the field. */
  lemma HeaderSums(total: Word, protocol: Byte, src: Address, dst: Address, checksum: Word)
    ensures SumWords(IPHeader(total, protocol, src, dst, checksum))
            == SumWords(IPHeader(total, protocol, src, dst, 0)) + ChangeEndian16(checksum)
    ensures checksum == ChecksumOf(SumWords(IPHeader(total, protocol, src, dst, 0))) ==>
            Folded(SumWords(IPHeader(total, protocol, src, dst, checksum))) == 0xffff
    ensures SumWords(IPHeader(total, protocol, src, dst, checksum)) > 0
  {
    var pre := [0x45, 0] + StoreWord(ChangeEndian16(total)) + [0, 0, 0x40, 0, 32, protocol];
    var post := AddressBytes(src) + AddressBytes(dst);
    FieldSum(pre, checksum, post);
    FieldSum(pre, 0, post);
    assert IPHeader(total, protocol, src, dst, checksum) == pre + StoreWord(checksum) + post;
    assert IPHeader(total, protocol, src, dst, 0) == pre + StoreWord(0) + post;
    ComplementCancels(SumWords(IPHeader(total, protocol, src, dst, 0)));
    ChangeEndianInvolutive(0xffff - Folded(SumWords(IPHeader(total, protocol, src, dst, 0))));
    assert SumWords(pre) >= 0x4500;
  }

  lemma FieldSum(pre: seq<Byte>, v: Word, post: seq<Byte>)
    requires |pre| % 2 == 0
    ensures SumWords(pre + StoreWord(v) + post) == SumWords(pre) + ChangeEndian16(v) + SumWords(post)
  {
    SumAppend(pre, StoreWord(v));
    SumAppend(pre + StoreWord(v), post);
    assert StoreWord(v)[2..] == [];
  }

  lemma DatagramSums(srcPort: Word, dstPort: Word, length: Word, checksum: Word, data: seq<Byte>, pseudo: nat)
    requires var zero := ChecksumOf(pseudo + SumWords(UDPHeader(srcPort, dstPort, length, 0) + data));
             checksum == if zero == 0 then 0xffff else zero
    ensures checksum != 0
    ensures Folded(pseudo + SumWords(UDPHeader(srcPort, dstPort, length, checksum) + data)) == 0xffff
  {
    var pre := StoreWord(ChangeEndian16(srcPort)) + StoreWord(ChangeEndian16(dstPort)) + StoreWord(ChangeEndian16(length));
    FieldSum(pre, checksum, data);
    FieldSum(pre, 0, data);
    assert UDPHeader(srcPort, dstPort, length, checksum) + data == pre + StoreWord(checksum) + data;
    assert UDPHeader(srcPort, dstPort, length, 0) + data == pre + StoreWord(0) + data;
    NonzeroChecksum(pseudo + SumWords(UDPHeader(srcPort, dstPort, length, 0) + data), checksum);
  }

  /** A zero UDP checksum is sent as all ones, which sums to the same residue. */
  lemma NonzeroChecksum(sum: nat, checksum: Word)
    requires checksum == if ChecksumOf(sum) == 0 then 0xffff else ChecksumOf(sum)
    ensures checksum != 0 && Folded(sum + ChangeEndian16(checksum)) == 0xffff
  {
    ComplementCancels(sum);
    ChangeEndianInvolutive(0xffff - Folded(sum));
  }

  // ---------- the receiving side ----------

  method ValidateIPV4Packet(p: seq<Byte>) returns (ok: bool)
    ensures ok <==> ValidIP(p)
  {
    hide SumWords, Folded, ChecksumOf, ChangeEndian16;
    if |p| < IP_HEADER_SIZE || p[0] / 16 != 4 { return false; }
    var packetSize := PacketSize(p);
    var headerSize := HeaderSize(p);
    if packetSize > |p| { return false; }
    if headerSize < IP_HEADER_SIZE || headerSize > |p| { return false; }
    var cs := CalculateIPHeaderChecksum(p[..headerSize]);
    ZeroChecksum(SumWords(p[..headerSize]));
    return cs == 0;
  }

  ghost predicate ValidIP(p: seq<Byte>) {
    && |p| >= IP_HEADER_SIZE && p[0] / 16 == 4 && PacketSize(p) <= |p|
    && IP_HEADER_SIZE <= HeaderSize(p) <= |p| && Folded(SumWords(p[..HeaderSize(p)])) == 0xffff
  }

  function SourceOf(p: seq<Byte>): Address
    requires |p| >= IP_HEADER_SIZE
  {
    Address(p[12], p[13], p[14], p[15])
  }

  function DestinationOf(p: seq<Byte>): Address
    requires |p| >= IP_HEADER_SIZE
  {
    Address(p[16], p[17], p[18], p[19])
  }

  /** The datagram's checksum covers what the packet says is its data.  Bytes of p behind the packet's own size are
      whatever memory holds there. */
  method ValidateUDPHeader(p: seq<Byte>) returns (ok: bool)
    requires |p| >= IP_HEADER_SIZE && PacketSize(p) <= |p|
    ensures ok <==> ValidUDP(p)
  {
    hide SumWords, Folded, ChecksumOf, ChangeEndian16, PseudoSum;
    if p[9] != IP_DATA_PROTOCOL_UDP { return false; }
    var packetSize, headerSize := PacketSize(p), HeaderSize(p);
    if headerSize + UDP_HEADER_SIZE > packetSize { return false; }
    if ChangeEndian16(LoadWord(p, headerSize + 4)) != packetSize - headerSize { return false; }
    if LoadWord(p, headerSize + 6) == 0 { return true; }
    var cs := CalculateIPDataChecksum(p[headerSize..packetSize], SourceOf(p), DestinationOf(p), p[9]);
    ZeroChecksum(PseudoSum(SourceOf(p), DestinationOf(p), p[9], packetSize - headerSize) + SumWords(p[headerSize..packetSize]));
    return cs == 0;
  }

  ghost predicate ValidUDP(p: seq<Byte>)
    requires |p| >= IP_HEADER_SIZE && PacketSize(p) <= |p|
  {
    var n, h := PacketSize(p), HeaderSize(p);
    && p[9] == IP_DATA_PROTOCOL_UDP && h + UDP_HEADER_SIZE <= n
    && ChangeEndian16(LoadWord(p, h + 4)) == n - h
    && (LoadWord(p, h + 6) == 0 ||
        Folded(PseudoSum(SourceOf(p), DestinationOf(p), p[9], n - h) + SumWords(p[h..n])) == 0xffff)
  }

  /** The payload, truncated to the reader's buffer. */
  function CopyUDPPacketData(p: seq<Byte>, bufferSize: nat): seq<Byte>
    requires |p| >= IP_HEADER_SIZE && PacketSize(p) <= |p| && ValidUDP(p)
  {
    var h := HeaderSize(p);
    var dataSize := ChangeEndian16(LoadWord(p, h + 4)) - UDP_HEADER_SIZE;
    var n := if dataSize < bufferSize then dataSize else bufferSize;
    p[h + 8..h + 8 + n]
  }

  /** Whatever is sent validates at both layers and comes back unchanged, with its ports and addresses. */
  method DatagramRoundTrip(data: seq<Byte>, src: Address, srcPort: Word, dst: Address, dstPort: Word)
    returns (p: seq<Byte>)
    requires |data| <= MAX_UDP_PAYLOAD_SIZE
    ensures ValidIP(p) && PacketSize(p) == |p| && ValidUDP(p)
    ensures forall n: nat :: n >= |data| ==> CopyUDPPacketData(p, n) == data
    ensures forall n: nat :: n < |data| ==> CopyUDPPacketData(p, n) == data[..n]
    ensures SourceOf(p) == src && DestinationOf(p) == dst
    ensures ChangeEndian16(LoadWord(p, 20)) == srcPort && ChangeEndian16(LoadWord(p, 22)) == dstPort
  {
    var ipSum, udpSum;
    p, ipSum, udpSum := InitUDPIPPacket(data, src, srcPort, dst, dstPort);
    Fields(p, 28 + |data|, src, dst, ipSum, srcPort, dstPort, 8 + |data|, udpSum, data);
    assert p[20..|p|] == p[20..];
  }

  lemma Fields(p: seq<Byte>, total: Word, src: Address, dst: Address, ipSum: Word,
               srcPort: Word, dstPort: Word, length: Word, udpSum: Word, data: seq<Byte>)
    requires p == IPHeader(total, IP_DATA_PROTOCOL_UDP, src, dst, ipSum) + UDPHeader(srcPort, dstPort, length, udpSum) + data
    ensures p[0] == 0x45 && p[9] == IP_DATA_PROTOCOL_UDP && PacketSize(p) == total && HeaderSize(p) == 20
    ensures SourceOf(p) == src && DestinationOf(p) == dst
    ensures ChangeEndian16(LoadWord(p, 20)) == srcPort && ChangeEndian16(LoadWord(p, 22)) == dstPort
    ensures ChangeEndian16(LoadWord(p, 24)) == length && LoadWord(p, 26) == udpSum
    ensures p[28..] == data
  {
    hide IPHeader, UDPHeader, ChangeEndian16;
    var h, u := IPHeader(total, IP_DATA_PROTOCOL_UDP, src, dst, ipSum), UDPHeader(srcPort, dstPort, length, udpSum);
    IPFields(total, src, dst, ipSum);
    UDPFields(srcPort, dstPort, length, udpSum);
    assert forall i :: 0 <= i < 20 ==> p[i] == h[i];
    assert forall i :: 20 <= i < 28 ==> p[i] == u[i - 20];
  }

  lemma IPFields(total: Word, src: Address, dst: Address, ipSum: Word)
    ensures var h := IPHeader(total, IP_DATA_PROTOCOL_UDP, src, dst, ipSum);
            && |h| == 20 && h[0] == 0x45 && h[9] == IP_DATA_PROTOCOL_UDP && ChangeEndian16(LoadWord(h, 2)) == total
            && SourceOf(h) == src && DestinationOf(h) == dst
  {
    NetworkOrderRoundTrip(total, []);
  }

  lemma UDPFields(srcPort: Word, dstPort: Word, length: Word, udpSum: Word)
    ensures var u := UDPHeader(srcPort, dstPort, length, udpSum);
            && |u| == 8 && ChangeEndian16(LoadWord(u, 0)) == srcPort && ChangeEndian16(LoadWord(u, 2)) == dstPort
            && ChangeEndian16(LoadWord(u, 4)) == length && LoadWord(u, 6) == udpSum
  {
    NetworkOrderRoundTrip(srcPort, []);
    NetworkOrderRoundTrip(dstPort, []);
    NetworkOrderRoundTrip(length, []);
  }
}
