/**
 The three packet layers of the TMP client. Channel names are their UTF-8 bytes;
 CRC-32 is an uninterpreted function.
 */
module Packets {
  import opened Wrappers
  import opened ByteStrings

  type Word = n: nat | n < 0x1_0000_0000

  type Checksum = Bytes -> Word

  const TSLP_HEADER_SIZE := 24
  const TSLP_VERSION := 1
  const TSLP_TYPE_REQUEST := 1
  const TSLP_CHANNEL_BUSINESS := 2
  const TMP_TYPE_DATA := 5
  const TMP_HEADER_SIZE := 16
  const TMP_GENERAL_HEADER_SIZE := 4
  const TMP_MAJOR_VERSION := 2
  const TMP_MINOR_VERSION := 0

  /** `struct.pack('>I', n)`. */
  function PackWord(n: nat): Bytes {
    BigEndian(n, 4)
  }

  lemma PackWordRoundTrip(n: nat)
    requires n < 0x1_0000_0000
    ensures FromBigEndian(PackWord(n)) == n
  {
    assert Pow256(4) == 0x1_0000_0000;
    BigEndianRoundTrip(n, 4);
  }

  lemma BlankSum()
    ensures PackWord(0) == [0, 0, 0, 0]
  {
  }

  predicate IsByte(n: int) {
    0 <= n < 256
  }

  predicate IsWord(n: int) {
    0 <= n < 0x1_0000_0000
  }

  // ------------------------------------------------------------------ TSLP

  datatype Tslp = Tslp(kind: int, channelType: int, channel: Bytes, sequence: int, payload: Bytes)

  const NULS: Bytes := [0, 0, 0, 0, 0, 0, 0, 0]

  /** `_make_channel_bytes`: cut to eight bytes, then padded with NULs. */
  function ChannelBytes(name: Bytes): (s: Bytes)
    ensures |s| == 8
  {
    var cut := Slice(name, 0, 8);
    cut + NULS[|cut|..]
  }

  /** `rstrip(b'\x00')`. */
  function StripNuls(s: Bytes): (r: Bytes)
    ensures r <= s && (r == [] || r[|r| - 1] != 0)
  {
    if s != [] && s[|s| - 1] == 0 then StripNuls(s[..|s| - 1]) else s
  }

  function TslpHeader(p: Tslp): (h: Bytes)
    requires IsByte(p.kind) && IsByte(p.channelType) && IsWord(p.sequence)
    ensures |h| == TSLP_HEADER_SIZE
  {
    [TSLP_VERSION, p.kind, p.channelType, 0] + PackWord(|p.payload|) + ChannelBytes(p.channel)
    + PackWord(p.sequence) + PackWord(0)
  }

  /** `TSLPPacket.encode`: struct.pack rejects fields that do not fit. */
  function EncodeTslp(crc: Checksum, p: Tslp): Result<Bytes> {
    if IsByte(p.kind) && IsByte(p.channelType) && IsWord(p.sequence) && IsWord(|p.payload|) then
      var packet := TslpHeader(p) + p.payload;
      Ok(packet[..20] + PackWord(crc(packet)) + packet[24..])
    else Raised
  }

  /** `TSLPPacket.decode`. */
  function DecodeTslp(data: Bytes): Result<Tslp> {
    if |data| < TSLP_HEADER_SIZE then Raised
    else
      var length := FromBigEndian(data[4..8]);
      Ok(Tslp(data[1], data[2], StripNuls(data[8..16]), FromBigEndian(data[16..20]), Slice(data, 24, 24 + length)))
  }

  /** No decoder looks at the four checksum bytes. */
  lemma TslpIgnoresChecksum(data: Bytes, sum: Bytes)
    requires |data| >= TSLP_HEADER_SIZE && |sum| == 4
    ensures DecodeTslp(data[..20] + sum + data[24..]) == DecodeTslp(data)
  {
    var d := data[..20] + sum + data[24..];
    assert d[4..8] == data[4..8] && d[8..16] == data[8..16] && d[16..20] == data[16..20] && d[24..] == data[24..];
    var n := 24 + FromBigEndian(data[4..8]);
    var hi := if n < |data| then n else |data|;
    if 24 < hi {
      assert d[24..hi] == data[24..hi];
    }
  }

  lemma {:induction false} StripPadding(s: Bytes, nuls: Bytes)
    requires forall i | 0 <= i < |nuls| :: nuls[i] == 0
    ensures StripNuls(s + nuls) == StripNuls(s)
  {
    if nuls == [] {
      assert s + nuls == s;
    } else {
      var init := nuls[..|nuls| - 1];
      var all := s + nuls;
      StripPadding(s, init);
      assert all[|all| - 1] == nuls[|nuls| - 1] == 0;
      assert all[..|all| - 1] == s + init;
    }
  }

  lemma ChannelRoundTrip(name: Bytes)
    ensures StripNuls(ChannelBytes(name)) == StripNuls(Slice(name, 0, 8))
  {
    var cut := Slice(name, 0, 8);
    StripPadding(cut, NULS[|cut|..]);
  }

  /** A name that survives the fixed-width field. */
  predicate FitsChannel(name: Bytes) {
    |name| <= 8 && (name == [] || name[|name| - 1] != 0)
  }

  /** Where the fields of the header lie. */
  lemma Fields(a: Bytes, b: Bytes, c: Bytes, d: Bytes, e: Bytes, rest: Bytes)
    requires |a| == |b| == |d| == |e| == 4 && |c| == 8
    ensures var s := a + b + c + d + e + rest;
            s[..4] == a && s[4..8] == b && s[8..16] == c && s[16..20] == d && s[24..] == rest
  {
  }

  /** What the decoder recovers from any encodable packet. */
  lemma TslpDecodes(crc: Checksum, p: Tslp)
    requires EncodeTslp(crc, p).Ok?
    ensures |EncodeTslp(crc, p).value| == TSLP_HEADER_SIZE + |p.payload|
    ensures DecodeTslp(EncodeTslp(crc, p).value) == Ok(p.(channel := StripNuls(Slice(p.channel, 0, 8))))
    ensures FromBigEndian(EncodeTslp(crc, p).value[4..8]) == |p.payload|
  {
    var packet := TslpHeader(p) + p.payload;
    TslpIgnoresChecksum(packet, PackWord(crc(packet)));
    var e := EncodeTslp(crc, p).value;
    var start := [TSLP_VERSION, p.kind, p.channelType, 0];
    Fields(start, PackWord(|p.payload|), ChannelBytes(p.channel), PackWord(p.sequence), PackWord(0), p.payload);
    assert packet[1] == start[1] && packet[2] == start[2];
    assert e[4..8] == packet[4..8] && packet[24..24 + |p.payload|] == packet[24..];
    PackWordRoundTrip(|p.payload|);
    PackWordRoundTrip(p.sequence);
    ChannelRoundTrip(p.channel);
  }

  lemma ChannelSurvives(name: Bytes)
    ensures StripNuls(Slice(name, 0, 8)) == name <==> FitsChannel(name)
  {
    assert |name| <= 8 ==> Slice(name, 0, 8) == name;
  }

  /** A packet survives encoding and decoding exactly when its channel name fits the field. */
  lemma TslpRoundTrip(crc: Checksum, p: Tslp)
    requires EncodeTslp(crc, p).Ok?
    ensures DecodeTslp(EncodeTslp(crc, p).value) == Ok(p) <==> FitsChannel(p.channel)
  {
    TslpDecodes(crc, p);
    ChannelSurvives(p.channel);
  }

  lemma SumReplaced(head: Bytes, blank: Bytes, sum: Bytes, rest: Bytes)
    requires |blank| == |sum| == 4
    ensures var packet, e := head + blank + rest, head + sum + rest;
            packet[..|head|] + sum + packet[|head| + 4..] == e && e[..|head|] + blank + e[|head| + 4..] == packet
  {
  }

  /** The name filled up with zeros to eight bytes. */
  ghost predicate Pads(padded: Bytes, name: Bytes) {
    |padded| == 8 && forall i | 0 <= i < 8 :: padded[i] == if i < |name| then name[i] else 0
  }

  lemma HeaderLayout(p: Tslp, padded: Bytes)
    requires IsByte(p.kind) && IsByte(p.channelType) && IsWord(p.sequence) && Pads(padded, p.channel)
    ensures TslpHeader(p) == [1, p.kind, p.channelType, 0] + PackWord(|p.payload|) + padded + PackWord(p.sequence) + PackWord(0)
  {
    assert ChannelBytes(p.channel) == padded;
  }

  lemma TslpSum(crc: Checksum, p: Tslp, head: Bytes)
    requires EncodeTslp(crc, p).Ok? && |head| == 20 && TslpHeader(p) == head + PackWord(0)
    ensures EncodeTslp(crc, p).value == head + PackWord(crc(head + PackWord(0) + p.payload)) + p.payload
  {
    SumReplaced(head, PackWord(0), PackWord(crc(head + PackWord(0) + p.payload)), p.payload);
  }

  /** The bytes of an encoded packet; the checksum is that of the packet with zeros in its place. */
  lemma TslpLayout(crc: Checksum, p: Tslp, padded: Bytes)
    requires EncodeTslp(crc, p).Ok? && Pads(padded, p.channel)
    ensures var head := [1, p.kind, p.channelType, 0] + BigEndian(|p.payload|, 4) + padded + BigEndian(p.sequence, 4);
            EncodeTslp(crc, p).value == head + BigEndian(crc(head + [0, 0, 0, 0] + p.payload), 4) + p.payload
  {
    var head: Bytes := [1, p.kind, p.channelType, 0] + PackWord(|p.payload|) + padded + PackWord(p.sequence);
    HeaderLayout(p, padded);
    TslpSum(crc, p, head);
    BlankSum();
  }

  // ------------------------------------------------------------------- TMP

  datatype Tmp = Tmp(major: int, minor: int, kind: int, payload: Bytes, sequence: int, status: int)

  /** A packet as the constructor makes it. */
  function NewTmp(kind: int, payload: Bytes, sequence: int, status: int): Tmp {
    Tmp(TMP_MAJOR_VERSION, TMP_MINOR_VERSION, kind, payload, sequence, status)
  }

  predicate IsAssociation(kind: int) {
    1 <= kind <= 3
  }

  /** `TMPPacket.encode`: association packets are four bytes; the length field keeps 16 bits. */
  function EncodeTmp(crc: Checksum, p: Tmp): Result<Bytes> {
    if !IsByte(p.major) || !IsByte(p.minor) || !IsByte(p.kind) then Raised
    else if IsAssociation(p.kind) then Ok([p.major, p.minor, p.kind, 0])
    else if !IsByte(p.status) || !IsWord(p.sequence) then Raised
    else
      var header: Bytes := [p.major, p.minor, p.kind, 0] + BigEndian(|p.payload| % 0x1_0000, 2) + [p.status, 0]
                           + PackWord(p.sequence) + PackWord(0);
      var packet := header + p.payload;
      Ok(packet[..12] + PackWord(crc(packet)) + packet[16..])
  }

  /** `TMPPacket.decode`. */
  function DecodeTmp(data: Bytes): Result<Tmp> {
    if |data| < TMP_GENERAL_HEADER_SIZE then Raised
    else if IsAssociation(data[2]) then Ok(Tmp(data[0], data[1], data[2], [], 0, 0))
    else if |data| < TMP_HEADER_SIZE then Raised
    else
      var length := FromBigEndian(data[4..6]);
      Ok(Tmp(data[0], data[1], data[2], Slice(data, 16, 16 + length), FromBigEndian(data[8..12]), data[6]))
  }

  lemma TmpIgnoresChecksum(data: Bytes, sum: Bytes)
    requires |data| >= TMP_HEADER_SIZE && |sum| == 4
    ensures DecodeTmp(data[..12] + sum + data[16..]) == DecodeTmp(data)
  {
    var d := data[..12] + sum + data[16..];
    assert d[4..6] == data[4..6] && d[8..12] == data[8..12] && d[16..] == data[16..];
    var n := 16 + FromBigEndian(data[4..6]);
    var hi := if n < |data| then n else |data|;
    if 16 < hi {
      assert d[16..hi] == data[16..hi];
    }
  }

  lemma LengthFieldReads(n: nat)
    ensures FromBigEndian(BigEndian(n % 0x1_0000, 2)) == n % 0x1_0000
  {
    assert Pow256(2) == 0x1_0000;
    BigEndianRoundTrip(n % 0x1_0000, 2);
  }

  lemma TmpFields(a: Bytes, b: Bytes, c: Bytes, d: Bytes, e: Bytes, rest: Bytes)
    requires |a| == |d| == |e| == 4 && |b| == |c| == 2
    ensures var s := a + b + c + d + e + rest;
            s[..4] == a && s[4..6] == b && s[6..8] == c && s[8..12] == d && s[16..] == rest
  {
  }

  lemma TmpPacketDecodes(p: Tmp, packet: Bytes)
    requires IsByte(p.major) && IsByte(p.minor) && IsByte(p.kind) && IsByte(p.status) && IsWord(p.sequence) && !IsAssociation(p.kind)
    requires packet == [p.major, p.minor, p.kind, 0] + BigEndian(|p.payload| % 0x1_0000, 2) + [p.status, 0]
                       + PackWord(p.sequence) + PackWord(0) + p.payload
    ensures DecodeTmp(packet) == Ok(p.(payload := p.payload[..|p.payload| % 0x1_0000]))
  {
    var start: Bytes, n := [p.major, p.minor, p.kind, 0], |p.payload| % 0x1_0000;
    TmpFields(start, BigEndian(n, 2), [p.status, 0], PackWord(p.sequence), PackWord(0), p.payload);
    LengthFieldReads(|p.payload|);
    PackWordRoundTrip(p.sequence);
    assert packet[16..16 + n] == p.payload[..n];
  }

  /** What the decoder recovers: the payload cut to its length modulo 65536. */
  lemma TmpDecodes(crc: Checksum, p: Tmp)
    requires EncodeTmp(crc, p).Ok? && !IsAssociation(p.kind)
    ensures DecodeTmp(EncodeTmp(crc, p).value) == Ok(p.(payload := p.payload[..|p.payload| % 0x1_0000]))
    ensures |EncodeTmp(crc, p).value| == TMP_HEADER_SIZE + |p.payload|
  {
    var packet := [p.major, p.minor, p.kind, 0] + BigEndian(|p.payload| % 0x1_0000, 2) + [p.status, 0]
                  + PackWord(p.sequence) + PackWord(0) + p.payload;
    TmpPacketDecodes(p, packet);
    TmpIgnoresChecksum(packet, PackWord(crc(packet)));
  }

  /** A non-association packet survives exactly when its payload has fewer than 65536 bytes. */
  lemma TmpRoundTrip(crc: Checksum, p: Tmp)
    requires EncodeTmp(crc, p).Ok? && !IsAssociation(p.kind)
    ensures DecodeTmp(EncodeTmp(crc, p).value) == Ok(p) <==> |p.payload| < 0x1_0000
  {
    TmpDecodes(crc, p);
    assert p.payload[..|p.payload| % 0x1_0000] == p.payload <==> |p.payload| % 0x1_0000 == |p.payload|;
  }

  /** The bytes of an encoded packet; the length field keeps 16 bits. */
  lemma TmpLayout(crc: Checksum, p: Tmp)
    requires EncodeTmp(crc, p).Ok? && !(1 <= p.kind <= 3)
    ensures var head := [p.major, p.minor, p.kind, 0] + BigEndian(|p.payload| % 0x1_0000, 2) + [p.status, 0] + BigEndian(p.sequence, 4);
            EncodeTmp(crc, p).value == head + BigEndian(crc(head + [0, 0, 0, 0] + p.payload), 4) + p.payload
  {
    BlankSum();
    var head: Bytes := [p.major, p.minor, p.kind, 0] + BigEndian(|p.payload| % 0x1_0000, 2) + [p.status, 0] + PackWord(p.sequence);
    SumReplaced(head, PackWord(0), PackWord(crc(head + PackWord(0) + p.payload)), p.payload);
  }

  /** An association packet is four bytes, and survives exactly when it carries nothing else. */
  lemma AssociationForgets(crc: Checksum, p: Tmp)
    requires 1 <= p.kind <= 3 && IsByte(p.major) && IsByte(p.minor)
    ensures EncodeTmp(crc, p) == Ok([p.major, p.minor, p.kind, 0])
    ensures DecodeTmp(EncodeTmp(crc, p).value) == Ok(p) <==> p.payload == [] && p.sequence == 0 && p.status == 0
  {
  }

  // -------------------------------------------------------------- business

  datatype Business = Business(kind: int, subkind: int, payload: Bytes)

  function EncodeBusiness(p: Business): Result<Bytes> {
    if IsByte(p.kind) && IsByte(p.subkind) then Ok([p.kind, p.subkind] + p.payload) else Raised
  }

  function DecodeBusiness(data: Bytes): Result<Business> {
    if |data| < 2 then Raised else Ok(Business(data[0], data[1], data[2..]))
  }

  lemma BusinessRoundTrip(p: Business)
    requires EncodeBusiness(p).Ok?
    ensures DecodeBusiness(EncodeBusiness(p).value) == Ok(p)
  {
  }
}
