/** Packet framing on bytes: round trips, canonicity, error detection and batches. */
module BinaryProtocol {
  import opened Common

  type Byte = n: int | 0 <= n < 256

  const HEADER_SIZE := 13
  const VERSION: Byte := 1
  const BATCH: Byte := 8
  const MAGIC: seq<Byte> := [0x53, 0x45, 0x4E, 0x47]
  const TWO_16 := 0x1_0000

  datatype Packet = Packet(kind: Byte, id: nat, payload: seq<Byte>)

  // ---------- numbers on the wire ----------

  function UInt16(n: nat): (s: seq<Byte>)
    requires n < TWO_16
    ensures |s| == 2
  {
    [n / 256, n % 256]
  }

  function UInt32(n: nat): (s: seq<Byte>)
    requires n < TWO_32
    ensures |s| == 4
  {
    UInt16(n / TWO_16) + UInt16(n % TWO_16)
  }

  function ReadUInt16(s: seq<Byte>): (n: nat)
    requires |s| == 2
    ensures n < TWO_16
  {
    (s[0] as int) * 256 + s[1] as int
  }

  function ReadUInt32(s: seq<Byte>): (n: nat)
    requires |s| == 4
    ensures n < TWO_32
  {
    TWO_16 * ReadUInt16(s[..2]) + ReadUInt16(s[2..])
  }

  lemma {:induction false} UInt16Inverse(n: nat, s: seq<Byte>)
    requires n < TWO_16 && |s| == 2
    ensures ReadUInt16(s) == n <==> s == UInt16(n)
  {
  }

  /** Reading and writing a 32-bit number are inverse in both directions. */
  lemma {:induction false} UInt32Inverse(n: nat, s: seq<Byte>)
    requires n < TWO_32 && |s| == 4
    ensures ReadUInt32(s) == n <==> s == UInt32(n)
  {
    UInt16Inverse(n / TWO_16, s[..2]);
    UInt16Inverse(n % TWO_16, s[2..]);
    assert s == s[..2] + s[2..];
    assert UInt32(n)[..2] == UInt16(n / TWO_16) && UInt32(n)[2..] == UInt16(n % TWO_16);
  }

  // ---------- packets ----------

  function Sum(s: seq<Byte>): nat {
    if s == [] then 0 else Sum(s[..|s| - 1]) + s[|s| - 1]
  }

  function Checksum(s: seq<Byte>): Byte {
    Sum(s) % 256
  }

  function Header(p: Packet): (s: seq<Byte>)
    requires p.id < TWO_16 && |p.payload| < TWO_32
    ensures |s| == HEADER_SIZE
  {
    MAGIC + [VERSION, p.kind] + UInt16(p.id) + UInt32(|p.payload|) + [Checksum(p.payload)]
  }

  predicate Encodable(p: Packet) {
    p.id < TWO_16 && |p.payload| < TWO_32
  }

  function Frame(p: Packet): seq<Byte>
    requires Encodable(p)
  {
    Header(p) + p.payload
  }

  /** The fields are read at fixed offsets; bytes after the payload are ignored. */
  function Decode(data: seq<Byte>): Option<Packet> {
    if |data| < HEADER_SIZE then None
    else if data[..4] != MAGIC then None
    else if data[4] != VERSION then None
    else
      var length := ReadUInt32(data[8..12]);
      if |data| < HEADER_SIZE + length then None
      else
        var payload := data[HEADER_SIZE..HEADER_SIZE + length];
        if data[12] != Checksum(payload) then None
        else Some(Packet(data[5], ReadUInt16(data[6..8]), payload))
  }

  lemma {:induction false} HeaderFields(p: Packet, rest: seq<Byte>)
    requires Encodable(p)
    ensures var d := Header(p) + rest;
            && d[..4] == MAGIC && d[4] == VERSION && d[5] == p.kind && d[6..8] == UInt16(p.id)
            && d[8..12] == UInt32(|p.payload|) && d[12] == Checksum(p.payload) && d[13..] == rest
  {
  }

  /** The checksum is the sum of all payload bytes: nothing for none, itself for one, and it adds up. */
  lemma {:induction false} SumOfBytes(s: seq<Byte>, b: Byte)
    ensures Sum([]) == 0 && Sum(s + [b]) == Sum(s) + b
  {
    assert (s + [b])[..|s|] == s;
  }

  /** The header byte by byte: "SENG", version 1, the type, the id and the length with the high byte first,
      the payload's byte sum modulo 256; then the payload. */
  lemma {:induction false} FrameLayout(p: Packet)
    requires Encodable(p)
    ensures var f := Frame(p);
            && |f| == 13 + |p.payload| && f[13..] == p.payload
            && f[0] == 0x53 && f[1] == 0x45 && f[2] == 0x4E && f[3] == 0x47
            && f[4] == 1 && f[5] == p.kind
            && (f[6] as int) * 256 + f[7] as int == p.id
            && (f[8] as int) * 0x100_0000 + (f[9] as int) * 0x1_0000 + (f[10] as int) * 256 + f[11] as int
               == |p.payload|
            && f[12] == Sum(p.payload) % 256
  {
    HeaderFields(p, p.payload);
    var f := Frame(p);
    BigEndian(|p.payload|);
    assert f[8..12][0] == f[8] && f[8..12][1] == f[9] && f[8..12][2] == f[10] && f[8..12][3] == f[11];
    assert f[6..8][0] == f[6] && f[6..8][1] == f[7];
    assert f[..4][0] == f[0] && f[..4][1] == f[1] && f[..4][2] == f[2] && f[..4][3] == f[3];
  }

  /** Numbers travel with the high byte first. */
  lemma {:induction false} BigEndian(n: nat)
    requires n < TWO_32
    ensures var s := UInt32(n);
            (s[0] as int) * 0x100_0000 + (s[1] as int) * 0x1_0000 + (s[2] as int) * 256 + s[3] as int == n
  {
    var high, low := n / TWO_16, n % TWO_16;
    assert n == TWO_16 * high + low;
    assert high == 256 * (high / 256) + high % 256 && low == 256 * (low / 256) + low % 256;
  }

  /** Decoding succeeds with a packet exactly when the data begins with that packet's encoding. */
  lemma {:induction false} DecodeIffFramed(data: seq<Byte>, p: Packet)
    requires Encodable(p)
    ensures Decode(data) == Some(p) <==> Frame(p) <= data
  {
    if Frame(p) <= data {
      var rest := data[|Frame(p)|..];
      assert data == Frame(p) + rest == Header(p) + (p.payload + rest);
      HeaderFields(p, p.payload + rest);
      UInt16Inverse(p.id, data[6..8]);
      UInt32Inverse(|p.payload|, data[8..12]);
    }
    if Decode(data) == Some(p) {
      UInt16Inverse(p.id, data[6..8]);
      UInt32Inverse(|p.payload|, data[8..12]);
      assert data == data[..4] + [data[4], data[5]] + data[6..8] + data[8..12] + [data[12]] + data[13..];
      assert data == Header(p) + data[13..];
      assert data[13..] == p.payload + data[HEADER_SIZE + |p.payload|..];
    }
  }

  lemma {:induction false} DecodeEncodable(data: seq<Byte>)
    ensures Decode(data).Some? ==> Encodable(Decode(data).value)
  {
  }

  // ---------- error detection ----------

  lemma {:induction false} SumChange(s: seq<Byte>, i: nat, b: Byte)
    requires i < |s|
    ensures Sum(s[i := b]) == Sum(s) - s[i] + b
  {
    var t := s[i := b];
    if i == |s| - 1 {
      assert t[..|t| - 1] == s[..|s| - 1];
    } else {
      assert t[..|t| - 1] == s[..|s| - 1][i := b];
      SumChange(s[..|s| - 1], i, b);
    }
  }

  lemma {:induction false} SumConcat(s: seq<Byte>, t: seq<Byte>)
    ensures Sum(s + t) == Sum(s) + Sum(t)
  {
    if t == [] {
      assert s + t == s;
    } else {
      assert (s + t)[..|s + t| - 1] == s + t[..|t| - 1];
      SumConcat(s, t[..|t| - 1]);
    }
  }

  /** The bytes a shorter length field cuts off leave the checksum as it was. */
  predicate CutUnnoticed(payload: seq<Byte>, length: nat) {
    length <= |payload| && Sum(payload[length..]) % 256 == 0
  }

  lemma {:induction false} ModCancel(a: nat, b: nat)
    ensures a % 256 == (a + b) % 256 <==> b % 256 == 0
  {
  }

  lemma {:induction false} CutChecksum(payload: seq<Byte>, length: nat)
    requires length <= |payload|
    ensures Checksum(payload[..length]) == Checksum(payload) <==> Sum(payload[length..]) % 256 == 0
  {
    assert payload == payload[..length] + payload[length..];
    SumConcat(payload[..length], payload[length..]);
    ModCancel(Sum(payload[..length]), Sum(payload[length..]));
  }

  /** Changing one byte of a packet goes undetected exactly when it is the type or id, or shortens the
      length field over a tail whose bytes sum to a multiple of 256; any changed payload byte is caught. */
  lemma {:induction false} SingleByteError(p: Packet, i: nat, b: Byte)
    requires Encodable(p) && i < |Frame(p)| && Frame(p)[i] != b
    ensures Decode(Frame(p)[i := b]).Some? <==>
            || 5 <= i < 8
            || (8 <= i < 12 && CutUnnoticed(p.payload, ReadUInt32(UInt32(|p.payload|)[i - 8 := b])))
  {
    var f := Frame(p);
    var d := f[i := b];
    HeaderFields(p, p.payload);
    UInt32Inverse(|p.payload|, UInt32(|p.payload|));
    if i < 4 {
      assert d[..4][i] == b != MAGIC[i];
    } else if i == 12 || (5 <= i < 8) {
      assert d[..4] == MAGIC && d[8..12] == f[8..12] && d[13..] == p.payload;
      assert d[HEADER_SIZE..HEADER_SIZE + |p.payload|] == p.payload;
    } else if 8 <= i < 12 {
      LengthError(p, i, b);
    } else if i >= 13 {
      PayloadError(d, p, i, b);
    }
  }

  lemma {:induction false} PayloadError(d: seq<Byte>, p: Packet, i: nat, b: Byte)
    requires Encodable(p) && 13 <= i < |Frame(p)| && Frame(p)[i] != b && d == Frame(p)[i := b]
    ensures Decode(d) == None
  {
    DecodeIffFramed(Frame(p), p);
    PayloadErrorCaught(Frame(p), i, b);
  }

  lemma {:induction false} ByteShift(sum: nat, before: Byte, after: Byte)
    requires before != after && sum >= before
    ensures (sum - before + after) % 256 != sum % 256
  {
    var moved := sum - before + after;
    assert sum == 256 * (sum / 256) + sum % 256 && moved == 256 * (moved / 256) + moved % 256;
  }

  lemma {:induction false} LengthError(p: Packet, i: nat, b: Byte)
    requires Encodable(p) && 8 <= i < 12 && Frame(p)[i] != b
    ensures Decode(Frame(p)[i := b]).Some? <==> CutUnnoticed(p.payload, ReadUInt32(UInt32(|p.payload|)[i - 8 := b]))
  {
    var f := Frame(p);
    var d := f[i := b];
    HeaderFields(p, p.payload);
    var length := ReadUInt32(UInt32(|p.payload|)[i - 8 := b]);
    assert d[..4] == f[..4] && d[8..12] == UInt32(|p.payload|)[i - 8 := b] && d[13..] == p.payload;
    if length <= |p.payload| {
      assert d[HEADER_SIZE..HEADER_SIZE + length] == p.payload[..length];
      CutChecksum(p.payload, length);
    }
  }

  /** Trailing bytes do not weaken it: a changed payload byte inside longer data is still caught. */
  lemma {:induction false} PayloadErrorCaught(data: seq<Byte>, i: nat, b: Byte)
    requires Decode(data).Some? && 13 <= i < 13 + |Decode(data).value.payload| && data[i] != b
    ensures Decode(data[i := b]) == None
  {
    var d, p := data[i := b], Decode(data).value;
    assert d[..4] == data[..4] && d[8..12] == data[8..12];
    assert d[HEADER_SIZE..HEADER_SIZE + |p.payload|] == p.payload[i - 13 := b];
    SumChange(p.payload, i - 13, b);
    SumMember(p.payload, i - 13);
    ByteShift(Sum(p.payload), p.payload[i - 13], b);
  }

  lemma {:induction false} SumMember(s: seq<Byte>, i: nat)
    requires i < |s|
    ensures Sum(s) >= s[i]
  {
    if i < |s| - 1 {
      SumMember(s[..|s| - 1], i);
    }
  }

  // ---------- batches ----------

  predicate AllEncodable(packets: seq<Packet>) {
    forall i :: 0 <= i < |packets| ==> Encodable(packets[i]) && |Frame(packets[i])| < TWO_32
  }

  function Chunk(p: Packet): seq<Byte>
    requires Encodable(p) && |Frame(p)| < TWO_32
  {
    UInt32(|Frame(p)|) + Frame(p)
  }

  /** A batch's payload: every frame behind its length. */
  function Body(packets: seq<Packet>): seq<Byte>
    requires AllEncodable(packets)
  {
    if packets == [] then [] else Chunk(packets[0]) + Body(packets[1..])
  }

  function DecodeBatch(payload: seq<Byte>): seq<Packet> {
    if |payload| < 4 then []
    else
      var length := ReadUInt32(payload[..4]);
      if 4 + length > |payload| then []
      else
        var packet := Decode(payload[4..4 + length]);
        (if packet.Some? then [packet.value] else []) + DecodeBatch(payload[4 + length..])
  }

  /** The number of packets whose frames lie wholly within the first `n` bytes. */
  function Whole(packets: seq<Packet>, n: nat): (k: nat)
    requires AllEncodable(packets)
    ensures k <= |packets|
  {
    if packets == [] then 0
    else
      var size := 4 + |Frame(packets[0])|;
      if n < size then 0 else 1 + Whole(packets[1..], n - size)
  }

  lemma {:induction false} WholeIsLargest(packets: seq<Packet>, n: nat)
    requires AllEncodable(packets)
    ensures |Body(packets[..Whole(packets, n)])| <= n
    ensures Whole(packets, n) < |packets| ==> |Body(packets[..Whole(packets, n) + 1])| > n
  {
    if packets != [] {
      var size := 4 + |Frame(packets[0])|;
      if n >= size {
        var k := Whole(packets[1..], n - size);
        WholeIsLargest(packets[1..], n - size);
        assert packets[..k + 1][1..] == packets[1..][..k];
        assert k + 1 < |packets| ==> packets[..k + 2][1..] == packets[1..][..k + 1];
      } else {
        assert packets[..1][1..] == [] && packets[..0] == [];
      }
    }
  }

  lemma {:induction false} WholeStep(packets: seq<Packet>, n: nat)
    requires AllEncodable(packets) && packets != []
    ensures var size := 4 + |Frame(packets[0])|;
            packets[..Whole(packets, n)] ==
            if n < size then [] else [packets[0]] + packets[1..][..Whole(packets[1..], n - size)]
  {
  }

  lemma {:induction false} FramedStep(p: Packet, rest: seq<Byte>)
    requires Encodable(p) && |Frame(p)| < TWO_32
    ensures DecodeBatch(Chunk(p) + rest) == [p] + DecodeBatch(rest)
  {
    var frame := Frame(p);
    var data := Chunk(p) + rest;
    assert data[..4] == UInt32(|frame|) && data[4..4 + |frame|] == frame && data[4 + |frame|..] == rest;
    UInt32Inverse(|frame|, data[..4]);
    DecodeIffFramed(frame, p);
  }

  /** In a batch every frame stands behind its length, high byte first. */
  lemma {:induction false} ChunkLayout(p: Packet)
    requires Encodable(p) && |Frame(p)| < TWO_32
    ensures var c := Chunk(p);
            && c[4..] == Frame(p)
            && (c[0] as int) * 0x100_0000 + (c[1] as int) * 0x1_0000 + (c[2] as int) * 256 + c[3] as int == |Frame(p)|
  {
    BigEndian(|Frame(p)|);
  }

  lemma {:induction false} CutStep(p: Packet, data: seq<Byte>)
    requires Encodable(p) && |Frame(p)| < TWO_32 && |data| < 4 + |Frame(p)|
    requires data <= Chunk(p)
    ensures DecodeBatch(data) == []
  {
    if |data| >= 4 {
      assert data[..4] == UInt32(|Frame(p)|);
      UInt32Inverse(|Frame(p)|, data[..4]);
    }
  }

  /** Decoding any prefix of a batch payload yields exactly the packets wholly contained in it. */
  lemma {:induction false} DecodeBatchPrefix(packets: seq<Packet>, n: nat)
    requires AllEncodable(packets) && n <= |Body(packets)|
    ensures DecodeBatch(Body(packets)[..n]) == packets[..Whole(packets, n)]
  {
    if packets != [] {
      var first, rest := Chunk(packets[0]), Body(packets[1..]);
      assert Body(packets) == first + rest;
      if n < |first| {
        assert (first + rest)[..n] == first[..n];
        CutStep(packets[0], first[..n]);
        WholeStep(packets, n);
      } else {
        assert (first + rest)[..n] == first + rest[..n - |first|];
        FramedStep(packets[0], rest[..n - |first|]);
        DecodeBatchPrefix(packets[1..], n - |first|);
        WholeStep(packets, n);
      }
    }
  }

  lemma {:induction false} WholeAll(packets: seq<Packet>)
    requires AllEncodable(packets)
    ensures Whole(packets, |Body(packets)|) == |packets|
  {
    if packets != [] {
      WholeAll(packets[1..]);
    }
  }

  /** The batch round trip. */
  lemma {:induction false} BatchRoundTrip(packets: seq<Packet>)
    requires AllEncodable(packets)
    ensures DecodeBatch(Body(packets)) == packets
  {
    DecodeBatchPrefix(packets, |Body(packets)|);
    WholeAll(packets);
    assert Body(packets)[..|Body(packets)|] == Body(packets) && packets[..|packets|] == packets;
  }

  /** The packets a list of messages becomes when numbering continues after `last`. */
  function Numbered(messages: seq<(Byte, seq<Byte>)>, last: nat): (r: seq<Packet>)
    ensures |r| == |messages|
    ensures forall i :: 0 <= i < |r| ==>
              r[i].kind == messages[i].0 && r[i].payload == messages[i].1 && r[i].id == (last + 1 + i) % TWO_16
  {
    if messages == [] then []
    else Numbered(messages[..|messages| - 1], last)
         + [Packet(messages[|messages| - 1].0, (last + |messages|) % TWO_16, messages[|messages| - 1].1)]
  }

  /** Payloads and their frames fit the 32-bit length fields. */
  predicate Sendable(messages: seq<(Byte, seq<Byte>)>) {
    forall i :: 0 <= i < |messages| ==> |messages[i].1| + HEADER_SIZE < TWO_32
  }

  lemma {:induction false} NextId(n: nat)
    ensures (n % TWO_16 + 1) % TWO_16 == (n + 1) % TWO_16
  {
    if n % TWO_16 + 1 < TWO_16 {
      assert n + 1 == TWO_16 * (n / TWO_16) + (n % TWO_16 + 1);
    } else {
      assert n + 1 == TWO_16 * (n / TWO_16 + 1);
    }
  }

  // ---------- the encoder and decoder ----------

  class BinaryProtocol {
    var sequenceId: nat

    ghost predicate Valid()
      reads this
    {
      sequenceId < TWO_16
    }

    constructor ()
      ensures Valid() && sequenceId == 0
    {
      sequenceId := 0;
    }

    method NextSequence() returns (id: nat)
      requires Valid()
      modifies this
      ensures Valid() && id == sequenceId == (old(sequenceId) + 1) % TWO_16
    {
      sequenceId := (sequenceId + 1) % TWO_16;
      return sequenceId;
    }

    method ComputeChecksum(data: seq<Byte>) returns (sum: Byte)
      ensures sum == Checksum(data)
    {
      sum := 0;
      for i := 0 to |data|
        invariant sum == Checksum(data[..i])
      {
        assert data[..i + 1][..i] == data[..i];
        sum := (sum + data[i]) % 256;
      }
      assert data[..|data|] == data;
    }

    method WriteBytes(buffer: array<Byte>, offset: nat, bytes: seq<Byte>)
      requires offset + |bytes| <= buffer.Length
      modifies buffer
      ensures buffer[..] == old(buffer[..offset]) + bytes + old(buffer[offset + |bytes|..])
    {
      for i := 0 to |bytes|
        invariant buffer[..offset] == old(buffer[..offset])
        invariant buffer[offset..offset + i] == bytes[..i]
        invariant buffer[offset + |bytes|..] == old(buffer[offset + |bytes|..])
      {
        buffer[offset + i] := bytes[i];
        assert buffer[offset..offset + i + 1] == buffer[offset..offset + i] + [bytes[i]];
      }
      assert bytes[..|bytes|] == bytes;
      assert buffer[..] == buffer[..offset] + buffer[offset..offset + |bytes|] + buffer[offset + |bytes|..];
    }

    /** Fields are written one after the other at a moving offset. */
    method Encode(kind: Byte, payload: seq<Byte>) returns (packet: array<Byte>)
      requires Valid() && |payload| < TWO_32
      modifies this
      ensures Valid() && fresh(packet) && sequenceId == (old(sequenceId) + 1) % TWO_16
      ensures packet[..] == Frame(Packet(kind, sequenceId, payload))
    {
      packet := new Byte[HEADER_SIZE + |payload|];
      var offset := 0;
      WriteBytes(packet, offset, MAGIC);
      offset := offset + 4;
      WriteBytes(packet, offset, [VERSION]);
      offset := offset + 1;
      WriteBytes(packet, offset, [kind]);
      offset := offset + 1;
      assert packet[..6] == MAGIC + [VERSION, kind];
      var id := NextSequence();
      WriteBytes(packet, offset, UInt16(id));
      offset := offset + 2;
      assert packet[..8] == MAGIC + [VERSION, kind] + UInt16(id);
      WriteBytes(packet, offset, UInt32(|payload|));
      offset := offset + 4;
      assert packet[..12] == MAGIC + [VERSION, kind] + UInt16(id) + UInt32(|payload|);
      var checksum := ComputeChecksum(payload);
      WriteBytes(packet, offset, [checksum]);
      offset := offset + 1;
      assert packet[..13] == Header(Packet(kind, id, payload));
      WriteBytes(packet, offset, payload);
    }

    method DecodePacket(data: seq<Byte>) returns (packet: Option<Packet>)
      ensures packet == Decode(data)
    {
      if |data| < HEADER_SIZE {
        return None;
      }
      var offset := 0;
      var magic := data[offset..offset + 4];
      offset := offset + 4;
      if magic != MAGIC {
        return None;
      }
      var version := data[offset];
      offset := offset + 1;
      if version != VERSION {
        return None;
      }
      var kind := data[offset];
      offset := offset + 1;
      var id := ReadUInt16(data[offset..offset + 2]);
      offset := offset + 2;
      var payloadLength := ReadUInt32(data[offset..offset + 4]);
      offset := offset + 4;
      var checksum := data[offset];
      offset := offset + 1;
      if |data| < HEADER_SIZE + payloadLength {
        return None;
      }
      var payload := data[offset..offset + payloadLength];
      var computed := ComputeChecksum(payload);
      if checksum != computed {
        return None;
      }
      return Some(Packet(kind, id, payload));
    }

    method EncodeAll(messages: seq<(Byte, seq<Byte>)>) returns (encoded: seq<seq<Byte>>)
      requires Valid() && Sendable(messages)
      modifies this
      ensures Valid() && sequenceId == (old(sequenceId) + |messages|) % TWO_16 && |encoded| == |messages|
      ensures var packets := Numbered(messages, old(sequenceId));
              AllEncodable(packets) && forall i :: 0 <= i < |encoded| ==> encoded[i] == Frame(packets[i])
    {
      ghost var packets := Numbered(messages, sequenceId);
      encoded := [];
      for i := 0 to |messages|
        invariant Valid() && sequenceId == (old(sequenceId) + i) % TWO_16 && |encoded| == i
        invariant forall j :: 0 <= j < i ==> encoded[j] == Frame(packets[j])
      {
        NextId(old(sequenceId) + i);
        var packet := Encode(messages[i].0, messages[i].1);
        assert packets[i] == Packet(messages[i].0, sequenceId, messages[i].1);
        encoded := encoded + [packet[..]];
      }
    }

    /** The frames of the messages, each behind its length, framed once more as a batch. */
    method EncodeBatch(messages: seq<(Byte, seq<Byte>)>) returns (data: array<Byte>)
      requires Valid() && Sendable(messages)
      requires |Body(Numbered(messages, sequenceId))| < TWO_32
      modifies this
      ensures Valid() && sequenceId == (old(sequenceId) + |messages| + 1) % TWO_16
      ensures var packets := Numbered(messages, old(sequenceId));
              AllEncodable(packets) && data[..] == Frame(Packet(8, sequenceId, Body(packets)))
    {
      var encoded := EncodeAll(messages);
      var batch := AssembleBatch(encoded, Numbered(messages, old(sequenceId)));
      NextId(old(sequenceId) + |messages|);
      data := Encode(BATCH, batch[..]);
    }

    method TotalLength(encoded: seq<seq<Byte>>, ghost packets: seq<Packet>) returns (totalLength: nat)
      requires AllEncodable(packets) && |encoded| == |packets|
      requires forall i :: 0 <= i < |encoded| ==> encoded[i] == Frame(packets[i])
      ensures totalLength == |Body(packets)|
    {
      totalLength := 0;
      for i := 0 to |encoded|
        invariant totalLength == |Body(packets[..i])|
      {
        BodyNext(packets, i);
        totalLength := totalLength + |encoded[i]| + 4;
      }
      assert packets[..|packets|] == packets;
    }

    method AssembleBatch(encoded: seq<seq<Byte>>, ghost packets: seq<Packet>) returns (batch: array<Byte>)
      requires AllEncodable(packets) && |encoded| == |packets|
      requires forall i :: 0 <= i < |encoded| ==> encoded[i] == Frame(packets[i])
      ensures fresh(batch) && batch[..] == Body(packets)
    {
      var totalLength := TotalLength(encoded, packets);
      batch := new Byte[totalLength];
      var offset := 0;
      for i := 0 to |encoded|
        invariant offset == |Body(packets[..i])| <= batch.Length == |Body(packets)|
        invariant batch[..offset] == Body(packets[..i])
      {
        BodyNext(packets, i);
        BodyBounded(packets, i + 1);
        offset := WriteChunk(batch, offset, encoded[i], packets[i]);
      }
      assert packets[..|packets|] == packets;
    }

    method WriteChunk(batch: array<Byte>, start: nat, frame: seq<Byte>, ghost p: Packet) returns (offset: nat)
      requires Encodable(p) && frame == Frame(p) && |frame| < TWO_32 && start + 4 + |frame| <= batch.Length
      modifies batch
      ensures offset == start + |Chunk(p)| && batch[..offset] == old(batch[..start]) + Chunk(p)
    {
      offset := start;
      WriteBytes(batch, offset, UInt32(|frame|));
      offset := offset + 4;
      assert batch[..offset] == old(batch[..start]) + UInt32(|frame|);
      WriteBytes(batch, offset, frame);
      offset := offset + |frame|;
      assert batch[..offset] == old(batch[..start]) + UInt32(|frame|) + frame;
    }

    /** The length in front of the next chunk, unless the chunk is incomplete. */
    method ChunkLength(batchPayload: seq<Byte>, offset: nat) returns (length: Option<nat>)
      requires offset <= |batchPayload|
      ensures length.None? ==> DecodeBatch(batchPayload[offset..]) == []
      ensures length.Some? ==> offset + 4 + length.value <= |batchPayload|
                               && length.value == ReadUInt32(batchPayload[offset..offset + 4])
    {
      if offset + 4 > |batchPayload| {
        BatchStops(batchPayload, offset);
        return None;
      }
      var packetLength := ReadUInt32(batchPayload[offset..offset + 4]);
      if offset + 4 + packetLength > |batchPayload| {
        BatchStops(batchPayload, offset);
        return None;
      }
      return Some(packetLength);
    }

    method DecodeNext(batchPayload: seq<Byte>, offset: nat) returns (found: seq<Packet>, next: nat, done: bool)
      requires offset <= |batchPayload|
      ensures done ==> DecodeBatch(batchPayload[offset..]) == []
      ensures !done ==> offset < next <= |batchPayload|
      ensures !done ==> DecodeBatch(batchPayload[offset..]) == found + DecodeBatch(batchPayload[next..])
    {
      var length := ChunkLength(batchPayload, offset);
      if length.None? {
        return [], offset, true;
      }
      BatchGoesOn(batchPayload, offset, length.value);
      next := offset + 4 + length.value;
      var packet := DecodePacket(batchPayload[offset + 4..next]);
      found := if packet.Some? then [packet.value] else [];
      done := false;
    }

    method DecodeBatchPayload(batchPayload: seq<Byte>) returns (packets: seq<Packet>)
      ensures packets == DecodeBatch(batchPayload)
    {
      packets := [];
      var offset := 0;
      ghost var rest := DecodeBatch(batchPayload);
      assert batchPayload[0..] == batchPayload;
      while offset < |batchPayload|
        invariant 0 <= offset <= |batchPayload|
        invariant rest == DecodeBatch(batchPayload[offset..]) && DecodeBatch(batchPayload) == packets + rest
      {
        var found, next, done := DecodeNext(batchPayload, offset);
        if done {
          return;
        }
        ghost var after := DecodeBatch(batchPayload[next..]);
        assert packets + (found + after) == (packets + found) + after;
        packets, offset, rest := packets + found, next, after;
      }
    }
  }

  lemma {:induction false} BatchStops(payload: seq<Byte>, offset: nat)
    requires offset <= |payload|
    requires offset + 4 > |payload| || offset + 4 + ReadUInt32(payload[offset..offset + 4]) > |payload|
    ensures DecodeBatch(payload[offset..]) == []
  {
    var rest := payload[offset..];
    if |rest| >= 4 {
      assert rest[..4] == payload[offset..offset + 4];
    }
  }

  lemma {:induction false} BatchGoesOn(payload: seq<Byte>, offset: nat, length: nat)
    requires offset + 4 + length <= |payload| && length == ReadUInt32(payload[offset..offset + 4])
    ensures var packet := Decode(payload[offset + 4..offset + 4 + length]);
            DecodeBatch(payload[offset..]) ==
            (if packet.Some? then [packet.value] else []) + DecodeBatch(payload[offset + 4 + length..])
  {
    var rest := payload[offset..];
    assert rest[..4] == payload[offset..offset + 4];
    assert rest[4..4 + length] == payload[offset + 4..offset + 4 + length];
    assert rest[4 + length..] == payload[offset + 4 + length..];
  }

  lemma {:induction false} BodyNext(packets: seq<Packet>, i: nat)
    requires AllEncodable(packets) && i < |packets|
    ensures Body(packets[..i + 1]) == Body(packets[..i]) + Chunk(packets[i])
  {
    assert packets[..i + 1] == packets[..i] + [packets[i]];
    BodyAppend(packets[..i], packets[i]);
  }

  lemma {:induction false} BodyBounded(packets: seq<Packet>, i: nat)
    requires AllEncodable(packets) && i <= |packets|
    ensures |Body(packets[..i])| <= |Body(packets)|
    decreases |packets| - i
  {
    if i < |packets| {
      BodyNext(packets, i);
      BodyBounded(packets, i + 1);
    } else {
      assert packets[..i] == packets;
    }
  }

  lemma {:induction false} BodyAppend(packets: seq<Packet>, p: Packet)
    requires AllEncodable(packets) && Encodable(p) && |Frame(p)| < TWO_32
    ensures AllEncodable(packets + [p]) && Body(packets + [p]) == Body(packets) + Chunk(p)
  {
    if packets == [] {
      assert [p][1..] == [] && [] + [p] == [p];
      assert Body([p]) == Chunk(p) + [] == [] + Chunk(p);
    } else {
      assert (packets + [p])[1..] == packets[1..] + [p];
      BodyAppend(packets[1..], p);
      assert Chunk(packets[0]) + (Body(packets[1..]) + Chunk(p)) == (Chunk(packets[0]) + Body(packets[1..])) + Chunk(p);
    }
  }

  /** What a receiver gets back from an encoded batch: the messages in order, with consecutive ids modulo 2^16. */
  lemma {:induction false} SentIsReceived(messages: seq<(Byte, seq<Byte>)>, last: nat)
    requires Sendable(messages) && last < TWO_16
    requires |Body(Numbered(messages, last))| < TWO_32
    ensures var packets := Numbered(messages, last);
            var outer := Decode(Frame(Packet(BATCH, (last + |messages| + 1) % TWO_16, Body(packets))));
            && outer.Some? && outer.value.kind == BATCH && DecodeBatch(outer.value.payload) == packets
  {
    var packets := Numbered(messages, last);
    var p := Packet(BATCH, (last + |messages| + 1) % TWO_16, Body(packets));
    DecodeIffFramed(Frame(p), p);
    BatchRoundTrip(packets);
  }
}
