/** uTP packets and their bytes (Packets/Packet.ts, Packets/PacketHeader.ts). The layout is the
    "header format" section of BEP 29; every number is big-endian. */
module Packets {
  import opened Bytes

  const ST_DATA := 0
  const ST_FIN := 1
  const ST_STATE := 2
  const ST_RESET := 3
  const ST_SYN := 4
  const VERSION := 1

  /** A plain header, or one with a selective-ACK extension and its bitmask. */
  datatype Header = Header(
    pType: nat,
    version: nat,
    connectionId: int,
    timestamp: int,
    timestampDiff: int,
    wndSize: int,
    seqNr: int,
    ackNr: int,
    bitmask: Option<bytes>)
  {
    function Extension(): byte {
      if bitmask.Some? then 1 else 0
    }

    function Length(): nat {
      if bitmask.Some? then 22 + |bitmask.value| else 20
    }

    /** Every number can be written without a RangeError. */
    predicate Writable() {
      TypeAndVersion(pType, version) < 256 && NumbersFit()
    }

    /** The same for all but the first byte. */
    predicate NumbersFit() {
      && 0 <= connectionId < 0x1_0000
      && 0 <= timestamp < 0x1_0000_0000
      && 0 <= timestampDiff < 0x1_0000_0000
      && 0 <= wndSize < 0x1_0000_0000
      && 0 <= seqNr < 0x1_0000
      && 0 <= ackNr < 0x1_0000
      && (bitmask.Some? ==> |bitmask.value| < 256)
    }
  }

  datatype Packet = Packet(header: Header, payload: bytes)

  /** The two numbers are glued together as hexadecimal text and read back as one. */
  function TypeAndVersion(pType: nat, version: nat): nat {
    if version < 16 then 16 * pType + version else 256 * pType + version
  }

  function Power256(width: nat): nat {
    if width == 0 then 1 else 256 * Power256(width - 1)
  }

  function BigEndian(value: nat, width: nat): (b: bytes)
    ensures |b| == width
  {
    if width == 0 then [] else BigEndian(value / 256, width - 1) + [value % 256]
  }

  function FromBigEndian(b: bytes): nat {
    if b == [] then 0 else 256 * FromBigEndian(b[..|b| - 1]) + b[|b| - 1]
  }

  lemma {:induction false} BigEndianRoundTrip(value: nat, width: nat)
    requires value < Power256(width)
    ensures FromBigEndian(BigEndian(value, width)) == value
  {
    if width > 0 {
      BigEndianRoundTrip(value / 256, width - 1);
      var b := BigEndian(value, width);
      assert b[..|b| - 1] == BigEndian(value / 256, width - 1);
    }
  }

  lemma {:induction false} FromBigEndianRoundTrip(b: bytes)
    ensures FromBigEndian(b) < Power256(|b|)
    ensures BigEndian(FromBigEndian(b), |b|) == b
  {
    if b != [] {
      FromBigEndianRoundTrip(b[..|b| - 1]);
      assert b == b[..|b| - 1] + [b[|b| - 1]];
    }
  }

  lemma Widths()
    ensures Power256(2) == 0x1_0000 && Power256(4) == 0x1_0000_0000
  {
    assert Power256(1) == 256;
    assert Power256(3) == 256 * Power256(2);
  }

  /** Connection id to ACK number, bytes 2 to 19, field after field. */
  function NumberBytes(h: Header): (b: bytes)
    requires h.NumbersFit()
    ensures |b| == 18
  {
    BigEndian(h.connectionId, 2)
    + BigEndian(h.timestamp, 4)
    + BigEndian(h.timestampDiff, 4)
    + BigEndian(h.wndSize, 4)
    + BigEndian(h.seqNr, 2)
    + BigEndian(h.ackNr, 2)
  }

  function FixedLayout(h: Header): (b: bytes)
    requires h.Writable()
    ensures |b| == 20
  {
    [TypeAndVersion(h.pType, h.version), h.Extension()] + NumberBytes(h)
  }

  function HeaderLayout(h: Header): (b: bytes)
    requires h.Writable()
    ensures |b| == h.Length()
  {
    FixedLayout(h) + if h.bitmask.Some? then [0, |h.bitmask.value|] + h.bitmask.value else []
  }

  method WriteUIntBE(buffer: array<byte>, value: nat, offset: nat, width: nat)
    requires offset + width <= buffer.Length
    modifies buffer
    ensures buffer[..offset + width] == old(buffer[..offset]) + BigEndian(value, width)
    ensures buffer[offset + width..] == old(buffer[offset + width..])
  {
    var rest, i := value, width;
    while i > 0
      invariant 0 <= i <= width
      invariant buffer[..offset] == old(buffer[..offset])
      invariant buffer[offset + width..] == old(buffer[offset + width..])
      invariant BigEndian(value, width) == BigEndian(rest, i) + buffer[offset + i..offset + width]
    {
      ghost var written := buffer[offset + i..offset + width];
      i := i - 1;
      buffer[offset + i] := rest % 256;
      assert buffer[offset + i..offset + width] == [rest % 256] + written;
      rest := rest / 256;
    }
  }

  /** Connection id and the two timestamps. */
  method WriteTimes(buffer: array<byte>, h: Header)
    requires buffer.Length >= 20 && h.NumbersFit()
    modifies buffer
    ensures buffer[..12] == old(buffer[..2]) + BigEndian(h.connectionId, 2)
                            + BigEndian(h.timestamp, 4) + BigEndian(h.timestampDiff, 4)
  {
    hide BigEndian;
    WriteUIntBE(buffer, h.connectionId, 2, 2);
    WriteUIntBE(buffer, h.timestamp, 4, 4);
    WriteUIntBE(buffer, h.timestampDiff, 8, 4);
  }

  /** The part both encoders write. */
  method WriteNumbers(buffer: array<byte>, h: Header)
    requires buffer.Length >= 20 && h.NumbersFit()
    modifies buffer
    ensures buffer[..20] == old(buffer[..2]) + NumberBytes(h)
  {
    hide BigEndian;
    WriteTimes(buffer, h);
    ghost var times := buffer[..12];
    WriteUIntBE(buffer, h.wndSize, 12, 4);
    WriteUIntBE(buffer, h.seqNr, 16, 2);
    WriteUIntBE(buffer, h.ackNr, 18, 2);
    assert buffer[..20] == times + BigEndian(h.wndSize, 4) + BigEndian(h.seqNr, 2) + BigEndian(h.ackNr, 2);
  }

  /** The extension of a selective ACK: its type 0, its length, its bitmask. */
  method WriteExtension(buffer: array<byte>, bitmask: bytes)
    requires buffer.Length == 22 + |bitmask| && |bitmask| < 256
    modifies buffer
    ensures buffer[..] == old(buffer[..20]) + ([0, |bitmask|] + bitmask)
  {
    buffer[20] := 0;
    buffer[21] := |bitmask|;
    for idx := 0 to |bitmask|
      invariant buffer[..20] == old(buffer[..20])
      invariant buffer[20] == 0 && buffer[21] == |bitmask|
      invariant buffer[22..22 + idx] == bitmask[..idx]
    {
      buffer[22 + idx] := bitmask[idx];
    }
  }

  /** Only its length is ever used: it becomes the header's `length`. The first two bytes are not
      those of the packet. */
  method EncodeHeaderStream(h: Header) returns (r: Result<bytes>)
    requires h.bitmask.Some?
    ensures r.Ok? <==> h.NumbersFit()
    ensures r.Ok? ==> |r.value| == h.Length()
    ensures r.Ok? ==> r.value == [1, 0] + NumberBytes(h) + ([0, |h.bitmask.value|] + h.bitmask.value)
  {
    hide NumberBytes;
    if !h.NumbersFit() {
      return Err("RangeError");
    }
    var buffer := new byte[20 + |h.bitmask.value| + 2](_ => 0);
    buffer[0], buffer[1] := 1, 0;
    WriteNumbers(buffer, h);
    WriteExtension(buffer, h.bitmask.value);
    r := Ok(buffer[..]);
  }

  method Encode(p: Packet) returns (r: Result<bytes>)
    ensures r == if p.header.Writable() then Ok(HeaderLayout(p.header) + p.payload)
                 else Err("RangeError")
  {
    hide NumberBytes, Power256;
    var h := p.header;
    if !h.Writable() {
      return Err("RangeError");
    }
    var buffer := new byte[h.Length()](_ => 0);
    buffer[0], buffer[1] := TypeAndVersion(h.pType, h.version), h.Extension();
    WriteNumbers(buffer, h);
    assert buffer[..20] == FixedLayout(h);
    if h.bitmask.Some? {
      WriteExtension(buffer, h.bitmask.value);
    }
    assert buffer[..] == HeaderLayout(h);
    r := Ok(buffer[..] + p.payload);
  }

  function ReadUIntBE(b: bytes, offset: nat, width: nat): nat
    requires offset + width <= |b|
  {
    FromBigEndian(b[offset..offset + width])
  }

  function ReadHeader(b: bytes, bitmask: Option<bytes>): Header
    requires |b| >= 20
  {
    Header(b[0] / 16, VERSION, ReadUIntBE(b, 2, 2), ReadUIntBE(b, 4, 4), ReadUIntBE(b, 8, 4),
           ReadUIntBE(b, 12, 4), ReadUIntBE(b, 16, 2), ReadUIntBE(b, 18, 2), bitmask)
  }

  function BufferToPacket(b: bytes): Result<Packet> {
    if |b| < 20 then Err("RangeError")
    else if b[1] == 1 then
      if |b| < 22 then Err("RangeError")
      else
        var end: nat := 22 + (b[21] as int);
        Ok(Packet(ReadHeader(b, Some(Slice(b, 22, end))), Slice(b, end, end + |b|)))
    else Ok(Packet(ReadHeader(b, None), b[20..]))
  }

  lemma FixedFields(h: Header, rest: bytes)
    requires h.Writable() && h.pType < 16 && h.version == VERSION
    ensures ReadHeader(FixedLayout(h) + rest, h.bitmask) == h
  {
    hide BigEndian, FromBigEndian, Power256;
    var b := FixedLayout(h) + rest;
    Widths();
    assert b[2..4] == BigEndian(h.connectionId, 2);
    assert b[4..8] == BigEndian(h.timestamp, 4);
    assert b[8..12] == BigEndian(h.timestampDiff, 4);
    assert b[12..16] == BigEndian(h.wndSize, 4);
    assert b[16..18] == BigEndian(h.seqNr, 2);
    assert b[18..20] == BigEndian(h.ackNr, 2);
    BigEndianRoundTrip(h.connectionId, 2);
    BigEndianRoundTrip(h.timestamp, 4);
    BigEndianRoundTrip(h.timestampDiff, 4);
    BigEndianRoundTrip(h.wndSize, 4);
    BigEndianRoundTrip(h.seqNr, 2);
    BigEndianRoundTrip(h.ackNr, 2);
  }

  /** Round trip: header fields, bitmask and payload all come back. */
  lemma PacketRoundTrip(p: Packet)
    requires p.header.Writable() && p.header.pType < 16 && p.header.version == VERSION
    ensures BufferToPacket(HeaderLayout(p.header) + p.payload) == Ok(p)
  {
    var h := p.header;
    var b := HeaderLayout(h) + p.payload;
    FixedFields(h, b[20..]);
    assert b == FixedLayout(h) + b[20..];
    assert b[1] == h.Extension();
    if h.bitmask.Some? {
      assert b[21] == |h.bitmask.value|;
      var end: nat := 22 + (b[21] as int);
      assert Slice(b, 22, end) == h.bitmask.value;
      assert Slice(b, end, end + |b|) == p.payload;
    } else {
      assert b[20..] == p.payload;
    }
  }

  // ---------- The bytes themselves ----------

  /** Two or four bytes of a buffer, the highest first. */
  function Two(b: bytes, at: nat): nat
    requires at + 2 <= |b|
  {
    256 * (b[at] as int) + b[at + 1]
  }

  function Four(b: bytes, at: nat): nat
    requires at + 4 <= |b|
  {
    0x1_0000 * Two(b, at) + Two(b, at + 2)
  }

  lemma TwoBytes(v: nat)
    requires v < 0x1_0000
    ensures |BigEndian(v, 2)| == 2 && Two(BigEndian(v, 2), 0) == v
  {
    assert BigEndian(v, 2) == BigEndian(v / 256, 1) + [v % 256];
    assert BigEndian(v / 256, 1) == BigEndian(v / 256 / 256, 0) + [v / 256 % 256];
  }

  lemma FourBytes(v: nat)
    requires v < 0x1_0000_0000
    ensures |BigEndian(v, 4)| == 4 && Four(BigEndian(v, 4), 0) == v
  {
    var high, low := v / 0x1_0000, v % 0x1_0000;
    assert v / 256 / 256 == high;
    assert v / 256 % 256 == low / 256;
    assert BigEndian(v, 4) == BigEndian(v / 256, 3) + [v % 256];
    assert BigEndian(v / 256, 3) == BigEndian(v / 256 / 256, 2) + [v / 256 % 256];
    TwoBytes(high);
  }

  lemma FourRead(b: bytes)
    requires |b| == 4
    ensures FromBigEndian(b) == Four(b, 0)
  {
    assert b[..3][..2] == b[..2];
    assert FromBigEndian(b[..3]) == 256 * FromBigEndian(b[..2]) + b[2];
    TwoRead(b[..2]);
  }

  lemma TwoRead(b: bytes)
    requires |b| == 2
    ensures FromBigEndian(b) == Two(b, 0)
  {
    assert FromBigEndian(b[..1]) == 256 * FromBigEndian(b[..1][..0]) + b[0];
  }

  /** Where every field of a version 1 header is, as BEP 29 has it. */
  lemma HeaderBytes(h: Header)
    requires h.Writable() && h.pType < 16 && h.version == 1
    ensures var b := HeaderLayout(h);
            && |b| == (if h.bitmask.Some? then 22 + |h.bitmask.value| else 20)
            && b[0] == 16 * h.pType + 1 && b[1] == (if h.bitmask.Some? then 1 else 0)
            && Two(b, 2) == h.connectionId
            && Four(b, 4) == h.timestamp && Four(b, 8) == h.timestampDiff && Four(b, 12) == h.wndSize
            && Two(b, 16) == h.seqNr && Two(b, 18) == h.ackNr
            && (h.bitmask.Some? ==> b[20] == 0 && b[21] == |h.bitmask.value| && b[22..] == h.bitmask.value)
  {
    hide BigEndian, FromBigEndian, Power256;
    TwoBytes(h.connectionId);
    FourBytes(h.timestamp);
    FourBytes(h.timestampDiff);
    FourBytes(h.wndSize);
    TwoBytes(h.seqNr);
    TwoBytes(h.ackNr);
    var b := HeaderLayout(h);
    FieldAt(b, BigEndian(h.connectionId, 2), 2);
    FieldAt(b, BigEndian(h.timestamp, 4), 4);
    FieldAt(b, BigEndian(h.timestampDiff, 4), 8);
    FieldAt(b, BigEndian(h.wndSize, 4), 12);
    FieldAt(b, BigEndian(h.seqNr, 2), 16);
    FieldAt(b, BigEndian(h.ackNr, 2), 18);
  }

  lemma FieldAt(b: bytes, field: bytes, at: nat)
    requires at + |field| <= |b| && b[at..at + |field|] == field
    ensures |field| == 2 ==> Two(b, at) == Two(field, 0)
    ensures |field| == 4 ==> Four(b, at) == Four(field, 0)
  {
    assert forall k :: 0 <= k < |field| ==> field[k] == b[at + k];
  }

  /** What is read from which bytes, and which buffers are too short. */
  lemma ReadBytes(b: bytes)
    ensures BufferToPacket(b).Err? <==> |b| < 20 || (b[1] == 1 && |b| < 22)
    ensures BufferToPacket(b).Ok? ==>
              var p := BufferToPacket(b).value;
              var h := p.header;
              && h.pType == b[0] / 16 && h.version == 1
              && h.connectionId == Two(b, 2)
              && h.timestamp == Four(b, 4) && h.timestampDiff == Four(b, 8) && h.wndSize == Four(b, 12)
              && h.seqNr == Two(b, 16) && h.ackNr == Two(b, 18)
              && (if b[1] != 1 then h.bitmask == None && p.payload == b[20..]
                  else if 22 + (b[21] as int) <= |b|
                  then h.bitmask == Some(b[22..22 + (b[21] as int)]) && p.payload == b[22 + (b[21] as int)..]
                  else h.bitmask == Some(b[22..]) && p.payload == [])
  {
    if |b| >= 20 {
      TwoReadAt(b, 2);
      FourReadAt(b, 4);
      FourReadAt(b, 8);
      FourReadAt(b, 12);
      TwoReadAt(b, 16);
      TwoReadAt(b, 18);
    }
    if |b| >= 22 {
      SlicesAre(b, 22 + (b[21] as int));
    }
  }

  lemma SlicesAre(b: bytes, end: nat)
    requires 22 <= |b| && 22 <= end
    ensures end <= |b| ==> Slice(b, 22, end) == b[22..end] && Slice(b, end, end + |b|) == b[end..]
    ensures end > |b| ==> Slice(b, 22, end) == b[22..] && Slice(b, end, end + |b|) == []
  {
  }

  lemma TwoReadAt(b: bytes, at: nat)
    requires at + 2 <= |b|
    ensures ReadUIntBE(b, at, 2) == Two(b, at)
  {
    TwoRead(b[at..at + 2]);
    FieldAt(b, b[at..at + 2], at);
  }

  lemma FourReadAt(b: bytes, at: nat)
    requires at + 4 <= |b|
    ensures ReadUIntBE(b, at, 4) == Four(b, at)
  {
    FourRead(b[at..at + 4]);
    FieldAt(b, b[at..at + 4], at);
  }

  /** The other way round: exactly which buffers `bufferToPacket` reads without losing anything. */
  predicate Canonical(b: bytes) {
    && |b| >= 20
    && b[0] % 16 == VERSION
    && (b[1] == 0 || (b[1] == 1 && |b| >= 22 && b[20] == 0 && |b| - 22 >= b[21]))
  }

  lemma ReadIsWritable(b: bytes)
    requires BufferToPacket(b).Ok?
    ensures BufferToPacket(b).value.header.Writable()
  {
    Widths();
    FromBigEndianRoundTrip(b[2..4]);
    FromBigEndianRoundTrip(b[4..8]);
    FromBigEndianRoundTrip(b[8..12]);
    FromBigEndianRoundTrip(b[12..16]);
    FromBigEndianRoundTrip(b[16..18]);
    FromBigEndianRoundTrip(b[18..20]);
  }

  lemma ReadThenWriteFixed(b: bytes)
    requires BufferToPacket(b).Ok?
    ensures BufferToPacket(b).value.header.Writable()
    ensures var h := BufferToPacket(b).value.header;
            FixedLayout(h) == [b[0] / 16 * 16 + VERSION, h.Extension()] + b[2..20]
  {
    ReadIsWritable(b);
    FromBigEndianRoundTrip(b[2..4]);
    FromBigEndianRoundTrip(b[4..8]);
    FromBigEndianRoundTrip(b[8..12]);
    FromBigEndianRoundTrip(b[12..16]);
    FromBigEndianRoundTrip(b[16..18]);
    FromBigEndianRoundTrip(b[18..20]);
    FieldsInOrder(b);
  }

  lemma FieldsInOrder(b: bytes)
    requires |b| >= 20
    ensures b[2..20] == b[2..4] + b[4..8] + b[8..12] + b[12..16] + b[16..18] + b[18..20]
  {
  }

  /** The extension comes back if its type is 0 and its bitmask is complete. */
  lemma ExtensionReadThenWrite(b: bytes)
    requires |b| >= 22
    ensures var size: nat := b[21];
            var mask := Slice(b, 22, 22 + size);
            && |mask| < 256
            && ([0, |mask|] + mask + Slice(b, 22 + size, 22 + size + |b|) == b[20..] <==>
                  b[20] == 0 && |b| - 22 >= size)
  {
    var size: nat := b[21];
    var mask := Slice(b, 22, 22 + size);
    var again := [0, |mask|] + mask + Slice(b, 22 + size, 22 + size + |b|);
    assert mask + Slice(b, 22 + size, 22 + size + |b|) == b[22..];
    assert again == [0, |mask|] + b[22..];
    assert b[20..] == [b[20], b[21]] + b[22..];
    assert again[0] == 0 && again[1] == |mask|;
  }

  lemma ReadThenWrite(b: bytes)
    requires BufferToPacket(b).Ok?
    ensures BufferToPacket(b).value.header.Writable()
    ensures var p := BufferToPacket(b).value;
            HeaderLayout(p.header) + p.payload == b <==> Canonical(b)
  {
    hide NumberBytes, BigEndian, FromBigEndian, Power256;
    ReadThenWriteFixed(b);
    var p := BufferToPacket(b).value;
    var again := HeaderLayout(p.header) + p.payload;
    assert again[..20] == FixedLayout(p.header);
    assert b[..20] == [b[0], b[1]] + b[2..20];
    assert again[..20] == b[..20] <==> b[0] % 16 == VERSION && b[1] == p.header.Extension();
    if b[1] == 1 {
      ExtensionReadThenWrite(b);
      assert again[20..] == [0, |p.header.bitmask.value|] + p.header.bitmask.value + p.payload;
    } else {
      assert again[20..] == b[20..];
    }
    SameHalves(again, b);
  }

  lemma SameHalves(a: bytes, b: bytes)
    requires |a| >= 20 && |b| >= 20
    ensures a == b <==> a[..20] == b[..20] && a[20..] == b[20..]
  {
    assert a == a[..20] + a[20..];
    assert b == b[..20] + b[20..];
  }
}
