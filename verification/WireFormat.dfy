/** From a socket's numbers to bytes and back (Packets/create.ts): inside sixteen bits the wire is
    transparent to both protocols. */
module WireFormat {
  import opened Bytes
  import opened Packets
  import opened UtpSockets
  import opened PortalNetworkUtp
  import OA = OfferAccept
  import FF = FindFound

  /** What the header takes from the clock and the window, not from the protocol. */
  datatype Clock = Clock(timestamp: nat, timestampDiff: nat, wndSize: nat)

  predicate ClockFits(k: Clock) {
    k.timestamp < 0x1_0000_0000 && k.timestampDiff < 0x1_0000_0000 && k.wndSize < 0x1_0000_0000
  }

  function TypeCode(t: PacketType): nat {
    match t
    case Data => ST_DATA
    case Fin => ST_FIN
    case State => ST_STATE
    case ResetConnection => ST_RESET
    case Syn => ST_SYN
  }

  function TypeOf(code: nat): Option<PacketType> {
    if code == ST_DATA then Some(Data)
    else if code == ST_FIN then Some(Fin)
    else if code == ST_STATE then Some(State)
    else if code == ST_RESET then Some(ResetConnection)
    else if code == ST_SYN then Some(Syn)
    else None
  }

  /** `Uint8Array.from` keeps the low eight bits of each listed number. */
  function Bitmask(ackNrs: seq<int>): bytes {
    seq(|ackNrs|, i requires 0 <= i < |ackNrs| => ackNrs[i] % 256)
  }

  function OnWire(p: Segment, k: Clock): Packet {
    Packet(Header(TypeCode(p.pType), VERSION, p.connectionId, k.timestamp, k.timestampDiff, k.wndSize,
                  p.seqNr, p.ackNr,
                  if p.selective.Some? then Some(Bitmask(p.selective.value)) else None),
           p.payload)
  }

  /** What a handler is given; a packet of no known type is refused. */
  function OffWire(p: Packet): Option<Segment> {
    var h := p.header;
    var t := TypeOf(h.pType);
    if t.None? then None
    else Some(Segment(t.value, h.connectionId, h.seqNr, h.ackNr, h.bitmask, p.payload))
  }

  predicate Fits(p: Segment) {
    && 0 <= p.connectionId < 0x1_0000 && 0 <= p.seqNr < 0x1_0000 && 0 <= p.ackNr < 0x1_0000
    && (p.selective.Some? ==> |p.selective.value| < 256)
  }

  /** A packet whose numbers fit is encoded without error, and what is decoded at the other end is
      handled by every role in every state exactly as the packet itself would be. */
  lemma Transparent(p: Segment, k: Clock)
    requires Fits(p) && ClockFits(k)
    ensures OnWire(p, k).header.Writable()
    ensures BufferToPacket(HeaderLayout(OnWire(p, k).header) + p.payload) == Ok(OnWire(p, k))
    ensures var q := OffWire(OnWire(p, k));
            && q.Some?
            && (p.selective.None? ==> q.value == p)
            && (forall code, s, random :: Handle(code, s, q.value, random) == Handle(code, s, p, random))
  {
    PacketRoundTrip(OnWire(p, k));
    var q := OffWire(OnWire(p, k)).value;
    assert q.(selective := None) == p.(selective := None);
    forall code, s, random ensures Handle(code, s, q, random) == Handle(code, s, p, random) {
      SelectiveIsIgnored(code, s, p, q, random);
    }
  }

  lemma SelectiveIsIgnored(code: RequestCode, s: Sock, p: Segment, q: Segment, random: nat)
    requires q.(selective := None) == p.(selective := None)
    ensures Handle(code, s, q, random) == Handle(code, s, p, random)
  {
    assert ReceiveData(s, q) == ReceiveData(s, p);
    assert AnsweredSyn(s, q, random) == AnsweredSyn(s, p, random);
    assert Connecting(s, q) == Connecting(s, p);
  }

  /** The first byte of each kind of packet, and the bytes of a list of numbers: the low eight bits of
      each. */
  lemma FirstBytes(p: Segment, k: Clock)
    requires Fits(p) && ClockFits(k)
    ensures OnWire(p, k).header.Writable()
    ensures var b := HeaderLayout(OnWire(p, k).header);
            && b[0] == (match p.pType
                        case Data => 0x01
                        case Fin => 0x11
                        case State => 0x21
                        case ResetConnection => 0x31
                        case Syn => 0x41)
            && Two(b, 2) == p.connectionId && Two(b, 16) == p.seqNr && Two(b, 18) == p.ackNr
            && Four(b, 4) == k.timestamp && Four(b, 8) == k.timestampDiff && Four(b, 12) == k.wndSize
            && (p.selective.None? ==> |b| == 20 && b[1] == 0)
            && (p.selective.Some? ==>
                  && |b| == 22 + |p.selective.value| && b[1] == 1 && b[21] == |p.selective.value|
                  && forall i :: 0 <= i < |p.selective.value| ==> b[22 + i] == p.selective.value[i] % 256)
  {
    var h := OnWire(p, k).header;
    HeaderBytes(h);
    if p.selective.Some? {
      var b := HeaderLayout(h);
      forall i | 0 <= i < |p.selective.value| ensures b[22 + i] == p.selective.value[i] % 256 {
        assert b[22..][i] == b[22 + i];
      }
    }
  }

  /** Exactly the five types are known. */
  lemma KnownTypes(p: Packet)
    ensures OffWire(p).Some? <==> p.header.pType <= 4
  {
  }

  /** Every packet of every OFFER/ACCEPT run whose initial numbers leave room survives the wire. */
  lemma OfferAcceptOnWire(c: OA.Config, steps: seq<OA.Step>, p: Segment, k: Clock)
    requires c.Count() > 0 && OA.Possible(c, steps) && ClockFits(k)
    requires c.connectionId < 0x8000 && c.offerRandom < 0x8000
    requires 1 <= c.acceptRandom && c.acceptRandom + c.Count() + 1 < 0x1_0000
    requires p in OA.After(c, steps).toAccept || p in OA.After(c, steps).toOffer
    ensures OnWire(p, k).header.Writable()
    ensures BufferToPacket(HeaderLayout(OnWire(p, k).header) + p.payload) == Ok(OnWire(p, k))
    ensures OffWire(OnWire(p, k)).Some?
    ensures forall code, s, random ::
              Handle(code, s, OffWire(OnWire(p, k)).value, random) == Handle(code, s, p, random)
  {
    var s := OA.After(c, steps);
    OA.ReachableInv(c, steps);
    OA.StateNumbersFit(c, s);
    assert p in s.toOffer ==> OA.AckInv(c, s, p);
    Transparent(p, k);
  }

  /** The same for every FINDCONTENT run. */
  lemma FindFoundOnWire(c: FF.Config, steps: seq<FF.Step>, p: Segment, k: Clock)
    requires c.Count() > 0 && FF.Possible(c, steps) && ClockFits(k)
    requires c.connectionId < 0x8000 && FF.InitialNumbers(c) && c.Count() <= 32767
    requires p in FF.After(c, steps).toRead || p in FF.After(c, steps).toWrite
    ensures OnWire(p, k).header.Writable()
    ensures BufferToPacket(HeaderLayout(OnWire(p, k).header) + p.payload) == Ok(OnWire(p, k))
    ensures OffWire(OnWire(p, k)).Some?
    ensures forall code, s, random ::
              Handle(code, s, OffWire(OnWire(p, k)).value, random) == Handle(code, s, p, random)
  {
    FF.ReachableInv(c, steps);
    Transparent(p, k);
  }
}
