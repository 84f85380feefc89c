/** The four uTP roles: opening a request and handling each kind of packet
    (PortalNetworkUtp/PortalNetworkUTP.ts, PortalNetworkUtp/ContentRequest.ts). */
module PortalNetworkUtp {
  import opened Bytes
  import opened ContentStream
  import opened UtpSockets

  datatype RequestCode = FoundContentWrite | FindContentRead | OfferWrite | AcceptRead

  /** The reading side of FINDCONTENT and the writing side of OFFER send the SYN. */
  predicate Initiates(code: RequestCode) {
    code == FindContentRead || code == OfferWrite
  }

  function SndId(code: RequestCode, connectionId: nat): nat {
    if Initiates(code) then connectionId + 1 else connectionId
  }

  function RcvId(code: RequestCode, connectionId: nat): nat {
    if Initiates(code) then connectionId else connectionId + 1
  }

  /** The socket of a new request. `random` is the outcome of `randUint16`. */
  function NewSock(code: RequestCode, connectionId: nat, random: nat, content: bytes): Sock {
    var snd, rcv := SndId(code, connectionId), RcvId(code, connectionId);
    match code
    case FoundContentWrite => Sock(true, snd, rcv, random, 0, Some(1), None, None, content, None, None, [], [])
    case FindContentRead => Sock(false, snd, rcv, 0, random, None, None, None, [], None, None, [], [])
    case OfferWrite => Sock(true, snd, rcv, 1, random, None, None, None, content, None, None, [], [])
    case AcceptRead => Sock(false, snd, rcv, random, 0, Some(1), None, None, [], None, None, [], [])
  }

  /** What handling one packet comes to: the socket, the packets emitted, the content a FIN
      delivered, and what `UtpSocket.handleStatePacket` reported if it was reached. `Rejected` is an
      exception, `Declined` a FIN sent to a writer: its handler returns false. */
  datatype Reply =
    | Reply(sock: Sock, sent: seq<Segment>, content: Option<bytes>, done: Option<bool>)
    | Declined(sock: Sock)
    | Rejected(sock: Sock)

  function Quiet(s: Sock, sent: seq<Segment>): Reply {
    Reply(s, sent, None, None)
  }

  /** `ContentRequest.init` */
  function OnInit(code: RequestCode, s: Sock): (Sock, seq<Segment>) {
    match code
    case FindContentRead => (s.(state := Some(SynSent)), [SynOf(s)])
    case OfferWrite => (WithWriter(s, 2).(state := Some(SynSent)), [SynOf(s)])
    case _ => (s, [])
  }

  /** The same for a request that may have no content at all: then an offerer neither sets up a writer
      nor sends a SYN. */
  function OnOpen(code: RequestCode, s: Sock, hasContent: bool): (Sock, seq<Segment>) {
    if code == OfferWrite && !hasContent then (s, []) else OnInit(code, s)
  }

  function SentFin(s: Sock): Sock {
    s.(finNr := Some(s.seqNr))
  }

  /** A writer that has answered the SYN: chunk i is filed under `random` + i but leaves under
      `random` + 1 + i. */
  function AnsweredSyn(s: Sock, p: Segment, random: nat): Sock {
    var acked := s.(ackNr := p.seqNr + 1, seqNr := random);
    WithWriter(acked, random).(seqNr := random + 1, nextSeq := Some(random + 2))
  }

  function OnSyn(code: RequestCode, s: Sock, p: Segment, random: nat): Reply {
    match code
    case FoundContentWrite =>
      var ready := AnsweredSyn(s, p, random);
      Quiet(SentFin(Written(ready)),
            [Carrying(s.(ackNr := p.seqNr, seqNr := random), State)]
            + DataSegments(ready) + [Carrying(Written(ready), Fin)])
    case AcceptRead =>
      var open := s.(ackNr := p.seqNr, nextSeq := Some(2), reader := Some([]));
      Quiet(open.(ackNr := p.seqNr + 1), [Carrying(open, State)])
    case _ => Rejected(s)
  }

  /** The offerer on the first STATE packet: it starts numbering its packets at 2. */
  function Connecting(s: Sock, p: Segment): Sock {
    s.(state := Some(Connected), ackNr := p.seqNr - 1, seqNr := 2, nextSeq := Some(p.seqNr + 1))
  }

  function OnState(code: RequestCode, s: Sock, p: Segment): Reply {
    match code
    case FoundContentWrite =>
      Quiet(if p.ackNr in s.ackNrs then s else s.(ackNrs := s.ackNrs + [p.ackNr]), [])
    case FindContentRead =>
      if p.ackNr == 1 then
        var open := s.(ackNr := p.seqNr, seqNr := 2, nextSeq := Some(p.seqNr + 1), reader := Some([]));
        Quiet(open, [Carrying(open, State)])
      else Rejected(s)
    case OfferWrite =>
      if s.seqNr == 1 then
        var ready := Connecting(s, p);
        if s.writer.None? then Quiet(SentFin(ready), [Carrying(ready, Fin)])
        else Quiet(SentFin(Written(ready)), DataSegments(ready) + [Carrying(Written(ready), Fin)])
      else if s.finNr == Some(p.ackNr) then Quiet(s, [])
      else
        var r := ReceiveState(s.(nextSeq := Some(p.seqNr + 1)), p);
        Reply(r.0, r.2, None, Some(r.1))
    case AcceptRead => Rejected(s)
  }

  predicate Reads(code: RequestCode) {
    code == FindContentRead || code == AcceptRead
  }

  /** `_handleDataPacket` as one step, without interruption at its await. */
  function OnData(code: RequestCode, s: Sock, p: Segment): Reply {
    if !Reads(code) then Rejected(s)
    else
      var received := ReceiveData(s, p);
      var acked := AcknowledgeData(received.0, received.1);
      Quiet(acked.0, acked.1)
  }

  function OnFin(code: RequestCode, s: Sock, p: Segment): Reply {
    if !Reads(code) then Declined(s)
    else if s.reader.None? then Rejected(s.(state := Some(GotFin)))
    else
      var r := ReceiveFin(s, p);
      Reply(r.0, r.2, Some(r.1), None)
  }

  /** The handler for a packet of each kind; a RESET changes nothing. */
  function Handle(code: RequestCode, sock: Sock, p: Segment, random: nat): Reply {
    match p.pType
    case Syn => OnSyn(code, sock, p, random)
    case State => OnState(code, sock, p)
    case Fin => OnFin(code, sock, p)
    case Data => OnData(code, sock, p)
    case ResetConnection => Quiet(sock, [])
  }

  function Members(sent: seq<Segment>): set<Segment> {
    set p | p in sent
  }

  /** Exactly what each role refuses; a RESET is never refused and changes nothing. */
  lemma Refusals(code: RequestCode, s: Sock, p: Segment, random: nat)
    ensures Handle(code, s, p, random).Reply? <==>
              match p.pType
              case Syn => code in {FoundContentWrite, AcceptRead}
              case State => code in {FoundContentWrite, OfferWrite} || (code == FindContentRead && p.ackNr == 1)
              case Data => code in {FindContentRead, AcceptRead}
              case Fin => code in {FindContentRead, AcceptRead} && s.reader.Some?
              case ResetConnection => true
    ensures p.pType == ResetConnection ==> Handle(code, s, p, random) == Reply(s, [], None, None)
  {
  }

  /** DATA handled without interruption: the packet joins the reader's, its number is noted and
      acknowledged, plainly if it was the expected one, else with all numbers noted. */
  lemma DataHandled(code: RequestCode, s: Sock, p: Segment, random: nat)
    requires code in {FindContentRead, AcceptRead} && p.pType == Data
    ensures var r := Handle(code, s, p, random);
            var noted := s.ackNrs + [p.seqNr];
            && r.Reply? && r.content == None && r.done == None
            && r.sock == s.(state := Some(Connected), nextSeq := Some(p.seqNr + 1), seqNr := s.seqNr + 1,
                            ackNr := p.seqNr, ackNrs := noted,
                            reader := Some((if s.reader.Some? then s.reader.value else [])
                                           + [Numbered(p.seqNr, p.payload)]))
            && r.sent == if s.nextSeq == Some(p.seqNr)
                         then [Segment(State, s.sndConnectionId, s.seqNr + 1, p.seqNr, None, [])]
                         else if |noted| < 256
                         then [Segment(State, s.sndConnectionId, s.seqNr + 1, p.seqNr, Some(noted), [])]
                         else []
  {
  }

  /** The numbers a new socket starts with. */
  lemma InitialSockets(code: RequestCode, id: nat, random: nat, content: bytes)
    ensures var s := NewSock(code, id, random, content);
            && (s.writes <==> code in {FoundContentWrite, OfferWrite})
            && s.content == (if s.writes then content else [])
            && (s.sndConnectionId, s.rcvConnectionId) ==
                 (if code in {FindContentRead, OfferWrite} then (id + 1, id) else (id, id + 1))
            && (s.seqNr, s.ackNr) ==
                 (match code
                  case FindContentRead => (0, random)
                  case OfferWrite => (1, random)
                  case _ => (random, 0))
            && s.nextSeq == (if code in {FoundContentWrite, AcceptRead} then Some(1) else None)
            && s.finNr == None && s.state == None && s.reader == None && s.writer == None
            && s.dataNrs == [] && s.ackNrs == []
  {
  }

  /** What a handler's caller sees of a reply. */
  datatype Outcome = Handled(content: Option<bytes>, done: Option<bool>) | ReturnedFalse | Threw

  function OutcomeOf(r: Reply): Outcome {
    match r
    case Reply(_, _, content, done) => Handled(content, done)
    case Declined(_) => ReturnedFalse
    case Rejected(_) => Threw
  }

  function SentOf(r: Reply): seq<Segment> {
    if r.Reply? then r.sent else []
  }

  class ContentRequest {
    const requestCode: RequestCode
    const contentKeys: seq<bytes>
    const connectionId: nat
    const peerId: string
    const hasContent: bool
    const socket: UtpSocket

    constructor (utp: Outbox, requestCode: RequestCode, peerId: string, connectionId: nat,
                 random: nat, content: bytes, hasContent: bool, contentKeys: seq<bytes>)
      ensures this.requestCode == requestCode && this.contentKeys == contentKeys
      ensures this.connectionId == connectionId && this.peerId == peerId && this.hasContent == hasContent
      ensures fresh(socket) && socket.utp == utp && socket.Valid()
      ensures socket.View() == NewSock(requestCode, connectionId, random, content)
      ensures socket.writer == null && socket.reader == null
    {
      this.requestCode, this.contentKeys := requestCode, contentKeys;
      this.connectionId, this.peerId, this.hasContent := connectionId, peerId, hasContent;
      var snd, rcv := SndId(requestCode, connectionId), RcvId(requestCode, connectionId);
      match requestCode {
        case FoundContentWrite =>
          socket := new UtpSocket(utp, snd, rcv, random, 0, Some(1), true, content);
        case FindContentRead =>
          socket := new UtpSocket(utp, snd, rcv, 0, random, None, false, []);
        case OfferWrite =>
          socket := new UtpSocket(utp, snd, rcv, 1, random, None, true, content);
        case AcceptRead =>
          socket := new UtpSocket(utp, snd, rcv, random, 0, Some(1), false, []);
      }
      new;
    }

    method Init()
      requires socket.Valid()
      modifies socket, socket.utp
      ensures socket.Valid()
      ensures socket.View() == OnOpen(requestCode, old(socket.View()), hasContent).0
      ensures socket.utp.sent == old(socket.utp.sent) + OnOpen(requestCode, old(socket.View()), hasContent).1
    {
      match requestCode {
        case FindContentRead =>
          socket.SendSynPacket();
        case OfferWrite =>
          if hasContent {
            var writer := new ContentWriter(socket, 2);
            socket.writer := writer;
            socket.SendSynPacket();
          }
        case _ =>
      }
    }

    method HandleSynPacket(p: Segment, random: nat) returns (outcome: Outcome)
      requires socket.Valid()
      requires requestCode == FoundContentWrite ==> ChunkCount(socket.content) > 0
      modifies socket, socket.utp
      ensures socket.Valid()
      ensures var r := OnSyn(requestCode, old(socket.View()), p, random);
              && outcome == OutcomeOf(r)
              && socket.View() == r.sock
              && socket.utp.sent == old(socket.utp.sent) + SentOf(r)
    {
      hide Filed, FirstSegments;
      match requestCode {
        case FoundContentWrite =>
          AnswerWithContent(p, random);
          return Handled(None, None);
        case AcceptRead =>
          OpenReader(p);
          return Handled(None, None);
        case _ =>
          return Threw;
      }
    }

    /** The writing side of FINDCONTENT up to its send loop. The new writer is handed the number
        before the increment, so it files its chunks one below the numbers they leave under. */
    method AnswerSyn(p: Segment, random: nat)
      requires socket.Valid()
      modifies socket, socket.utp
      ensures socket.Valid() && socket.writer != null && fresh(socket.writer) && socket.writer.sentChunks == []
      ensures socket.View() == AnsweredSyn(old(socket.View()), p, random)
      ensures socket.utp.sent == old(socket.utp.sent) +
              [Carrying(old(socket.View()).(ackNr := p.seqNr, seqNr := random), State)]
    {
      socket.ackNr := p.seqNr;
      socket.seqNr := random;
      assert socket.View() == old(socket.View()).(ackNr := p.seqNr, seqNr := random);
      socket.SendSynAckPacket();
      OpenWriter();
    }

    /** The writing side of FINDCONTENT: the SYN-ACK, every DATA packet, the FIN. */
    method AnswerWithContent(p: Segment, random: nat)
      requires socket.Valid() && requestCode == FoundContentWrite && ChunkCount(socket.content) > 0
      modifies socket, socket.utp
      ensures socket.Valid()
      ensures socket.View() == OnSyn(FoundContentWrite, old(socket.View()), p, random).sock
      ensures socket.utp.sent == old(socket.utp.sent) + OnSyn(FoundContentWrite, old(socket.View()), p, random).sent
    {
      hide Filed, FirstSegments, Numbers;
      AnswerSyn(p, random);
      socket.writer.Start();
      socket.SendFinPacket();
    }

    /** The accepter's answer to a SYN. */
    method OpenReader(p: Segment)
      requires socket.Valid()
      modifies socket, socket.utp
      ensures socket.Valid()
      ensures var open := old(socket.View()).(ackNr := p.seqNr, nextSeq := Some(2), reader := Some([]));
              && socket.View() == open.(ackNr := p.seqNr + 1)
              && socket.utp.sent == old(socket.utp.sent) + [Carrying(open, State)]
    {
      socket.ackNr := p.seqNr;
      socket.nextSeq := Some(2);
      var reader := new ContentReader(2);
      socket.reader := reader;
      socket.SendSynAckPacket();
    }

    method OpenWriter()
      requires socket.Valid()
      modifies socket
      ensures socket.Valid() && socket.writer != null && fresh(socket.writer) && socket.writer.sentChunks == []
      ensures var s := old(socket.View());
              socket.View() == WithWriter(s, s.seqNr).(seqNr := s.seqNr + 1, nextSeq := Some(s.seqNr + 2))
    {
      var startingSeqNr := socket.seqNr;
      socket.seqNr := socket.seqNr + 1;
      var writer := new ContentWriter(socket, startingSeqNr);
      socket.writer := writer;
      socket.nextSeq := Some(socket.seqNr + 1);
    }

    method HandleStatePacket(p: Segment) returns (outcome: Outcome)
      requires socket.Valid()
      requires requestCode == OfferWrite && socket.seqNr == 1 && socket.writer != null ==>
                 socket.writer.sentChunks == [] && ChunkCount(socket.content) > 0
      modifies socket, socket.writer, socket.utp
      ensures socket.Valid()
      ensures var r := OnState(requestCode, old(socket.View()), p);
              && outcome == OutcomeOf(r)
              && socket.View() == r.sock
              && socket.utp.sent == old(socket.utp.sent) + SentOf(r)
    {
      match requestCode {
        case FoundContentWrite =>
          if p.ackNr !in socket.ackNrs {
            socket.ackNrs := socket.ackNrs + [p.ackNr];
          }
          return Handled(None, None);
        case FindContentRead =>
          if p.ackNr != 1 {
            return Threw;
          }
          var startingSeqNr := socket.seqNr + 1;
          socket.ackNr := p.seqNr;
          socket.seqNr := 2;
          socket.nextSeq := Some(p.seqNr + 1);
          var reader := new ContentReader(startingSeqNr);
          socket.reader := reader;
          socket.SendAckPacket();
          return Handled(None, None);
        case OfferWrite =>
          outcome := HandleOfferAck(p);
        case AcceptRead =>
          return Threw;
      }
    }

    /** The SYN-ACK of an OFFER: every DATA packet leaves, then the FIN. */
    method BeginStream(p: Segment)
      requires socket.Valid() && socket.seqNr == 1
      requires socket.writer != null ==> socket.writer.sentChunks == [] && ChunkCount(socket.content) > 0
      modifies socket, socket.writer, socket.utp
      ensures socket.Valid()
      ensures socket.View() == OnState(OfferWrite, old(socket.View()), p).sock
      ensures socket.utp.sent == old(socket.utp.sent) + OnState(OfferWrite, old(socket.View()), p).sent
    {
      hide Filed, FirstSegments;
      socket.state := Some(Connected);
      socket.ackNr := p.seqNr - 1;
      socket.seqNr := 2;
      socket.nextSeq := Some(p.seqNr + 1);
      assert socket.View() == Connecting(old(socket.View()), p);
      if socket.writer != null {
        socket.writer.Start();
      }
      socket.SendFinPacket();
    }

    method HandleOfferAck(p: Segment) returns (outcome: Outcome)
      requires socket.Valid() && requestCode == OfferWrite
      requires socket.seqNr == 1 && socket.writer != null ==>
                 socket.writer.sentChunks == [] && ChunkCount(socket.content) > 0
      modifies socket, socket.writer, socket.utp
      ensures socket.Valid()
      ensures var r := OnState(OfferWrite, old(socket.View()), p);
              && outcome == OutcomeOf(r)
              && socket.View() == r.sock
              && socket.utp.sent == old(socket.utp.sent) + SentOf(r)
    {
      hide Filed, ChunkCount, FirstSegments, SortNumbers;
      if socket.seqNr == 1 {
        BeginStream(p);
        outcome := Handled(None, None);
      } else if socket.finNr == Some(p.ackNr) {
        outcome := Handled(None, None);
      } else {
        socket.nextSeq := Some(p.seqNr + 1);
        var done := socket.HandleStatePacket(p);
        outcome := Handled(None, Some(done));
      }
    }

    method HandleDataPacket(p: Segment) returns (outcome: Outcome)
      requires socket.Valid()
      modifies socket, socket.reader, socket.utp
      ensures socket.Valid()
      ensures var r := OnData(requestCode, old(socket.View()), p);
              && outcome == OutcomeOf(r)
              && socket.View() == r.sock
              && socket.utp.sent == old(socket.utp.sent) + SentOf(r)
    {
      if !Reads(requestCode) {
        return Threw;
      }
      var expected := socket.AcceptDataPacket(p);
      socket.AcknowledgeDataPacket(expected);
      outcome := Handled(None, None);
    }

    method HandleFinPacket(p: Segment) returns (outcome: Outcome)
      requires socket.Valid()
      modifies socket, socket.reader, socket.utp
      ensures socket.Valid()
      ensures var r := OnFin(requestCode, old(socket.View()), p);
              && outcome == OutcomeOf(r)
              && socket.View() == r.sock
              && socket.utp.sent == old(socket.utp.sent) + SentOf(r)
    {
      if !Reads(requestCode) {
        return ReturnedFalse;
      }
      if socket.reader == null {
        socket.state := Some(GotFin);
        return Threw;
      }
      var content := socket.HandleFinPacket(p);
      outcome := Handled(Some(content), None);
    }

    /** The handler for the packet's kind. A writer's send loop needs something to send. */
    method HandlePacket(p: Segment, random: nat) returns (outcome: Outcome)
      requires socket.Valid()
      requires requestCode == FoundContentWrite ==> ChunkCount(socket.content) > 0
      requires requestCode == OfferWrite && socket.seqNr == 1 && socket.writer != null ==>
                 socket.writer.sentChunks == [] && ChunkCount(socket.content) > 0
      modifies socket, socket.writer, socket.reader, socket.utp
      ensures socket.Valid()
      ensures var r := Handle(requestCode, old(socket.View()), p, random);
              && outcome == OutcomeOf(r)
              && socket.View() == r.sock
              && socket.utp.sent == old(socket.utp.sent) + SentOf(r)
    {
      match p.pType {
        case Syn => outcome := HandleSynPacket(p, random);
        case Data => outcome := HandleDataPacket(p);
        case State => outcome := HandleStatePacket(p);
        case Fin => outcome := HandleFinPacket(p);
        case ResetConnection => outcome := Handled(None, None);
      }
    }
  }
}
