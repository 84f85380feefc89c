/** A uTP socket with its reader and writer (Socket/UtpSocket.ts, Protocol/write/ContentWriter.ts,
    Protocol/read/ContentReader.ts, Packets/PacketSenders.ts). The classes are the source's; the
    functions on `Sock` say what each call does to a socket and which packets it emits. */
module UtpSockets {
  import opened Bytes
  import opened ContentStream

  datatype PacketType = Data | Fin | State | ResetConnection | Syn

  datatype ConnectionState = SynSent | SynRecv | Connected | Reset | Closed | GotFin

  /** The fields of a packet that depend on the socket. `selective` are the numbers listed in a
      selective ACK. */
  datatype Segment = Segment(
    pType: PacketType,
    connectionId: int,
    seqNr: int,
    ackNr: int,
    selective: Option<seq<int>>,
    payload: bytes)

  datatype WriterState = WriterState(startingSeqNr: int, sent: nat)

  /** The value of a socket object, its reader and its writer. */
  datatype Sock = Sock(
    writes: bool,
    sndConnectionId: int,
    rcvConnectionId: int,
    seqNr: int,
    ackNr: int,
    nextSeq: Option<int>,
    finNr: Option<int>,
    state: Option<ConnectionState>,
    content: bytes,
    writer: Option<WriterState>,
    reader: Option<seq<Numbered>>,
    dataNrs: seq<int>,
    ackNrs: seq<int>)

  /** A packet of the given kind carrying the socket's current numbers. */
  function Carrying(s: Sock, pType: PacketType): Segment {
    Segment(pType, s.sndConnectionId, s.seqNr, s.ackNr, None, [])
  }

  function SynOf(s: Sock): Segment {
    Segment(Syn, s.sndConnectionId, 1, s.ackNr, None, [])
  }

  /** The extension's length is one byte: with more numbers the header cannot be built and nothing
      is sent. */
  function SelectiveAck(s: Sock): seq<Segment> {
    if |s.ackNrs| < 256 then [Carrying(s, State).(selective := Some(s.ackNrs))] else []
  }

  /** `count` consecutive numbers. */
  function Numbers(start: int, count: nat): (r: seq<int>)
    ensures |r| == count
    ensures forall i :: 0 <= i < count ==> r[i] == start + i
  {
    seq(count, i => start + i)
  }

  /** The packet for chunk i: its number is the socket's plus i. */
  function DataSegment(s: Sock, i: nat): Segment
    requires i < ChunkCount(s.content)
  {
    Segment(Data, s.sndConnectionId, s.seqNr + i, s.ackNr, None, Chunk(s.content, i))
  }

  function FirstSegments(s: Sock, count: nat): seq<Segment>
    requires count <= ChunkCount(s.content)
  {
    if count == 0 then [] else FirstSegments(s, count - 1) + [DataSegment(s, count - 1)]
  }

  /** The DATA packets of a whole content. */
  function DataSegments(s: Sock): seq<Segment> {
    FirstSegments(s, ChunkCount(s.content))
  }

  /** Membership in the stream, read off the number. */
  lemma {:induction false} FirstSegmentsAre(sock: Sock, count: nat, p: Segment)
    requires count <= ChunkCount(sock.content)
    ensures p in FirstSegments(sock, count) <==>
              && 0 <= p.seqNr - sock.seqNr < count
              && p == DataSegment(sock, p.seqNr - sock.seqNr)
  {
    if count > 0 {
      FirstSegmentsAre(sock, count - 1, p);
      assert p in FirstSegments(sock, count) <==>
               p in FirstSegments(sock, count - 1) || p == DataSegment(sock, count - 1);
    }
  }

  /** A socket after a new writer has cut its content. */
  function WithWriter(s: Sock, start: int): Sock {
    s.(writer := Some(WriterState(start, 0)), dataNrs := s.dataNrs + Numbers(start, ChunkCount(s.content)))
  }

  /** A socket after its writer has sent everything. */
  function Written(s: Sock): Sock
    requires s.writer.Some?
  {
    s.(state := Some(Connected),
       seqNr := s.seqNr + ChunkCount(s.content),
       writer := Some(s.writer.value.(sent := ChunkCount(s.content))))
  }

  /** First half of `handleDataPacket`, up to its await. Also tells whether the number was the
      expected one. */
  function ReceiveData(s: Sock, p: Segment): (Sock, bool) {
    var packets := if s.reader.Some? then s.reader.value else [];
    (s.(state := Some(Connected),
        nextSeq := Some(p.seqNr + 1),
        seqNr := s.seqNr + 1,
        ackNr := p.seqNr,
        reader := Some(packets + [Numbered(p.seqNr, p.payload)])),
     s.nextSeq == Some(p.seqNr))
  }

  /** Second half of `handleDataPacket`: acknowledge whatever `ackNr` is by then. */
  function AcknowledgeData(s: Sock, expected: bool): (Sock, seq<Segment>) {
    var r := s.(ackNrs := s.ackNrs + [s.ackNr]);
    (r, if expected then [Carrying(r, State)] else SelectiveAck(r))
  }

  /** `handleFinPacket`: the compiled content, with the reader's packets left sorted. */
  function ReceiveFin(s: Sock, p: Segment): (Sock, bytes, seq<Segment>)
    requires s.reader.Some?
  {
    var r := s.(state := Some(GotFin),
                reader := Some(SortPackets(s.reader.value)),
                seqNr := s.seqNr + 1,
                ackNr := p.seqNr);
    (r, Compiled(s.reader.value), [Carrying(r, State)])
  }

  /** The same numbers, each equally often, in any order. */
  predicate SameNumbers(a: seq<int>, b: seq<int>) {
    multiset(a) == multiset(b)
  }

  function WithAck(ackNrs: seq<int>, ackNr: int): seq<int> {
    if ackNr > 1 && ackNr !in ackNrs then ackNrs + [ackNr] else ackNrs
  }

  /** `UtpSocket.handleStatePacket`; the flag is what it reports: everything acknowledged. */
  function ReceiveState(s: Sock, p: Segment): (Sock, bool, seq<Segment>) {
    if s.finNr == Some(p.ackNr) then (s.(state := Some(Closed)), true, [])
    else if !s.writes then
      var r := s.(state := Some(Connected));
      (r, false, [Carrying(r, State)])
    else
      var acks := WithAck(s.ackNrs, p.ackNr);
      (s.(state := Some(Connected), dataNrs := SortNumbers(s.dataNrs), ackNrs := SortNumbers(acks)),
       SameNumbers(s.dataNrs, acks),
       [])
  }

  /** What a socket makes of an ACK. The FIN's closes it; a reading socket answers with an ACK of its own;
      a writing one notes the number, unless it is 0, 1 or known, and reports whether the numbers noted
      are now those of its data, each as often. */
  lemma StateReport(s: Sock, p: Segment)
    ensures var r := ReceiveState(s, p);
            var acks := if p.ackNr <= 1 || p.ackNr in s.ackNrs then s.ackNrs else s.ackNrs + [p.ackNr];
            && (s.finNr == Some(p.ackNr) ==> r == (s.(state := Some(Closed)), true, []))
            && (s.finNr != Some(p.ackNr) && !s.writes ==>
                  r == (s.(state := Some(Connected)), false,
                        [Segment(State, s.sndConnectionId, s.seqNr, s.ackNr, None, [])]))
            && (s.finNr != Some(p.ackNr) && s.writes ==>
                  && r.0 == s.(state := Some(Connected), dataNrs := r.0.dataNrs, ackNrs := r.0.ackNrs)
                  && r.1 == (multiset(s.dataNrs) == multiset(acks)) && r.2 == []
                  && Ascending(r.0.dataNrs) && multiset(r.0.dataNrs) == multiset(s.dataNrs)
                  && Ascending(r.0.ackNrs) && multiset(r.0.ackNrs) == multiset(acks))
  {
    hide SortNumbers, Ascending;
    SortNumbersSorts(s.dataNrs);
    SortNumbersSorts(WithAck(s.ackNrs, p.ackNr));
  }

  /** The packets handed to the transport, in order. */
  class Outbox {
    var sent: seq<Segment>

    constructor ()
      ensures sent == []
    {
      sent := [];
    }
  }

  class ContentReader {
    const startingDataNr: int
    var packets: seq<Numbered>
    var inOrder: seq<Numbered>
    var nextDataNr: int

    constructor (startingDataNr: int)
      ensures packets == [] && InStep() && inOrder == [] && nextDataNr == startingDataNr
    {
      this.startingDataNr := startingDataNr;
      packets, inOrder, nextDataNr := [], [], startingDataNr;
    }

    /** `inOrder` has the packets with consecutive numbers from the starting number up to the next one. */
    ghost predicate InStep()
      reads this
    {
      && nextDataNr == startingDataNr + |inOrder|
      && forall i :: 0 <= i < |inOrder| ==> inOrder[i].seqNr == startingDataNr + i
    }

    method AddPacket(p: Segment) returns (expected: bool)
      modifies this
      ensures packets == old(packets) + [Numbered(p.seqNr, p.payload)]
      ensures expected <==> p.seqNr == old(nextDataNr)
      ensures inOrder == old(inOrder) + if expected then [Numbered(p.seqNr, p.payload)] else []
      ensures nextDataNr == old(nextDataNr) + if expected then 1 else 0
      ensures old(InStep()) ==> InStep()
    {
      packets := packets + [Numbered(p.seqNr, p.payload)];
      expected := p.seqNr == nextDataNr;
      if expected {
        inOrder := inOrder + [Numbered(p.seqNr, p.payload)];
        nextDataNr := nextDataNr + 1;
      }
    }

    static method Compile(precompiled: seq<bytes>) returns (compiled: bytes)
      ensures compiled == Concat(precompiled)
    {
      compiled := [];
      for i := 0 to |precompiled|
        invariant compiled == Concat(precompiled[..i])
      {
        ConcatAppend(precompiled[..i], precompiled[i]);
        assert precompiled[..i + 1] == precompiled[..i] + [precompiled[i]];
        compiled := compiled + precompiled[i];
      }
      assert precompiled[..|precompiled|] == precompiled;
    }

    /** Sorts its packets in place. */
    method Run() returns (compiled: bytes)
      modifies this`packets
      ensures packets == SortPackets(old(packets))
      ensures compiled == Compiled(old(packets))
    {
      packets := SortPackets(packets);
      compiled := Compile(Payloads(packets));
    }
  }

  /** The first `count` chunks are filed under consecutive numbers. */
  ghost predicate Filed(chunks: map<int, bytes>, content: bytes, start: int, count: nat)
    requires count <= ChunkCount(content)
  {
    forall k :: start <= k < start + count ==> k in chunks && chunks[k] == Chunk(content, k - start)
  }

  class ContentWriter {
    const socket: UtpSocket
    const startingSeqNr: int
    var seqNr: int
    var writing: bool
    var sentChunks: seq<int>
    var dataChunks: map<int, bytes>

    /** Every chunk is filed under its number, and the next number to send is the next unsent one. */
    ghost predicate Valid()
      reads this
    {
      && seqNr == startingSeqNr + |sentChunks|
      && |dataChunks| == ChunkCount(socket.content)
      && Filed(dataChunks, socket.content, startingSeqNr, ChunkCount(socket.content))
    }

    constructor (socket: UtpSocket, startingSeqNr: int)
      modifies socket`dataNrs
      ensures fresh(this) && Valid()
      ensures this.socket == socket && this.startingSeqNr == startingSeqNr && sentChunks == []
      ensures socket.dataNrs == old(socket.dataNrs) + Numbers(startingSeqNr, ChunkCount(socket.content))
    {
      this.socket, this.startingSeqNr := socket, startingSeqNr;
      seqNr, writing, sentChunks, dataChunks := startingSeqNr, false, [], map[];
      new;
      dataChunks := Chunks();
    }

    /** Cuts 512 bytes at a time off the front of what is left. */
    method Chunks() returns (chunks: map<int, bytes>)
      modifies socket`dataNrs
      ensures |chunks| == ChunkCount(socket.content)
      ensures Filed(chunks, socket.content, startingSeqNr, ChunkCount(socket.content))
      ensures socket.dataNrs == old(socket.dataNrs) + Numbers(startingSeqNr, ChunkCount(socket.content))
    {
      var arrayMod := socket.content;
      var total := ChunkCount(socket.content);
      chunks := map[];
      for i := 0 to total
        invariant |chunks| == i
        invariant i < total ==> arrayMod == socket.content[BUFFER_SIZE * i..]
        invariant forall j :: j in chunks ==> startingSeqNr <= j < startingSeqNr + i
        invariant Filed(chunks, socket.content, startingSeqNr, i)
        invariant socket.dataNrs == old(socket.dataNrs) + Numbers(startingSeqNr, i)
      {
        assert BUFFER_SIZE * i < |socket.content|;
        // An undefined end is the end of the array for the chunk, its start for what is left.
        var end := if |arrayMod| > 512 then Some(512) else None;
        chunks := chunks[i + startingSeqNr := if end.Some? then arrayMod[..end.value] else arrayMod];
        arrayMod := if end.Some? then arrayMod[end.value..] else arrayMod;
        socket.dataNrs := socket.dataNrs + [i + startingSeqNr];
        assert Numbers(startingSeqNr, i + 1) == Numbers(startingSeqNr, i) + [startingSeqNr + i];
      }
    }

    /** One round of the send loop: the chunk filed under `seqNr`, or nothing, goes out under the
        socket's own number. */
    method SendNext()
      requires Valid()
      requires |sentChunks| < ChunkCount(socket.content)
      modifies this`seqNr, this`sentChunks, socket`seqNr, socket`state, socket.utp
      ensures Valid() && |sentChunks| == |old(sentChunks)| + 1
      ensures socket.seqNr == old(socket.seqNr) + 1 && socket.state == Some(Connected)
      ensures socket.utp.sent == old(socket.utp.sent) +
              [Segment(Data, socket.sndConnectionId, old(socket.seqNr), socket.ackNr, None,
                       Chunk(socket.content, |sentChunks| - 1))]
    {
      var bytes := if seqNr in dataChunks then dataChunks[seqNr] else [];
      sentChunks := sentChunks + [seqNr];
      socket.SendDataPacket(bytes);
      seqNr := seqNr + 1;
    }

    /** Sends every chunk, the i-th under the socket's number plus i, in exactly as many packets as
        there are chunks. */
    method Start()
      requires Valid() && sentChunks == []
      requires socket.writer == this
      requires ChunkCount(socket.content) > 0
      modifies this, socket`seqNr, socket`state, socket.utp
      ensures Valid()
      ensures socket.View() == Written(old(socket.View()))
      ensures socket.utp.sent == old(socket.utp.sent) + DataSegments(old(socket.View()))
    {
      ghost var before := socket.View();
      var chunks := |dataChunks|;
      writing := true;
      while writing
        invariant Valid()
        invariant |sentChunks| <= chunks == ChunkCount(socket.content)
        invariant writing <==> |sentChunks| < chunks
        invariant socket.seqNr == old(socket.seqNr) + |sentChunks|
        invariant |sentChunks| > 0 ==> socket.state == Some(Connected)
        invariant socket.utp.sent == old(socket.utp.sent) + FirstSegments(before, |sentChunks|)
        decreases chunks - |sentChunks|
      {
        SendNext();
        writing := chunks != |sentChunks|;
      }
    }
  }

  /** `start` on a writer without chunks: the value of `writing` after `passes` rounds. It compares
      for equality after the first packet, so it never becomes false. */
  function StillWriting(chunks: nat, passes: nat): bool {
    if passes == 0 then true else StillWriting(chunks, passes - 1) && chunks != passes
  }

  /** The send loop comes to an end, after exactly the number of chunks, if and only if there is
      something to send. */
  lemma {:induction false} StartTerminates(chunks: nat, passes: nat)
    ensures !StillWriting(chunks, passes) <==> 0 < chunks <= passes
  {
    if passes > 0 {
      StartTerminates(chunks, passes - 1);
    }
  }

  class UtpSocket {
    const utp: Outbox
    const writes: bool
    const sndConnectionId: int
    const rcvConnectionId: int
    const content: bytes
    var seqNr: int
    var ackNr: int
    var nextSeq: Option<int>
    var finNr: Option<int>
    var state: Option<ConnectionState>
    var writer: ContentWriter?
    var reader: ContentReader?
    var dataNrs: seq<int>
    var ackNrs: seq<int>

    ghost function View(): Sock
      reads this, writer, reader
    {
      Sock(writes, sndConnectionId, rcvConnectionId, seqNr, ackNr, nextSeq, finNr, state, content,
           if writer == null then None else Some(WriterState(writer.startingSeqNr, |writer.sentChunks|)),
           if reader == null then None else Some(reader.packets),
           dataNrs, ackNrs)
    }

    ghost predicate Valid()
      reads this, writer
    {
      writer != null ==> writer.socket == this && writer.Valid()
    }

    constructor (utp: Outbox, sndId: int, rcvId: int, seqNr: int, ackNr: int, nextSeq: Option<int>,
                 writes: bool, content: bytes)
      ensures Valid() && this.utp == utp
      ensures View() == Sock(writes, sndId, rcvId, seqNr, ackNr, nextSeq, None, None, content, None, None, [], [])
    {
      this.utp, this.writes, this.content := utp, writes, content;
      sndConnectionId, rcvConnectionId := sndId, rcvId;
      this.seqNr, this.ackNr, this.nextSeq := seqNr, ackNr, nextSeq;
      finNr, state, writer, reader, dataNrs, ackNrs := None, None, null, null, [], [];
    }

    method SendPacket(p: Segment)
      modifies utp
      ensures utp.sent == old(utp.sent) + [p]
    {
      utp.sent := utp.sent + [p];
    }

    method SendSynPacket()
      requires Valid()
      modifies this`state, utp
      ensures Valid()
      ensures View() == old(View()).(state := Some(SynSent))
      ensures utp.sent == old(utp.sent) + [SynOf(old(View()))]
    {
      state := Some(SynSent);
      SendPacket(Segment(Syn, sndConnectionId, 1, ackNr, None, []));
    }

    method SendSynAckPacket()
      requires Valid()
      modifies this`ackNr, utp
      ensures Valid()
      ensures View() == old(View()).(ackNr := old(ackNr) + 1)
      ensures utp.sent == old(utp.sent) + [Carrying(old(View()), State)]
    {
      SendPacket(Segment(State, sndConnectionId, seqNr, ackNr, None, []));
      ackNr := ackNr + 1;
    }

    method SendDataPacket(payload: bytes)
      modifies this`state, this`seqNr, utp
      ensures View() == old(View()).(state := Some(Connected), seqNr := old(seqNr) + 1)
      ensures utp.sent == old(utp.sent) + [Carrying(old(View()), Data).(payload := payload)]
    {
      var p := Segment(Data, sndConnectionId, seqNr, ackNr, None, payload);
      state := Some(Connected);
      SendPacket(p);
      seqNr := seqNr + 1;
    }

    method SendAckPacket()
      modifies utp
      ensures utp.sent == old(utp.sent) + [Carrying(View(), State)]
    {
      SendPacket(Segment(State, sndConnectionId, seqNr, ackNr, None, []));
    }

    method SendSelectiveAckPacket()
      modifies utp
      ensures utp.sent == old(utp.sent) + SelectiveAck(View())
    {
      if |ackNrs| < 256 {
        SendPacket(Segment(State, sndConnectionId, seqNr, ackNr, Some(ackNrs), []));
      }
    }

    method SendFinPacket()
      requires Valid()
      modifies this`finNr, utp
      ensures Valid()
      ensures View() == old(View()).(finNr := Some(old(seqNr)))
      ensures utp.sent == old(utp.sent) + [Carrying(old(View()), Fin)]
    {
      var p := Segment(Fin, sndConnectionId, seqNr, ackNr, None, []);
      finNr := Some(p.seqNr);
      SendPacket(p);
    }

    /** Sorts both lists in place. True exactly when they hold the same numbers
        equally often. */
    method Compare() returns (equal: bool)
      modifies this`dataNrs, this`ackNrs
      ensures View() == old(View()).(dataNrs := SortNumbers(old(dataNrs)), ackNrs := SortNumbers(old(ackNrs)))
      ensures equal <==> SameNumbers(old(dataNrs), old(ackNrs))
    {
      SortedEqualIffSameBag(dataNrs, ackNrs);
      dataNrs := SortNumbers(dataNrs);
      ackNrs := SortNumbers(ackNrs);
      equal := dataNrs == ackNrs;
    }

    /** What a writing socket does with an ACK. */
    method NoteAck(p: Segment) returns (done: bool)
      modifies this`dataNrs, this`ackNrs
      ensures var acks := WithAck(old(ackNrs), p.ackNr);
              && View() == old(View()).(dataNrs := SortNumbers(old(dataNrs)), ackNrs := SortNumbers(acks))
              && done == SameNumbers(old(dataNrs), acks)
    {
      if p.ackNr > 1 && p.ackNr !in ackNrs {
        ackNrs := ackNrs + [p.ackNr];
      }
      done := Compare();
    }

    method HandleStatePacket(p: Segment) returns (done: bool)
      requires Valid()
      modifies this`state, this`dataNrs, this`ackNrs, utp
      ensures Valid()
      ensures View() == ReceiveState(old(View()), p).0
      ensures done == ReceiveState(old(View()), p).1
      ensures utp.sent == old(utp.sent) + ReceiveState(old(View()), p).2
    {
      hide Filed, SortNumbers, ChunkCount;
      if finNr == Some(p.ackNr) {
        state := Some(Closed);
        return true;
      }
      state := Some(Connected);
      if !writes {
        SendAckPacket();
        return false;
      }
      done := NoteAck(p);
    }

    /** `handleDataPacket` up to its await. */
    method AcceptDataPacket(p: Segment) returns (expected: bool)
      requires Valid()
      modifies this`state, this`nextSeq, this`seqNr, this`ackNr, this`reader, reader
      ensures Valid()
      ensures View() == ReceiveData(old(View()), p).0
      ensures expected == ReceiveData(old(View()), p).1
      ensures old(reader) != null ==> reader == old(reader)
      ensures old(reader) == null ==> fresh(reader)
    {
      hide Filed, ChunkCount;
      state := Some(Connected);
      expected := nextSeq == Some(p.seqNr);
      nextSeq := Some(p.seqNr + 1);
      seqNr := seqNr + 1;
      ackNr := p.seqNr;
      if reader == null {
        reader := new ContentReader(p.seqNr);
      }
      var inStep := reader.AddPacket(p);
    }

    /** `handleDataPacket` from its await on. */
    method AcknowledgeDataPacket(expected: bool)
      requires Valid()
      modifies this`ackNrs, utp
      ensures Valid()
      ensures View() == AcknowledgeData(old(View()), expected).0
      ensures utp.sent == old(utp.sent) + AcknowledgeData(old(View()), expected).1
    {
      ackNrs := ackNrs + [ackNr];
      if expected {
        SendAckPacket();
      } else {
        SendSelectiveAckPacket();
      }
    }

    method HandleFinPacket(p: Segment) returns (content: bytes)
      requires Valid() && reader != null
      modifies this`state, this`seqNr, this`ackNr, reader, utp
      ensures Valid()
      ensures View() == ReceiveFin(old(View()), p).0
      ensures content == ReceiveFin(old(View()), p).1
      ensures utp.sent == old(utp.sent) + ReceiveFin(old(View()), p).2
    {
      state := Some(GotFin);
      content := reader.Run();
      seqNr := seqNr + 1;
      ackNr := p.seqNr;
      SendAckPacket();
    }
  }
}
