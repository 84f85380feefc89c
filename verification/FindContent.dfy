/** FINDCONTENT and the content found for it (`handleFindContent` in subprotocols/protocol.ts,
    `sendFindContent` in subprotocols/history/history.ts). */
module FindContents {
  import opened Bytes
  import opened ContentStream
  import opened UtpSockets
  import opened PortalNetworkUtp
  import opened Requests
  import opened Offers
  import Packets
  import FF = FindFound

  /** Content of this size or more does not fit one message. */
  const MAX_PACKET_SIZE := 900

  /** The answers that are about content; closer peers or nothing otherwise. */
  datatype Found = ConnectionId(id: bytes) | Content(value: bytes) | Elsewhere

  /** Looks the key up under its content id. `id` and `random` are drawn for a stream, if there is one. */
  method HandleFindContent(holder: BaseProtocol, srcId: string, key: bytes, id: nat, random: nat)
    returns (found: Found, request: ContentRequest?)
    requires holder.uTP.Valid() && |srcId| >= 5 && id < 0x1_0000
    modifies holder.uTP, holder.uTP.utp
    ensures holder.uTP.Valid() && holder.uTP.utp.sent == old(holder.uTP.utp.sent)
    ensures found == if holder.contentId(key) !in holder.db || holder.db[holder.contentId(key)] == [] then Elsewhere
                     else if |holder.db[holder.contentId(key)]| < 900
                     then Content(holder.db[holder.contentId(key)])
                     else ConnectionId(Packets.BigEndian(id, 2))
    ensures request != null <==> found.ConnectionId?
    ensures request == null ==> holder.uTP.Table() == old(holder.uTP.Table())
    ensures request != null ==>
              && fresh(request.socket) && request.contentKeys == [key]
              && holder.uTP.EntryOf(request) == Opened(FoundContentWrite, id, srcId)
              && holder.uTP.Table() ==
                   old(holder.uTP.Table())[KeyOf(holder.uTP.EntryOf(request)) := holder.uTP.EntryOf(request)]
              && request.socket.View() ==
                   NewSock(FoundContentWrite, id, random, holder.db[holder.contentId(key)])
  {
    request := null;
    var value := [];
    if holder.contentId(key) in holder.db {
      value := holder.db[holder.contentId(key)];
    }
    if |value| == 0 {
      return Elsewhere, null;
    }
    if |value| < MAX_PACKET_SIZE {
      return Content(value), null;
    }
    request := holder.uTP.HandleNewRequest(FoundContentWrite, srcId, id, [key], [value], random);
    found := ConnectionId(Packets.BigEndian(id, 2));
  }

  /** Opens the reading end for an answer that names a connection id. */
  method TakeFound(finder: BaseProtocol, dstId: string, key: bytes, found: Found, random: nat)
    returns (request: ContentRequest?)
    requires finder.uTP.Valid() && |dstId| >= 5 && (found.ConnectionId? ==> |found.id| == 2)
    modifies finder.uTP, finder.uTP.utp
    ensures finder.uTP.Valid()
    ensures request != null <==> found.ConnectionId?
    ensures request == null ==>
              finder.uTP.Table() == old(finder.uTP.Table()) && finder.uTP.utp.sent == old(finder.uTP.utp.sent)
    ensures request != null ==>
              var id := Packets.FromBigEndian(found.id);
              && fresh(request.socket) && request.contentKeys == [key]
              && finder.uTP.EntryOf(request) == Opened(FindContentRead, id, dstId)
              && request.socket.View() == NewSock(FindContentRead, id, random, []).(state := Some(SynSent))
              && finder.uTP.utp.sent ==
                   old(finder.uTP.utp.sent) + [Segment(Syn, id + 1, 1, random, None, [])]
  {
    request := null;
    if found.ConnectionId? {
      var id := Packets.FromBigEndian(found.id);
      request := finder.uTP.HandleNewRequest(FindContentRead, dstId, id, [key], [], random);
    }
  }

  /** Both ends of a FINDCONTENT for content too large for a message: the sockets are the two ends of
      the exchange that `FindFound` runs, on the very content the holder has under the key's content id,
      and exactly its SYN has been sent. */
  method FindAndFound(finder: BaseProtocol, holder: BaseProtocol, finderId: string, holderId: string,
                      key: bytes, id: nat, findRandom: nat, openRandom: nat, ghost synRandom: nat)
    returns (reader: ContentRequest?, writer: ContentRequest?)
    requires finder != holder && finder.uTP != holder.uTP && finder.uTP.utp != holder.uTP.utp
    requires finder.uTP.Valid() && holder.uTP.Valid()
    requires |finderId| >= 5 && |holderId| >= 5 && id < 0x1_0000
    modifies finder.uTP, finder.uTP.utp, holder.uTP, holder.uTP.utp
    ensures finder.uTP.Valid() && holder.uTP.Valid()
    ensures var cid := holder.contentId(key);
            && (reader != null <==> cid in holder.db && |holder.db[cid]| >= 900)
            && (writer != null <==> cid in holder.db && |holder.db[cid]| >= 900)
            && (reader != null && writer != null ==>
                  var c := FF.Config(holder.db[cid], id, findRandom, openRandom, synRandom);
                  && reader.contentKeys == writer.contentKeys == [key]
                  && reader.connectionId == writer.connectionId == id
                  && reader.socket.View() == FF.Start(c).read
                  && writer.socket.View() == FF.Start(c).write
                  && holder.uTP.utp.sent == old(holder.uTP.utp.sent)
                  && finder.uTP.utp.sent == old(finder.uTP.utp.sent) + [FF.SynPacket(c)])
  {
    hide NewSock, WellFiled, KeyOf;
    var found;
    found, writer := HandleFindContent(holder, finderId, key, id, openRandom);
    IdComesBack(id);
    reader := TakeFound(finder, holderId, key, found, findRandom);
    StreamEnds(if holder.contentId(key) in holder.db then holder.db[holder.contentId(key)] else [],
               id, findRandom, openRandom, synRandom);
  }

  lemma StreamEnds(content: bytes, id: nat, findRandom: nat, openRandom: nat, synRandom: nat)
    ensures var c := FF.Config(content, id, findRandom, openRandom, synRandom);
            && FF.Start(c).read == NewSock(FindContentRead, id, findRandom, []).(state := Some(SynSent))
            && FF.Start(c).write == NewSock(FoundContentWrite, id, openRandom, content)
            && FF.SynPacket(c) == Segment(Syn, id + 1, 1, findRandom, None, [])
            && FF.Start(c).toWrite == {FF.SynPacket(c)}
  {
    var c := FF.Config(content, id, findRandom, openRandom, synRandom);
    var read := OnInit(FindContentRead, NewSock(FindContentRead, id, findRandom, []));
    assert read.1 == [FF.SynPacket(c)];
  }
}
