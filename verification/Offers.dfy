/** OFFER and ACCEPT messages and what their stream delivers (subprotocols/protocol.ts, and the
    `streamer` of PortalNetworkUtp/PortalNetworkUTP.ts). */
module Offers {
  import opened Bytes
  import opened ContentStream
  import opened UtpSockets
  import opened PortalNetworkUtp
  import opened Requests
  import opened VariantPrefix
  import Packets
  import OA = OfferAccept

  /** Content ids are hashes of content keys; the hash is not part of this model. */
  type ContentId = bytes
  type Database = map<ContentId, bytes>

  datatype Response = Empty | Accept(connectionId: bytes, contentKeys: seq<bool>)

  /** The offered keys the accepter does not have. */
  function Wanted(keys: seq<bytes>, id: bytes -> ContentId, db: Database): seq<bool> {
    seq(|keys|, i requires 0 <= i < |keys| => id(keys[i]) !in db)
  }

  /** A bit beyond the end of the bit array reads as false. */
  predicate Bit(bits: seq<bool>, i: nat) {
    i < |bits| && bits[i]
  }

  /** The keys whose bit is set, in order: `filter` with an index. */
  function Chosen(keys: seq<bytes>, bits: seq<bool>): seq<bytes> {
    if keys == [] then []
    else (if Bit(bits, 0) then [keys[0]] else []) + Chosen(keys[1..], if bits == [] then [] else bits[1..])
  }

  /** What the offerer streams for a key: nothing, if it has lost the content. */
  function Stored(key: bytes, id: bytes -> ContentId, db: Database): bytes {
    if id(key) in db then db[id(key)] else []
  }

  function AllStored(keys: seq<bytes>, id: bytes -> ContentId, db: Database): (data: seq<bytes>)
    ensures |data| == |keys|
    ensures forall i :: 0 <= i < |keys| ==> data[i] == Stored(keys[i], id, db)
  {
    seq(|keys|, i requires 0 <= i < |keys| => Stored(keys[i], id, db))
  }

  function Finished(data: seq<bytes>, order: seq<nat>): (r: seq<bytes>)
    requires IsOrder(order, |data|)
    ensures |r| == |data| && forall i :: 0 <= i < |data| ==> r[i] == data[order[i]]
  {
    seq(|data|, i requires 0 <= i < |data| => data[order[i]])
  }

  lemma {:induction false} ChosenIsOrdered(keys: seq<bytes>, bits: seq<bool>, k: bytes)
    ensures k in Chosen(keys, bits) <==> exists i: nat :: i < |keys| && Bit(bits, i) && keys[i] == k
  {
    if keys != [] {
      var rest := if bits == [] then [] else bits[1..];
      ChosenIsOrdered(keys[1..], rest, k);
      if j: nat :| j < |keys[1..]| && Bit(rest, j) && keys[1..][j] == k {
        assert Bit(bits, j + 1) && keys[j + 1] == k;
      }
      if i: nat :| i < |keys| && Bit(bits, i) && keys[i] == k {
        if i > 0 {
          assert Bit(rest, i - 1) && keys[1..][i - 1] == k;
        }
      }
    }
  }

  /** Something is chosen exactly when some bit is set: the accepter's `offerAccepted`. */
  lemma {:induction false} ChosenNothing(keys: seq<bytes>, bits: seq<bool>)
    ensures Chosen(keys, bits) == [] <==> forall i: nat :: i < |keys| ==> !Bit(bits, i)
  {
    if keys != [] {
      var rest := if bits == [] then [] else bits[1..];
      ChosenNothing(keys[1..], rest);
      forall i: nat | i < |keys[1..]| ensures Bit(rest, i) == Bit(bits, i + 1) {
      }
      if forall i: nat :: i < |keys| ==> !Bit(bits, i) {
        forall i: nat | i < |keys[1..]| ensures !Bit(rest, i) {
          assert !Bit(bits, i + 1);
        }
      }
      if forall i: nat :: i < |keys[1..]| ==> !Bit(rest, i) {
        forall i: nat | i < |keys| && 0 < i ensures !Bit(bits, i) {
          assert !Bit(rest, i - 1);
        }
      }
    }
  }

  class BaseProtocol {
    const uTP: PortalNetworkUTP
    const contentId: bytes -> ContentId
    var db: Database
    var responses: seq<Response>

    constructor (uTP: PortalNetworkUTP, contentId: bytes -> ContentId, db: Database)
      ensures this.uTP == uTP && this.contentId == contentId && this.db == db && responses == []
    {
      this.uTP, this.contentId, this.db, responses := uTP, contentId, db, [];
    }

    method FlagWanted(contentKeys: seq<bytes>) returns (contentIds: seq<bool>, offerAccepted: bool)
      ensures contentIds == Wanted(contentKeys, contentId, db)
      ensures offerAccepted <==> Chosen(contentKeys, contentIds) != []
    {
      var flags := new bool[|contentKeys|](_ => false);
      offerAccepted := false;
      for x := 0 to |contentKeys|
        invariant flags[..x] == Wanted(contentKeys, contentId, db)[..x]
        invariant forall y :: x <= y < |contentKeys| ==> !flags[y]
        invariant offerAccepted <==> exists y :: 0 <= y < x && flags[y]
      {
        if contentId(contentKeys[x]) !in db {
          offerAccepted := true;
          flags[x] := true;
        }
      }
      contentIds := flags[..];
      ChosenNothing(contentKeys, contentIds);
      assert forall y: nat :: y < |contentKeys| ==> Bit(contentIds, y) == flags[y];
    }

    /** Answers an OFFER. With nothing wanted it answers twice. `id` is the connection id drawn for an
        ACCEPT, `random` the number drawn for its socket. */
    method HandleOffer(peerId: string, contentKeys: seq<bytes>, id: nat, random: nat)
      returns (request: ContentRequest?)
      requires uTP.Valid() && |peerId| >= 5 && id < 0x1_0000
      modifies this, uTP, uTP.utp
      ensures uTP.Valid() && db == old(db) && uTP.utp.sent == old(uTP.utp.sent)
      ensures var bits := Wanted(contentKeys, contentId, db);
              var keys := Chosen(contentKeys, bits);
              && (request != null <==> keys != [])
              && responses == old(responses) +
                   (if contentKeys == [] then [Empty] else if keys == [] then [Empty, Empty]
                    else [Accept(Packets.BigEndian(id, 2), bits)])
              && (request == null ==> uTP.Table() == old(uTP.Table()))
              && (request != null ==>
                    && fresh(request.socket) && request.contentKeys == keys
                    && uTP.EntryOf(request) == Opened(AcceptRead, id, peerId)
                    && uTP.Table() == old(uTP.Table())[KeyOf(uTP.EntryOf(request)) := uTP.EntryOf(request)]
                    && request.socket.View() == NewSock(AcceptRead, id, random, []))
    {
      request := null;
      if |contentKeys| == 0 {
        responses := responses + [Empty];
        return;
      }
      var contentIds, offerAccepted := FlagWanted(contentKeys);
      if offerAccepted {
        var desiredKeys := Chosen(contentKeys, contentIds);
        request := uTP.HandleNewRequest(AcceptRead, peerId, id, desiredKeys, [], random);
        responses := responses + [Accept(Packets.BigEndian(id, 2), contentIds)];
      } else {
        responses := responses + [Empty];
        responses := responses + [Empty];
      }
    }

    /** Reads the requested content; a value is listed when its read finishes. */
    method RequestedData(keys: seq<bytes>, order: seq<nat>) returns (data: seq<bytes>)
      requires IsOrder(order, |keys|)
      ensures data == Finished(AllStored(keys, contentId, db), order)
    {
      data := [];
      for i := 0 to |order|
        invariant data == Finished(AllStored(keys, contentId, db), order)[..i]
      {
        var key := keys[order[i]];
        var value := [];
        if contentId(key) in db {
          value := db[contentId(key)];
        }
        data := data + [value];
      }
    }

    /** Takes the response to an OFFER already sent: opens a stream for the requested content.
        `order` is that in which the reads finish. */
    method HandleAccept(peerId: string, contentKeys: seq<bytes>, response: Response, random: nat, order: seq<nat>)
      returns (request: ContentRequest?)
      requires uTP.Valid() && |peerId| >= 5
      requires response.Accept? ==> |response.connectionId| == 2
      requires response.Accept? ==> IsOrder(order, |Chosen(contentKeys, response.contentKeys)|)
      modifies uTP, uTP.utp
      ensures uTP.Valid()
      ensures request != null <==> response.Accept? && Chosen(contentKeys, response.contentKeys) != []
      ensures request == null ==> uTP.Table() == old(uTP.Table()) && uTP.utp.sent == old(uTP.utp.sent)
      ensures request != null ==>
                var keys := Chosen(contentKeys, response.contentKeys);
                var id := Packets.FromBigEndian(response.connectionId);
                var data := Finished(AllStored(keys, contentId, db), order);
                var sock := NewSock(OfferWrite, id, random, StreamContent(data));
                && request.contentKeys == keys
                && uTP.EntryOf(request) == Opened(OfferWrite, id, peerId)
                && uTP.Table() == old(uTP.Table())[KeyOf(uTP.EntryOf(request)) := uTP.EntryOf(request)]
                && request.socket.View() == OnInit(OfferWrite, sock).0
                && uTP.utp.sent == old(uTP.utp.sent) + OnInit(OfferWrite, sock).1
    {
      request := null;
      if response.Empty? {
        return;
      }
      var id := Packets.FromBigEndian(response.connectionId);
      var requestedKeys := Chosen(contentKeys, response.contentKeys);
      if requestedKeys == [] {
        return;
      }
      var requestedData := RequestedData(requestedKeys, order);
      request := uTP.HandleNewRequest(OfferWrite, peerId, id, requestedKeys, requestedData, random);
    }
  }

  /** Each key with its item of the stream; keys beyond the last item get nothing. */
  function Delivered(keys: seq<bytes>, contents: seq<bytes>): seq<(bytes, Option<bytes>)> {
    seq(|keys|, i requires 0 <= i < |keys| =>
      (keys[i], if i < |contents| then Some(contents[i]) else None))
  }

  /** A stream with fewer items than keys: its items go to the first keys, in order, and the others get
      an event without content. */
  lemma DeliveredShort(keys: seq<bytes>, contents: seq<bytes>)
    requires |contents| <= |keys|
    ensures Delivered(keys[..|contents|], contents) <= Delivered(keys, contents)
    ensures forall i :: 0 <= i < |contents| ==> Delivered(keys, contents)[i] == (keys[i], Some(contents[i]))
    ensures forall i :: |contents| <= i < |keys| ==> Delivered(keys, contents)[i] == (keys[i], None)
  {
  }

  ghost function StreamItems(keys: seq<bytes>, content: bytes, beyond: Beyond): seq<bytes>
    requires |keys| > 1 ==> Separable(content, beyond)
  {
    if |keys| > 1 then Items(content, beyond) else [content]
  }

  /** The 'Stream' events of one finished stream, cut short or not; without keys the source throws.
      With several keys it must come apart, as it always does if the decoder is bounded. */
  method Streamer(keys: seq<bytes>, content: bytes, beyond: Beyond)
    returns (events: Result<seq<(bytes, Option<bytes>)>>)
    requires |keys| > 1 ==> Separable(content, beyond)
    ensures events == if keys == [] then Err("Missing content keys")
                      else Ok(Delivered(keys, StreamItems(keys, content, beyond)))
  {
    var contents := [content];
    if |keys| > 1 {
      contents := DropPrefixes(content, beyond);
    }
    if |keys| < 1 {
      return Err("Missing content keys");
    }
    var emitted := [];
    for idx := 0 to |keys|
      invariant emitted == Delivered(keys, contents)[..idx]
    {
      emitted := emitted + [(keys[idx], if idx < |contents| then Some(contents[idx]) else None)];
    }
    assert emitted == Delivered(keys, contents);
    events := Ok(emitted);
  }

  /** The accepter's choice of prefix or no prefix, made from its keys, undoes the offerer's, made
      from its contents. */
  lemma StreamRoundTrip(keys: seq<bytes>, data: seq<bytes>, beyond: Beyond)
    requires keys != [] && |data| == |keys|
    ensures |keys| > 1 ==> Separable(StreamContent(data), beyond)
    ensures StreamItems(keys, StreamContent(data), beyond) == data
  {
    if |keys| > 1 {
      RoundTrip(data, beyond);
    } else {
      assert data == [data[0]];
    }
  }

  /** There is something to send, unless the one requested item is empty. */
  lemma StreamIsEmpty(data: seq<bytes>)
    requires data != []
    ensures StreamContent(data) == [] <==> data == [[]]
    ensures ChunkCount(StreamContent(data)) == 0 <==> data == [[]]
  {
    if |data| > 1 {
      EncodeSplit(data);
      EncodedIsPrefix(|data[0]|, []);
    } else {
      assert data == [data[0]];
    }
  }

  /** Both ends of an exchange that began with an OFFER of `offered`. */
  datatype Exchange = Exchange(
    offered: seq<bytes>,
    id: bytes -> ContentId,
    offererDb: Database,
    accepterDb: Database,
    connectionId: nat,
    offerRandom: nat,
    acceptRandom: nat,
    order: seq<nat>)
  {
    function Keys(): seq<bytes> {
      Chosen(offered, Wanted(offered, id, accepterDb))
    }

    function Data(): seq<bytes> {
      AllStored(Keys(), id, offererDb)
    }

    /** The offerer's reads have finished, in `order`. */
    predicate Read() {
      IsOrder(order, |Keys()|)
    }

    function Sent(): seq<bytes>
      requires Read()
    {
      Finished(Data(), order)
    }

    /** The pair of sockets it opens. */
    function Stream(): OA.Config
      requires Read()
    {
      OA.Config(StreamContent(Sent()), connectionId, offerRandom, acceptRandom)
    }
  }

  /** The accepter asks for exactly the offered keys it lacks. */
  lemma KeysAreWanted(x: Exchange, k: bytes)
    ensures k in x.Keys() <==> k in x.offered && x.id(k) !in x.accepterDb
  {
    var bits := Wanted(x.offered, x.id, x.accepterDb);
    ChosenIsOrdered(x.offered, bits, k);
    if k in x.offered && x.id(k) !in x.accepterDb {
      var i :| 0 <= i < |x.offered| && x.offered[i] == k;
      assert Bit(bits, i);
    }
  }

  lemma IdComesBack(id: nat)
    requires id < 0x1_0000
    ensures Packets.FromBigEndian(Packets.BigEndian(id, 2)) == id
  {
    Packets.Widths();
    Packets.BigEndianRoundTrip(id, 2);
  }

  /** The two sockets `OA.Start` puts together, and the first packet. */
  lemma StreamEnds(x: Exchange)
    requires x.Read()
    ensures var sock := NewSock(OfferWrite, x.connectionId, x.offerRandom, StreamContent(x.Sent()));
            && OA.Start(x.Stream()).accept == NewSock(AcceptRead, x.connectionId, x.acceptRandom, [])
            && OA.Start(x.Stream()).offer == OnInit(OfferWrite, sock).0
            && OnInit(OfferWrite, sock).1 == [OA.SynPacket(x.Stream())]
  {
  }

  /** An OFFER and the answer to it, from one node to another. Both ends find the same keys in the same
      order and the same connection id, and their sockets are the two ends of the stream of
      `Exchange`. */
  method OfferAndAccept(offerer: BaseProtocol, accepter: BaseProtocol, offererId: string, accepterId: string,
                        contentKeys: seq<bytes>, id: nat, offerRandom: nat, acceptRandom: nat, order: seq<nat>)
    returns (reader: ContentRequest?, writer: ContentRequest?)
    requires offerer != accepter && offerer.uTP != accepter.uTP && offerer.uTP.utp != accepter.uTP.utp
    requires offerer.uTP.Valid() && accepter.uTP.Valid() && offerer.contentId == accepter.contentId
    requires |offererId| >= 5 && |accepterId| >= 5 && id < 0x1_0000
    requires Exchange(contentKeys, offerer.contentId, offerer.db, accepter.db, id,
                      offerRandom, acceptRandom, order).Read()
    modifies accepter, accepter.uTP, accepter.uTP.utp, offerer.uTP, offerer.uTP.utp
    ensures offerer.uTP.Valid() && accepter.uTP.Valid()
    ensures var x := Exchange(contentKeys, offerer.contentId, offerer.db, old(accepter.db), id,
                              offerRandom, acceptRandom, order);
            && (reader != null <==> x.Keys() != [])
            && (writer != null <==> x.Keys() != [])
            && (reader != null && writer != null ==>
                  && reader.contentKeys == writer.contentKeys == x.Keys()
                  && reader.connectionId == writer.connectionId == id
                  && reader.socket.View() == OA.Start(x.Stream()).accept
                  && writer.socket.View() == OA.Start(x.Stream()).offer
                  && offerer.uTP.utp.sent == old(offerer.uTP.utp.sent) + [OA.SynPacket(x.Stream())])
  {
    hide NewSock, OnInit, StreamContent, OA.Start, WellFiled, KeyOf;
    ghost var x := Exchange(contentKeys, offerer.contentId, offerer.db, accepter.db, id,
                            offerRandom, acceptRandom, order);
    IdComesBack(id);
    StreamEnds(x);
    reader := accepter.HandleOffer(offererId, contentKeys, id, acceptRandom);
    var response := accepter.responses[|accepter.responses| - 1];
    writer := offerer.HandleAccept(accepterId, contentKeys, response, offerRandom, order);
  }

  /** The next step of the run is the FIN, and all DATA has been handled. */
  ghost predicate AllArrived(c: OA.Config, steps: seq<OA.Step>) {
    && OA.Possible(c, steps)
    && OA.Enabled(OA.After(c, steps), OA.ToAccept(OA.FinPacket(c)))
    && forall i: nat :: i < c.Count() ==> OA.DataPacket(c, i) in OA.After(c, steps).taken
  }

  /** What the FIN delivers then. */
  ghost function Streamed(c: OA.Config, steps: seq<OA.Step>): seq<bytes>
    requires AllArrived(c, steps)
  {
    OA.Apply(OA.After(c, steps), OA.ToAccept(OA.FinPacket(c))).streamed
  }

  /** One stream, from which every key gets its event with the bytes given for it. */
  ghost predicate Emits(x: Exchange, streamed: seq<bytes>, data: seq<bytes>, beyond: Beyond) {
    && |streamed| == 1
    && (|x.Keys()| > 1 ==> Separable(streamed[0], beyond))
    && var events := Delivered(x.Keys(), StreamItems(x.Keys(), streamed[0], beyond));
       && |events| == |x.Keys()| == |data|
       && forall i :: 0 <= i < |events| ==> events[i] == (x.Keys()[i], Some(data[i]))
  }

  lemma ContentEmits(x: Exchange, data: seq<bytes>, beyond: Beyond)
    requires x.Keys() != [] && x.Read() && |data| == |x.Keys()|
    ensures Emits(x, [StreamContent(x.Sent())], data, beyond) <==> data == x.Sent()
  {
    hide Separable, Items, EncodeWithVariantPrefix;
    StreamRoundTrip(x.Keys(), x.Sent(), beyond);
    var events := Delivered(x.Keys(), StreamItems(x.Keys(), StreamContent(x.Sent()), beyond));
    assert forall i :: 0 <= i < |x.Keys()| ==> events[i] == (x.Keys()[i], Some(x.Sent()[i]));
    if Emits(x, [StreamContent(x.Sent())], data, beyond) {
      forall i | 0 <= i < |data| ensures data[i] == x.Sent()[i] {
        assert events[i] == (x.Keys()[i], Some(data[i]));
      }
    }
  }

  lemma EmptyEitherWay(data: seq<bytes>, order: seq<nat>)
    requires IsOrder(order, |data|)
    ensures Finished(data, order) == [[]] <==> data == [[]]
  {
    if |data| == 1 {
      assert Finished(data, order)[0] == data[0];
    }
  }

  lemma ContentStreamed(x: Exchange, steps: seq<OA.Step>)
    requires x.Keys() != [] && x.Data() != [[]] && x.Read() && AllArrived(x.Stream(), steps)
    ensures Streamed(x.Stream(), steps) == [StreamContent(x.Sent())]
  {
    hide OA.Possible, OA.After, OA.Apply;
    EmptyEitherWay(x.Data(), x.order);
    StreamIsEmpty(x.Sent());
    OA.FinStreams(x.Stream(), steps);
  }

  /** End to end: whatever was offered, whatever the accepter lacks, in every run of the stream in
      which all DATA is handled before the FIN, in any order, the accepter emits every key it asked
      for with the bytes the offerer read for it in turn, and with no others. */
  lemma EndToEnd(x: Exchange, steps: seq<OA.Step>, data: seq<bytes>, beyond: Beyond)
    requires x.Keys() != [] && x.Data() != [[]] && x.Read() && AllArrived(x.Stream(), steps)
    requires |data| == |x.Keys()|
    ensures Emits(x, Streamed(x.Stream(), steps), data, beyond) <==> data == x.Sent()
  {
    hide AllArrived, Streamed, Emits;
    ContentStreamed(x, steps);
    ContentEmits(x, data, beyond);
  }

  // ---------- The order in which the reads finish ----------

  predicate AllAlike(data: seq<bytes>) {
    forall i, j :: 0 <= i < |data| && 0 <= j < |data| ==> data[i] == data[j]
  }

  /** Two reads that change places. */
  function Swap(count: nat, i: nat, j: nat): (order: seq<nat>)
    requires i < count && j < count
    ensures IsOrder(order, count) && order[i] == j && order[j] == i
  {
    seq(count, m => if m == i then j else if m == j then i else m)
  }

  /** Every order of finishing keeps the items in place if and only if all items are the same. */
  lemma OrderImmaterial(data: seq<bytes>)
    ensures (forall order :: IsOrder(order, |data|) ==> Finished(data, order) == data) <==> AllAlike(data)
  {
    if forall order :: IsOrder(order, |data|) ==> Finished(data, order) == data {
      forall i, j | 0 <= i < |data| && 0 <= j < |data| ensures data[i] == data[j] {
        assert Finished(data, Swap(|data|, i, j))[i] == data[i];
      }
    }
  }

  /** Some run brings all DATA before the FIN. */
  lemma ArrivedRun(c: OA.Config) returns (steps: seq<OA.Step>)
    requires c.Count() > 0
    ensures AllArrived(c, steps)
  {
    hide OA.Apply, OA.After, OA.Possible;
    var order: seq<nat> := seq(c.Count(), i => i);
    steps := OA.OrderedRun(c, order);
    forall i: nat | i < c.Count() ensures OA.DataPacket(c, i) in OA.After(c, steps).taken {
      assert i in OA.Which(c, OA.After(c, steps));
    }
  }

  /** Every key gets its own bytes. */
  ghost predicate OwnBytes(x: Exchange, order: seq<nat>, steps: seq<OA.Step>, beyond: Beyond)
    requires IsOrder(order, |x.Keys()|)
  {
    var y := x.(order := order);
    AllArrived(y.Stream(), steps) ==> Emits(y, Streamed(y.Stream(), steps), x.Data(), beyond)
  }

  lemma OwnBytesExactly(x: Exchange, order: seq<nat>, steps: seq<OA.Step>, beyond: Beyond)
    requires x.Keys() != [] && x.Data() != [[]] && IsOrder(order, |x.Keys()|)
    requires AllArrived(x.(order := order).Stream(), steps)
    ensures OwnBytes(x, order, steps, beyond) <==> Finished(x.Data(), order) == x.Data()
  {
    hide AllArrived, Streamed, Emits;
    var y := x.(order := order);
    assert y.Keys() == x.Keys() && y.Data() == x.Data();
    EndToEnd(y, steps, x.Data(), beyond);
  }

  /** Whatever the order in which the offerer's reads finish, and whatever the run, every key gets the
      bytes stored for it, if and only if the same bytes are stored for all of them (as when there is
      only one). */
  lemma OwnBytesWhateverTheOrder(x: Exchange, beyond: Beyond)
    requires x.Keys() != [] && x.Data() != [[]]
    ensures (forall order, steps :: IsOrder(order, |x.Keys()|) ==> OwnBytes(x, order, steps, beyond))
            <==> AllAlike(x.Data())
  {
    hide AllArrived, Streamed, Emits, AllAlike;
    OrderImmaterial(x.Data());
    if AllAlike(x.Data()) {
      forall order, steps | IsOrder(order, |x.Keys()|) ensures OwnBytes(x, order, steps, beyond) {
        if AllArrived(x.(order := order).Stream(), steps) {
          OwnBytesExactly(x, order, steps, beyond);
        }
      }
    } else {
      var order :| IsOrder(order, |x.Data()|) && Finished(x.Data(), order) != x.Data();
      var y := x.(order := order);
      assert y.Keys() == x.Keys() && y.Data() == x.Data();
      EmptyEitherWay(x.Data(), order);
      StreamIsEmpty(y.Sent());
      var steps := ArrivedRun(y.Stream());
      OwnBytesExactly(x, order, steps, beyond);
      assert !OwnBytes(x, order, steps, beyond);
    }
  }

  /** Two keys with different bytes, the second read finishing first. */
  const SWAPPED := Exchange([[1], [2]], k => k, map[[1] := [10], [2] := [20]], map[], 0, 0, 1, [1, 0])

  /** In every run of it in which all DATA arrives, each key gets the other's bytes. */
  lemma SwappedReads(steps: seq<OA.Step>, beyond: Beyond)
    ensures SWAPPED.Keys() == [[1], [2]] && SWAPPED.Data() == [[10], [20]] && SWAPPED.Read()
    ensures AllArrived(SWAPPED.Stream(), steps) ==>
              Emits(SWAPPED, Streamed(SWAPPED.Stream(), steps), [[20], [10]], beyond)
  {
    hide AllArrived, Streamed, Emits;
    var bits := Wanted(SWAPPED.offered, SWAPPED.id, SWAPPED.accepterDb);
    assert bits == [true, true];
    assert Chosen([[1], [2]], bits) == [[1]] + Chosen([[2]], bits[1..]);
    assert Chosen([[2]], bits[1..]) == [[2]] + Chosen([], []);
    assert SWAPPED.Keys() == [[1], [2]];
    assert SWAPPED.Data() == [[10], [20]];
    assert SWAPPED.Sent() == [[20], [10]];
    if AllArrived(SWAPPED.Stream(), steps) {
      EndToEnd(SWAPPED, steps, [[20], [10]], beyond);
    }
  }

  // ---------- What the two databases have afterwards ----------

  /** The events the FIN sets off. */
  ghost function Events(x: Exchange, steps: seq<OA.Step>, beyond: Beyond): seq<(bytes, Option<bytes>)>
    requires x.Read() && AllArrived(x.Stream(), steps)
    requires |Streamed(x.Stream(), steps)| == 1
    requires |x.Keys()| > 1 ==> Separable(Streamed(x.Stream(), steps)[0], beyond)
  {
    Delivered(x.Keys(), StreamItems(x.Keys(), Streamed(x.Stream(), steps)[0], beyond))
  }

  /** A database after filing each event's content under the content id of its key. */
  function Filed(db: Database, id: bytes -> ContentId, events: seq<(bytes, Option<bytes>)>): Database {
    if events == [] then db
    else
      var before, last := Filed(db, id, events[..|events| - 1]), events[|events| - 1];
      if last.1.None? then before else before[id(last.0) := last.1.value]
  }

  /** What the offerer has for a key, or nothing. */
  predicate Offered(db: Database, cid: ContentId, b: bytes) {
    b == if cid in db then db[cid] else []
  }

  lemma {:induction false} FiledHas(db: Database, source: Database, id: bytes -> ContentId,
                                    events: seq<(bytes, Option<bytes>)>)
    requires forall e :: e in events ==> e.1.Some? && Offered(source, id(e.0), e.1.value)
    ensures forall e :: e in events ==>
              id(e.0) in Filed(db, id, events) && Offered(source, id(e.0), Filed(db, id, events)[id(e.0)])
    ensures forall c :: c in db ==> c in Filed(db, id, events)
    ensures forall c :: c in db && (forall e :: e in events ==> id(e.0) != c) ==> Filed(db, id, events)[c] == db[c]
  {
    if events != [] {
      var init, last := events[..|events| - 1], events[|events| - 1];
      assert events == init + [last];
      FiledHas(db, source, id, init);
    }
  }

  lemma EventsAre(x: Exchange, steps: seq<OA.Step>, beyond: Beyond)
    requires x.Keys() != [] && x.Data() != [[]] && x.Read() && AllArrived(x.Stream(), steps)
    requires forall i :: 0 <= i < |x.order| ==> x.order[i] == i
    ensures |Streamed(x.Stream(), steps)| == 1
    ensures |x.Keys()| > 1 ==> Separable(Streamed(x.Stream(), steps)[0], beyond)
    ensures var events := Events(x, steps, beyond);
            && |events| == |x.Keys()|
            && forall i :: 0 <= i < |events| ==>
                 && events[i].0 == x.Keys()[i] && events[i].1.Some?
                 && Offered(x.offererDb, x.id(x.Keys()[i]), events[i].1.value)
  {
    hide AllArrived, Streamed, OA.Possible;
    EndToEnd(x, steps, x.Sent(), beyond);
    assert x.Sent() == x.Data();
  }

  /** After any OFFER whose DATA all arrives before the FIN, the offerer's reads having finished in key
      order: every key asked for is emitted with the bytes the offerer had under its content id (or
      none); once the accepter has filed them, it has for every offered key it lacked exactly what the
      offerer has, what it had before is as it was, and it wants nothing more of the same OFFER. */
  lemma Transfer(x: Exchange, steps: seq<OA.Step>, beyond: Beyond)
    requires x.Keys() != [] && x.Data() != [[]] && x.Read() && AllArrived(x.Stream(), steps)
    requires forall i :: 0 <= i < |x.order| ==> x.order[i] == i
    ensures |Streamed(x.Stream(), steps)| == 1
    ensures |x.Keys()| > 1 ==> Separable(Streamed(x.Stream(), steps)[0], beyond)
    ensures var after := Filed(x.accepterDb, x.id, Events(x, steps, beyond));
            && (forall k :: k in x.offered && x.id(k) !in x.accepterDb && x.id(k) in x.offererDb ==>
                  x.id(k) in after && after[x.id(k)] == x.offererDb[x.id(k)])
            && (forall k :: k in x.offered && x.id(k) !in x.accepterDb && x.id(k) !in x.offererDb ==>
                  x.id(k) in after && after[x.id(k)] == [])
            && (forall c :: c in x.accepterDb ==> c in after && after[c] == x.accepterDb[c])
            && x.(accepterDb := after).Keys() == []
  {
    hide AllArrived, Streamed, OA.Possible, Events, Filed, Chosen, Wanted;
    EventsAre(x, steps, beyond);
    var events := Events(x, steps, beyond);
    FiledHas(x.accepterDb, x.offererDb, x.id, events);
    var after := Filed(x.accepterDb, x.id, events);
    forall k | k in x.offered && x.id(k) !in x.accepterDb
      ensures x.id(k) in after && Offered(x.offererDb, x.id(k), after[x.id(k)])
    {
      KeysAreWanted(x, k);
      var i :| 0 <= i < |x.Keys()| && x.Keys()[i] == k;
      assert events[i] in events;
    }
    forall c | c in x.accepterDb ensures after[c] == x.accepterDb[c] {
      forall e | e in events ensures x.id(e.0) != c {
        KeysAreWanted(x, e.0);
      }
    }
    var y := x.(accepterDb := after);
    if y.Keys() != [] {
      KeysAreWanted(y, y.Keys()[0]);
      assert false;
    }
  }

  /** Content ids that are not the keys: what is filed under a key itself is not looked at. */
  const HASHED := Exchange([[1], [2]], k => [9] + k, map[[9, 1] := [10], [9, 2] := [20], [1] := [30]], map[],
                           0, 0, 1, [0, 1])

  lemma HashedReads()
    ensures HASHED.Keys() == [[1], [2]] && HASHED.Data() == [[10], [20]]
    ensures HASHED.Read() && HASHED.Sent() == [[10], [20]]
  {
    var bits := Wanted(HASHED.offered, HASHED.id, HASHED.accepterDb);
    assert bits == [true, true];
    assert Chosen([[1], [2]], bits) == [[1]] + Chosen([[2]], bits[1..]);
    assert Chosen([[2]], bits[1..]) == [[2]] + Chosen([], []);
    assert HASHED.Keys() == [[1], [2]];
    assert [9] + [1] == [9, 1] && [9] + [2] == [9, 2];
    assert HASHED.Data() == [[10], [20]];
  }

  // ---------- The keys chosen, and the one item that needs no prefix ----------

  /** How many of the first `n` bits are set. */
  function Rank(bits: seq<bool>, n: nat): nat {
    if n == 0 then 0 else Rank(bits, n - 1) + if Bit(bits, n - 1) then 1 else 0
  }

  lemma {:induction false} RankShift(bits: seq<bool>, n: nat)
    ensures Rank(bits, n + 1) == (if Bit(bits, 0) then 1 else 0) + Rank(if bits == [] then [] else bits[1..], n)
  {
    if n == 0 {
      assert Rank(bits, 1) == Rank(bits, 0) + if Bit(bits, 0) then 1 else 0;
    } else {
      RankShift(bits, n - 1);
      assert Bit(bits, n) == Bit(if bits == [] then [] else bits[1..], n - 1);
    }
  }

  /** The keys chosen keep their order: key i, if its bit is set, comes after as many others as there
      are set bits before it, and there are no further ones. */
  lemma {:induction false} ChosenInOrder(keys: seq<bytes>, bits: seq<bool>, i: nat)
    requires i < |keys|
    ensures |Chosen(keys, bits)| == Rank(bits, |keys|)
    ensures Bit(bits, i) ==> Rank(bits, i) < |Chosen(keys, bits)| && Chosen(keys, bits)[Rank(bits, i)] == keys[i]
  {
    var rest := if bits == [] then [] else bits[1..];
    RankShift(bits, |keys| - 1);
    if i > 0 {
      RankShift(bits, i - 1);
      ChosenInOrder(keys[1..], rest, i - 1);
    } else if |keys| > 1 {
      ChosenInOrder(keys[1..], rest, 0);
    }
  }

  /** One item is streamed as it is, several with the length of each in front. */
  lemma StreamedAs(data: seq<bytes>)
    requires data != []
    ensures |data| == 1 ==> StreamContent(data) == data[0]
    ensures |data| == 2 ==>
              StreamContent(data) == EncodeULEB128(|data[0]|) + data[0] + EncodeULEB128(|data[1]|) + data[1]
    ensures |data| > 2 ==>
              StreamContent(data) == EncodeULEB128(|data[0]|) + data[0] + StreamContent(data[1..])
  {
    hide EncodeULEB128;
    if |data| >= 2 {
      EncodeSplit(data);
      EncodeSplit(data[1..]);
    }
  }
}
