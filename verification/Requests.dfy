/** The table of open requests and the routing of incoming packets to them
    (PortalNetworkUtp/PortalNetworkUTP.ts). */
module Requests {
  import opened Bytes
  import opened ContentStream
  import opened UtpSockets
  import opened PortalNetworkUtp
  import opened VariantPrefix
  import Packets
  import WireFormat

  function DigitChar(d: nat): char
    requires d < 10
  {
    "0123456789"[d]
  }

  function Digits(n: nat): string {
    if n < 10 then [DigitChar(n)] else Digits(n / 10) + [DigitChar(n % 10)]
  }

  /** A number in a template string. */
  function Decimal(n: int): string {
    if n < 0 then "-" + Digits(-n) else Digits(n)
  }

  function Prefix(peerId: string): string {
    if |peerId| < 5 then peerId else peerId[..5]
  }

  function IdPair(sndId: int, rcvId: int): string {
    Decimal(sndId) + "-" + Decimal(rcvId)
  }

  function SocketKey(peerId: string, sndId: int, rcvId: int): string {
    Prefix(peerId) + ("-" + IdPair(sndId, rcvId))
  }

  lemma {:induction false} DigitsHaveNoDash(n: nat)
    ensures Digits(n) != [] && '-' !in Digits(n)
  {
    if n >= 10 {
      DigitsHaveNoDash(n / 10);
    }
  }

  lemma {:induction false} DigitsInjective(m: nat, n: nat)
    requires Digits(m) == Digits(n)
    ensures m == n
  {
    DigitsHaveNoDash(m / 10);
    DigitsHaveNoDash(n / 10);
    var dm, dn := Digits(m), Digits(n);
    assert dm[|dm| - 1] == DigitChar(m % 10) && dn[|dn| - 1] == DigitChar(n % 10);
    assert m % 10 == n % 10;
    if m >= 10 && n >= 10 {
      assert dm[..|dm| - 1] == Digits(m / 10) && dn[..|dn| - 1] == Digits(n / 10);
      DigitsInjective(m / 10, n / 10);
    } else {
      assert m >= 10 ==> |dm| > 1;
      assert n >= 10 ==> |dn| > 1;
    }
  }

  ghost predicate FirstDash(s: string, i: nat) {
    && i < |s| && s[i] == '-'
    && forall j :: 0 <= j < i ==> s[j] != '-'
  }

  lemma FirstDashIsUnique(s: string, i: nat, j: nat)
    requires FirstDash(s, i) && FirstDash(s, j)
    ensures i == j
  {
  }

  lemma SplitAtDash(a: string, b: string, c: string, d: string)
    requires a + "-" + b == c + "-" + d
    requires '-' !in a && '-' !in c
    ensures a == c && b == d
  {
    var s, t := a + "-" + b, c + "-" + d;
    assert FirstDash(s, |a|) && FirstDash(t, |c|);
    FirstDashIsUnique(s, |a|, |c|);
    assert s[..|a|] == a && t[..|c|] == c;
    assert s[|a| + 1..] == b && t[|c| + 1..] == d;
  }

  lemma DecimalHead(n: int)
    ensures Decimal(n) != [] && (Decimal(n)[0] == '-' <==> n < 0)
  {
    if n >= 0 {
      DigitsHaveNoDash(n);
      assert Digits(n)[0] in Digits(n);
    }
  }

  lemma IdsInjective(sndId: nat, rcvId: nat, snd: int, rcv: nat)
    requires IdPair(sndId, rcvId) == IdPair(snd, rcv)
    ensures sndId == snd && rcvId == rcv
  {
    DecimalHead(sndId);
    DecimalHead(snd);
    assert IdPair(sndId, rcvId)[0] == Decimal(sndId)[0];
    assert IdPair(snd, rcv)[0] == Decimal(snd)[0];
    DigitsHaveNoDash(sndId);
    DigitsHaveNoDash(snd);
    SplitAtDash(Digits(sndId), Digits(rcvId), Digits(snd), Digits(rcv));
    DigitsInjective(sndId, snd);
    DigitsInjective(rcvId, rcv);
  }

  lemma SplitAfter(a: string, r: string, b: string, q: string)
    requires |a| == |b| && a + r == b + q
    ensures a == b && r == q
  {
    assert (a + r)[..|a|] == a && (b + q)[..|a|] == b;
    assert (a + r)[|a|..] == r && (b + q)[|a|..] == q;
  }

  /** Keys tell peers and ids apart (node ids have more than five characters). The id below 0 that
      routing may look up belongs to no request. */
  lemma SocketKeyInjective(p: string, sndId: nat, rcvId: nat, q: string, snd: int, rcv: nat)
    requires |p| >= 5 && |q| >= 5
    requires SocketKey(p, sndId, rcvId) == SocketKey(q, snd, rcv)
    ensures Prefix(p) == Prefix(q) && sndId == snd && rcvId == rcv
  {
    SplitAfter(Prefix(p), "-" + IdPair(sndId, rcvId), Prefix(q), "-" + IdPair(snd, rcv));
    SplitAfter("-", IdPair(sndId, rcvId), "-", IdPair(snd, rcv));
    IdsInjective(sndId, rcvId, snd, rcv);
  }

  /** One open request: its role, its connection id and the peer at the other end. */
  datatype Opened = Opened(code: RequestCode, connectionId: nat, peerId: string)

  function KeyOf(r: Opened): string {
    SocketKey(r.peerId, SndId(r.code, r.connectionId), RcvId(r.code, r.connectionId))
  }

  type Table = map<string, Opened>

  /** Every request is filed under its own key. */
  ghost predicate WellFiled(t: Table) {
    forall k :: k in t ==> |t[k].peerId| >= 5 && k == KeyOf(t[k])
  }

  lemma FiledOneMore(t: Table, r: Opened)
    requires WellFiled(t) && |r.peerId| >= 5
    ensures WellFiled(t[KeyOf(r) := r])
  {
  }

  /** The three keys tried for a connection id, in order. */
  function RouteIn(keys: set<string>, peerId: string, connId: nat): Option<string> {
    var keyA := SocketKey(peerId, connId, connId + 1);
    var keyB := SocketKey(peerId, connId + 1, connId);
    var keyC := SocketKey(peerId, connId as int - 1, connId);
    if keyA in keys then Some(keyA)
    else if keyB in keys then Some(keyB)
    else if keyC in keys then Some(keyC)
    else None
  }

  /** The role at the other end. */
  function Counterpart(code: RequestCode): RequestCode {
    match code
    case FoundContentWrite => FindContentRead
    case FindContentRead => FoundContentWrite
    case OfferWrite => AcceptRead
    case AcceptRead => OfferWrite
  }

  predicate SamePrefix(a: Opened, b: Opened) {
    Prefix(a.peerId) == Prefix(b.peerId)
  }

  /** A key is taken exactly when a request with that prefix and those ids is open. */
  lemma KeyTaken(t: Table, peerId: string, snd: int, rcv: nat)
    requires WellFiled(t) && |peerId| >= 5
    ensures SocketKey(peerId, snd, rcv) in t.Keys <==>
              exists k :: k in t && Prefix(t[k].peerId) == Prefix(peerId) &&
                          SndId(t[k].code, t[k].connectionId) == snd &&
                          RcvId(t[k].code, t[k].connectionId) == rcv
  {
    var key := SocketKey(peerId, snd, rcv);
    if key in t {
      var r := t[key];
      SocketKeyInjective(r.peerId, SndId(r.code, r.connectionId), RcvId(r.code, r.connectionId),
                         peerId, snd, rcv);
    }
    if k :| k in t && Prefix(t[k].peerId) == Prefix(peerId) &&
            SndId(t[k].code, t[k].connectionId) == snd && RcvId(t[k].code, t[k].connectionId) == rcv {
      assert k == key;
    }
  }

  /** The requests that get in the way of `r`: for a request that answers the SYN, any with the next
      id; for one that sends it, one that answers with the same id. */
  predicate InTheWay(r: Opened, other: Opened) {
    && SamePrefix(r, other)
    && if Initiates(r.code) then !Initiates(other.code) && other.connectionId == r.connectionId
       else other.connectionId == r.connectionId + 1
  }

  lemma KeysDiffer(peerId: string, a: nat, b: nat, c: nat, d: nat)
    requires |peerId| >= 5 && (a != c || b != d)
    ensures SocketKey(peerId, a, b) != SocketKey(peerId, c, d)
  {
    if SocketKey(peerId, a, b) == SocketKey(peerId, c, d) {
      SocketKeyInjective(peerId, a, b, peerId, c, d);
    }
  }

  lemma InitiatorRouted(t: Table, r: Opened)
    requires WellFiled(t) && KeyOf(r) in t && t[KeyOf(r)] == r && Initiates(r.code)
    ensures RouteIn(t.Keys, r.peerId, r.connectionId) == Some(KeyOf(r)) <==>
              forall k :: k in t ==> !InTheWay(r, t[k])
  {
    var id := r.connectionId;
    KeyTaken(t, r.peerId, id, id + 1);
    KeysDiffer(r.peerId, id, id + 1, id + 1, id);
    assert KeyOf(r) == SocketKey(r.peerId, id + 1, id);
  }

  lemma AnswererRouted(t: Table, r: Opened)
    requires WellFiled(t) && KeyOf(r) in t && t[KeyOf(r)] == r && !Initiates(r.code)
    ensures RouteIn(t.Keys, r.peerId, r.connectionId + 1) == Some(KeyOf(r)) <==>
              forall k :: k in t ==> !InTheWay(r, t[k])
  {
    var id := r.connectionId + 1;
    KeyTaken(t, r.peerId, id, id + 1);
    KeyTaken(t, r.peerId, id + 1, id);
    KeysDiffer(r.peerId, id - 1, id, id, id + 1);
    KeysDiffer(r.peerId, id - 1, id, id + 1, id);
    assert KeyOf(r) == SocketKey(r.peerId, id - 1, id);
  }

  /** Packets for an open request, sent by its counterpart with the same connection id, are routed to
      it if and only if no other open request is in the way. */
  lemma RoutedExactly(t: Table, r: Opened)
    requires WellFiled(t) && KeyOf(r) in t && t[KeyOf(r)] == r
    ensures RouteIn(t.Keys, r.peerId, SndId(Counterpart(r.code), r.connectionId)) == Some(KeyOf(r)) <==>
              forall k :: k in t ==> !InTheWay(r, t[k])
  {
    if Initiates(r.code) {
      InitiatorRouted(t, r);
    } else {
      AnswererRouted(t, r);
    }
  }

  /** Open connection ids towards one peer prefix are at least 2 apart. */
  ghost predicate Apart(t: Table) {
    forall j, k :: j in t && k in t && j != k && SamePrefix(t[j], t[k]) ==>
      var a, b := t[j].connectionId, t[k].connectionId;
      a + 2 <= b || b + 2 <= a
  }

  /** With ids at least 2 apart, every packet a role sends reaches the request that was opened at the
      other end with the same connection id. */
  lemma RoutedWhenApart(t: Table, r: Opened)
    requires WellFiled(t) && Apart(t) && KeyOf(r) in t && t[KeyOf(r)] == r
    ensures RouteIn(t.Keys, r.peerId, SndId(Counterpart(r.code), r.connectionId)) == Some(KeyOf(r))
  {
    RoutedExactly(t, r);
    forall k | k in t ensures !InTheWay(r, t[k]) {
      if k == KeyOf(r) {
        assert t[k] == r;
      }
    }
  }

  /** Neighbouring ids do collide: the packets meant for the accepter of id 7 end at id 8. */
  lemma NeighboursCollide()
    ensures var low := Opened(AcceptRead, 7, "0x123");
            var high := Opened(AcceptRead, 8, "0x123");
            var t := map[KeyOf(low) := low, KeyOf(high) := high];
            && WellFiled(t)
            && RouteIn(t.Keys, "0x123", SndId(OfferWrite, 7)) == Some(KeyOf(high))
  {
    var low := Opened(AcceptRead, 7, "0x123");
    var high := Opened(AcceptRead, 8, "0x123");
    var t := map[KeyOf(low) := low, KeyOf(high) := high];
    KeysDiffer("0x123", 7, 8, 8, 9);
    assert SocketKey("0x123", 8, 9) in t.Keys;
  }

  /** An open request towards `peerId` (or a peer with the same prefix): one that answers a SYN under
      connection id `id`, or one that sends it. */
  ghost predicate Open(t: Table, k: string, peerId: string, answers: bool, id: int) {
    && k in t && Prefix(t[k].peerId) == Prefix(peerId)
    && Initiates(t[k].code) == !answers && t[k].connectionId == id
  }

  ghost predicate SomeOpen(t: Table, peerId: string, answers: bool, id: int) {
    exists k :: Open(t, k, peerId, answers, id)
  }

  lemma KeyIsOpen(t: Table, peerId: string, answers: bool, id: int)
    requires WellFiled(t) && |peerId| >= 5 && id >= -1
    ensures var key := if answers then SocketKey(peerId, id, id + 1) else SocketKey(peerId, id + 1, id);
            id >= 0 || answers ==>
              && (key in t.Keys <==> SomeOpen(t, peerId, answers, id))
              && (key in t.Keys ==> Open(t, key, peerId, answers, id))
  {
    if answers {
      KeyTaken(t, peerId, id, id + 1);
      KeyFound(t, peerId, id, id + 1);
      assert SocketKey(peerId, id, id + 1) in t ==> Open(t, SocketKey(peerId, id, id + 1), peerId, answers, id);
      if SomeOpen(t, peerId, answers, id) {
        var k :| Open(t, k, peerId, answers, id);
        assert SndId(t[k].code, t[k].connectionId) == id && RcvId(t[k].code, t[k].connectionId) == id + 1;
      }
    } else if id >= 0 {
      KeyTaken(t, peerId, id + 1, id);
      KeyFound(t, peerId, id + 1, id);
      assert SocketKey(peerId, id + 1, id) in t ==> Open(t, SocketKey(peerId, id + 1, id), peerId, answers, id);
      if SomeOpen(t, peerId, answers, id) {
        var k :| Open(t, k, peerId, answers, id);
        assert SndId(t[k].code, t[k].connectionId) == id + 1 && RcvId(t[k].code, t[k].connectionId) == id;
      }
    }
  }

  /** The request under a key has the ids and the peer prefix the key was made of. */
  lemma KeyFound(t: Table, peerId: string, snd: int, rcv: nat)
    requires WellFiled(t) && |peerId| >= 5
    ensures var key := SocketKey(peerId, snd, rcv);
            key in t ==>
              && Prefix(t[key].peerId) == Prefix(peerId)
              && SndId(t[key].code, t[key].connectionId) == snd && RcvId(t[key].code, t[key].connectionId) == rcv
  {
    var key := SocketKey(peerId, snd, rcv);
    if key in t {
      var r := t[key];
      SocketKeyInjective(r.peerId, SndId(r.code, r.connectionId), RcvId(r.code, r.connectionId), peerId, snd, rcv);
    }
  }

  /** Where a packet with connection id `id` goes: to the request that answers under that very id, if
      there is one; else to the one that sends under it; else to the one that answers under the id
      before; else nowhere. */
  lemma RouteFinds(t: Table, peerId: string, id: nat)
    requires WellFiled(t) && |peerId| >= 5
    ensures match RouteIn(t.Keys, peerId, id)
            case None =>
              && !SomeOpen(t, peerId, true, id) && !SomeOpen(t, peerId, false, id)
              && !SomeOpen(t, peerId, true, id - 1)
            case Some(k) =>
              if SomeOpen(t, peerId, true, id) then Open(t, k, peerId, true, id)
              else if SomeOpen(t, peerId, false, id) then Open(t, k, peerId, false, id)
              else Open(t, k, peerId, true, id - 1)
  {
    hide SocketKey, WellFiled, Open, SomeOpen;
    KeyIsOpen(t, peerId, true, id);
    KeyIsOpen(t, peerId, false, id);
    KeyIsOpen(t, peerId, true, id - 1);
  }

  /** The request reached is one whose counterpart sends under that id, unless one that answers under
      the id itself is open: that one takes the packet, although its counterpart sends under the next. */
  lemma RoutedOnlyTo(t: Table, peerId: string, id: nat, k: string)
    requires WellFiled(t) && |peerId| >= 5 && RouteIn(t.Keys, peerId, id) == Some(k)
    ensures k in t && Prefix(t[k].peerId) == Prefix(peerId)
    ensures SndId(Counterpart(t[k].code), t[k].connectionId) == id <==> !SomeOpen(t, peerId, true, id)
  {
    RouteFinds(t, peerId, id);
  }

  /** The text of a key: five characters of the node id and the two ids in decimal. */
  lemma KeyText()
    ensures SocketKey("0x123456", 1024, 65535) == "0x123-1024-65535"
    ensures SocketKey("0x123456", -1, 0) == "0x123--1-0"
  {
    OneMoreDigit(102, 4);
    OneMoreDigit(10, 2);
    OneMoreDigit(1, 0);
    OneMoreDigit(6553, 5);
    OneMoreDigit(655, 3);
    OneMoreDigit(65, 5);
    OneMoreDigit(6, 5);
  }

  lemma OneMoreDigit(n: nat, d: nat)
    requires n > 0 && d < 10
    ensures Digits(10 * n + d) == Digits(n) + ["0123456789"[d]]
  {
  }

  /** Keys are the same exactly when the first five characters and both ids are. */
  lemma SameKey(p: string, q: string, snd: nat, rcv: nat, otherSnd: nat, otherRcv: nat)
    requires |p| >= 5 && |q| >= 5
    ensures SocketKey(p, snd, rcv) == SocketKey(q, otherSnd, otherRcv) <==>
              p[..5] == q[..5] && snd == otherSnd && rcv == otherRcv
  {
    if SocketKey(p, snd, rcv) == SocketKey(q, otherSnd, otherRcv) {
      SocketKeyInjective(p, snd, rcv, q, otherSnd, otherRcv);
    }
  }

  /** What `handleUtpPacket` makes of a buffer from `srcId`: the key of the request it belongs to and
      the packet. A short buffer, an id that no open request has and an unknown type all throw. */
  function Dispatched(keys: set<string>, buffer: bytes, srcId: string): Option<(string, Segment)> {
    var packet := Packets.BufferToPacket(buffer);
    if packet.Err? then None
    else
      Packets.ReadIsWritable(buffer);
      var key := RouteIn(keys, srcId, packet.value.header.connectionId);
      var p := WireFormat.OffWire(packet.value);
      if key.None? || p.None? then None else Some((key.value, p.value))
  }

  /** Which buffers throw, and where the others go: by the id in bytes 2 and 3. */
  lemma DispatchedExactly(keys: set<string>, buffer: bytes, srcId: string)
    ensures var d := Dispatched(keys, buffer, srcId);
            if |buffer| < 20 || (buffer[1] == 1 && |buffer| < 22) || buffer[0] / 16 > 4 then d == None
            else
              var key := RouteIn(keys, srcId, Packets.Two(buffer, 2));
              && (d.Some? <==> key.Some?)
              && (d.Some? ==> d.value.0 == key.value && d.value.1.connectionId == Packets.Two(buffer, 2))
  {
    Packets.ReadBytes(buffer);
    if Packets.BufferToPacket(buffer).Ok? {
      WireFormat.KnownTypes(Packets.BufferToPacket(buffer).value);
    }
  }

  /** From one end to the other: a packet whose numbers fit, encoded by the counterpart of `r` under
      its own connection id, is handled by `r`, and by no other request, exactly as if `r` had been
      handed the packet itself, provided no open request is in the way. */
  lemma ReachesItsRequest(t: Table, r: Opened, p: Segment, k: WireFormat.Clock)
    requires WellFiled(t) && KeyOf(r) in t && t[KeyOf(r)] == r
    requires forall key :: key in t ==> !InTheWay(r, t[key])
    requires p.connectionId == SndId(Counterpart(r.code), r.connectionId)
    requires WireFormat.Fits(p) && WireFormat.ClockFits(k)
    ensures WireFormat.OnWire(p, k).header.Writable()
    ensures var buffer := Packets.HeaderLayout(WireFormat.OnWire(p, k).header) + p.payload;
            var d := Dispatched(t.Keys, buffer, r.peerId);
            && d.Some? && d.value.0 == KeyOf(r)
            && forall s, random :: Handle(r.code, s, d.value.1, random) == Handle(r.code, s, p, random)
  {
    WireFormat.Transparent(p, k);
    RoutedExactly(t, r);
  }

  /** What a writing request streams: one item as it is, several with their lengths in front. */
  function StreamContent(contents: seq<bytes>): bytes {
    if contents == [] then [] else if |contents| > 1 then EncodeWithVariantPrefix(contents) else contents[0]
  }

  /** The content of a new request's socket: FOUNDCONTENT_WRITE takes the first item only. */
  function ContentFor(code: RequestCode, contents: seq<bytes>): bytes {
    match code
    case OfferWrite => StreamContent(contents)
    case FoundContentWrite => if contents == [] then [] else contents[0]
    case _ => []
  }

  class PortalNetworkUTP {
    const utp: Outbox
    var openContentRequest: map<string, ContentRequest>

    ghost function Table(): Table
      reads this
    {
      map k | k in openContentRequest ::
        var r := openContentRequest[k];
        Opened(r.requestCode, r.connectionId, r.peerId)
    }

    ghost predicate Valid()
      reads this
    {
      && WellFiled(Table())
      && forall k :: k in openContentRequest ==> openContentRequest[k].socket.utp == utp
    }

    constructor (utp: Outbox)
      ensures Valid() && this.utp == utp && Table() == map[]
    {
      this.utp := utp;
      openContentRequest := map[];
    }

    /** The key of the request a packet belongs to; without one the source throws. */
    method GetRequestKey(connId: nat, peerId: string) returns (key: Option<string>)
      ensures key == RouteIn(Table().Keys, peerId, connId)
      ensures key.Some? ==> key.value in openContentRequest
    {
      var keyA := SocketKey(peerId, connId, connId + 1);
      var keyB := SocketKey(peerId, connId + 1, connId);
      var keyC := SocketKey(peerId, connId as int - 1, connId);
      assert Table().Keys == openContentRequest.Keys;
      if keyA in openContentRequest {
        return Some(keyA);
      } else if keyB in openContentRequest {
        return Some(keyB);
      } else if keyC in openContentRequest {
        return Some(keyC);
      }
      key := None;
    }

    /** What handling a packet may touch. */
    static ghost function Footprint(r: ContentRequest): set<object>
      reads r.socket
    {
      {r.socket, r.socket.utp}
      + (if r.socket.writer == null then {} else {r.socket.writer})
      + (if r.socket.reader == null then {} else {r.socket.reader})
    }

    /** A writer that is to start has not started before, and has something to send. */
    static ghost predicate Ready(r: ContentRequest)
      reads r.socket, r.socket.writer
    {
      && r.socket.Valid()
      && (r.requestCode == FoundContentWrite ==> ChunkCount(r.socket.content) > 0)
      && (r.requestCode == OfferWrite && r.socket.seqNr == 1 && r.socket.writer != null ==>
            r.socket.writer.sentChunks == [] && ChunkCount(r.socket.content) > 0)
    }

    /** Finds the request, decodes the packet and hands it over; nothing else changes. */
    method HandleUtpPacket(packetBuffer: bytes, srcId: string, random: nat) returns (outcome: Outcome)
      requires var d := Dispatched(Table().Keys, packetBuffer, srcId);
               d.Some? ==> d.value.0 in openContentRequest && Ready(openContentRequest[d.value.0])
      modifies var d := Dispatched(Table().Keys, packetBuffer, srcId);
               if d.Some? && d.value.0 in openContentRequest then Footprint(openContentRequest[d.value.0]) else {}
      ensures var d := Dispatched(old(Table().Keys), packetBuffer, srcId);
              if d.None? then outcome == Threw
              else
                var request := old(openContentRequest)[d.value.0];
                var r := Handle(request.requestCode, old(request.socket.View()), d.value.1, random);
                && outcome == OutcomeOf(r)
                && request.socket.Valid()
                && request.socket.View() == r.sock
                && request.socket.utp.sent == old(request.socket.utp.sent) + SentOf(r)
      ensures Table() == old(Table())
    {
      var packet := Packets.BufferToPacket(packetBuffer);
      if packet.Err? {
        return Threw;
      }
      Packets.ReadIsWritable(packetBuffer);
      var requestKey := GetRequestKey(packet.value.header.connectionId, srcId);
      if requestKey.None? {
        return Threw;
      }
      var p := WireFormat.OffWire(packet.value);
      if p.None? {
        return Threw;
      }
      outcome := openContentRequest[requestKey.value].HandlePacket(p.value, random);
    }

    function EntryOf(r: ContentRequest): Opened {
      Opened(r.requestCode, r.connectionId, r.peerId)
    }

    /** Files a request under its key, in place of any older one with the same key. */
    method Open(request: ContentRequest)
      requires Valid() && |request.peerId| >= 5 && request.socket.utp == utp
      modifies this
      ensures Valid()
      ensures Table() == old(Table())[KeyOf(EntryOf(request)) := EntryOf(request)]
      ensures openContentRequest == old(openContentRequest)[KeyOf(EntryOf(request)) := request]
    {
      var code, id := request.requestCode, request.connectionId;
      var socketKey := SocketKey(request.peerId, SndId(code, id), RcvId(code, id));
      ghost var entry := EntryOf(request);
      FiledOneMore(Table(), entry);
      assert socketKey == KeyOf(entry);
      openContentRequest := openContentRequest[socketKey := request];
      assert Table() == old(Table())[KeyOf(entry) := entry];
    }

    /** `random` is what `randUint16` returns for the socket. */
    method HandleNewRequest(requestCode: RequestCode, peerId: string, connectionId: nat,
                            contentKeys: seq<bytes>, contents: seq<bytes>, random: nat)
      returns (request: ContentRequest)
      requires Valid() && |peerId| >= 5
      modifies this, utp
      ensures Valid()
      ensures EntryOf(request) == Opened(requestCode, connectionId, peerId)
      ensures Table() == old(Table())[KeyOf(EntryOf(request)) := EntryOf(request)]
      ensures openContentRequest == old(openContentRequest)[KeyOf(EntryOf(request)) := request]
      ensures request.contentKeys == contentKeys && fresh(request) && fresh(request.socket)
      ensures request.socket.Valid()
      ensures var sock := NewSock(requestCode, connectionId, random, ContentFor(requestCode, contents));
              var first := OnOpen(requestCode, sock, contents != []);
              && request.socket.View() == first.0
              && utp.sent == old(utp.sent) + first.1
      ensures utp.sent == old(utp.sent) +
                if requestCode == FindContentRead || (requestCode == OfferWrite && contents != [])
                then [Segment(Syn, connectionId + 1, 1, random, None, [])] else []
      ensures requestCode == FindContentRead || (requestCode == OfferWrite && contents != []) <==>
                request.socket.state == Some(SynSent)
    {
      var content := ContentFor(requestCode, contents);
      var hasContent := requestCode == OfferWrite ==> contents != [];
      request := new ContentRequest(utp, requestCode, peerId, connectionId, random, content, hasContent, contentKeys);
      Open(request);
      request.Init();
    }
  }
}
