/** An OFFER_WRITE socket and an ACCEPT_READ socket joined by a network, over whole runs.

    Packets may be delayed, dropped and reordered without limit. What the offerer sends is taken at
    most once; what the accepter sends may be taken any number of times. `handleDataPacket` is two
    steps, so other packets can be handled while it waits. */
module OfferAccept {
  import opened Bytes
  import opened ContentStream
  import opened UtpSockets
  import opened PortalNetworkUtp

  datatype Config = Config(content: bytes, connectionId: nat, offerRandom: nat, acceptRandom: nat) {
    function Count(): nat {
      ChunkCount(content)
    }
  }

  /** `toAccept` and `toOffer` are all packets ever sent, `taken` those the accepter has handled.
      `pending` are the data handlers waiting at their await, with their `expected` flags.
      `streamed` is what FIN packets delivered, `finished` whether the offerer's socket has ever
      reported that everything is acknowledged, `rejections` counts packets a role refused. */
  datatype System = System(
    offer: Sock,
    accept: Sock,
    toAccept: set<Segment>,
    toOffer: set<Segment>,
    taken: set<Segment>,
    pending: seq<bool>,
    streamed: seq<bytes>,
    finished: bool,
    rejections: nat)

  datatype Step = ToAccept(p: Segment) | Resume(k: nat) | ToOffer(p: Segment)

  /** Both requests opened, the SYN on its way. */
  function Start(c: Config): System {
    var offer := OnInit(OfferWrite, NewSock(OfferWrite, c.connectionId, c.offerRandom, c.content));
    System(offer.0, NewSock(AcceptRead, c.connectionId, c.acceptRandom, []),
           Members(offer.1), {}, {}, [], [], false, 0)
  }

  predicate Enabled(s: System, step: Step) {
    match step
    case ToAccept(p) => p in s.toAccept && p !in s.taken
    case Resume(k) => k < |s.pending|
    case ToOffer(p) => p in s.toOffer
  }

  function Apply(s: System, step: Step): System
    requires Enabled(s, step)
  {
    match step
    case ToAccept(p) =>
      var t := s.(taken := s.taken + {p});
      if p.pType == Data then
        var r := ReceiveData(s.accept, p);
        t.(accept := r.0, pending := s.pending + [r.1])
      else
        var r := Handle(AcceptRead, s.accept, p, 0);
        t.(accept := r.sock,
           toOffer := s.toOffer + Members(SentOf(r)),
           streamed := s.streamed + (if r.Reply? && r.content.Some? then [r.content.value] else []),
           rejections := s.rejections + if r.Reply? then 0 else 1)
    case Resume(k) =>
      var r := AcknowledgeData(s.accept, s.pending[k]);
      s.(accept := r.0, pending := s.pending[..k] + s.pending[k + 1..], toOffer := s.toOffer + Members(r.1))
    case ToOffer(p) =>
      var r := Handle(OfferWrite, s.offer, p, 0);
      s.(offer := r.sock,
         toAccept := s.toAccept + Members(SentOf(r)),
         finished := s.finished || (r.Reply? && r.done == Some(true)),
         rejections := s.rejections + if r.Reply? then 0 else 1)
  }

  predicate Possible(c: Config, steps: seq<Step>)
    decreases |steps|, 0
  {
    steps == [] ||
    (Possible(c, steps[..|steps| - 1]) &&
     Enabled(After(c, steps[..|steps| - 1]), steps[|steps| - 1]))
  }

  /** The state at the end of a run. */
  function After(c: Config, steps: seq<Step>): System
    requires Possible(c, steps)
    decreases |steps|, 1
  {
    if steps == [] then Start(c)
    else Apply(After(c, steps[..|steps| - 1]), steps[|steps| - 1])
  }

  // ---------- The packets of this exchange ----------

  function SynPacket(c: Config): Segment {
    Segment(Syn, c.connectionId + 1, 1, c.offerRandom, None, [])
  }

  function SynAck(c: Config): Segment {
    Segment(State, c.connectionId, c.acceptRandom, 1, None, [])
  }

  function DataPacket(c: Config, i: nat): Segment
    requires i < c.Count()
  {
    Segment(Data, c.connectionId + 1, 2 + i, c.acceptRandom - 1, None, Chunk(c.content, i))
  }

  function FinPacket(c: Config): Segment {
    Segment(Fin, c.connectionId + 1, 2 + c.Count(), c.acceptRandom - 1, None, [])
  }

  ghost predicate IsData(c: Config, p: Segment) {
    && 2 <= p.seqNr < 2 + c.Count()
    && p == DataPacket(c, p.seqNr - 2)
  }

  predicate Started(s: System) {
    s.offer.finNr.Some?
  }

  /** The chunks the accepter has been handed. */
  ghost function Which(c: Config, s: System): set<nat> {
    set i: nat | i < c.Count() && DataPacket(c, i) in s.taken
  }

  /** A number the accepter may acknowledge: that of a chunk it was handed, or the FIN's. */
  ghost predicate MayAck(c: Config, s: System, ackNr: int) {
    || (2 <= ackNr && (ackNr - 2) as nat in Which(c, s))
    || (ackNr == 2 + c.Count() && FinPacket(c) in s.taken)
  }

  // ---------- What every step keeps ----------

  ghost predicate OfferInv(c: Config, s: System) {
    var o := s.offer;
    && o.writes && o.content == c.content && o.sndConnectionId == c.connectionId + 1
    && SameNumbers(o.dataNrs, Numbers(2, c.Count()))
    && NoDuplicates(o.ackNrs)
    && (forall x :: x in o.ackNrs ==> 2 <= x && (x - 2) as nat in Which(c, s))
    && (if Started(s)
        then o.seqNr == 2 + c.Count() && o.finNr == Some(2 + c.Count()) && o.ackNr == c.acceptRandom - 1
        else o.seqNr == 1 && o.ackNr == c.offerRandom && o.ackNrs == [] &&
             o.writer == Some(WriterState(2, 0)))
    && (s.finished <==> AllAcked(c, s))
  }

  ghost predicate AllAcked(c: Config, s: System) {
    forall x :: x in Numbers(2, c.Count()) ==> x in s.offer.ackNrs
  }

  ghost predicate NetInv(c: Config, s: System) {
    && (forall p :: p in s.toAccept <==>
          p == SynPacket(c) || (Started(s) && (IsData(c, p) || p == FinPacket(c))))
    && s.taken <= s.toAccept
    && (Started(s) ==> SynPacket(c) in s.taken)
    && (forall q :: q in s.toOffer ==> AckInv(c, s, q))
  }

  ghost predicate AckInv(c: Config, s: System, q: Segment) {
    && q.pType == State && q.connectionId == c.connectionId && q.payload == []
    && (q.selective.Some? ==> |q.selective.value| < 256)
    && c.acceptRandom <= q.seqNr <= c.acceptRandom + c.Count() + 1
    && (q == SynAck(c) || MayAck(c, s, q.ackNr))
  }

  ghost predicate AcceptInv(c: Config, s: System) {
    var a := s.accept;
    && s.rejections == 0
    && if SynPacket(c) !in s.taken
       then a == NewSock(AcceptRead, c.connectionId, c.acceptRandom, []) &&
            s.toOffer == {} && s.taken == {} && s.pending == [] && s.streamed == []
       else a.sndConnectionId == c.connectionId && !a.writes &&
            a.reader.Some? && Holds(a.reader.value, c.content, 2, Which(c, s)) &&
            a.seqNr == c.acceptRandom + |Which(c, s)| + (if FinPacket(c) in s.taken then 1 else 0) &&
            (MayAck(c, s, a.ackNr) || (a.ackNr == 2 && s.pending == [])) &&
            |s.streamed| == (if FinPacket(c) in s.taken then 1 else 0)
  }

  ghost predicate Inv(c: Config, s: System) {
    OfferInv(c, s) && NetInv(c, s) && AcceptInv(c, s)
  }

  lemma StartInv(c: Config)
    requires c.Count() > 0
    ensures Inv(c, Start(c))
  {
    var s := Start(c);
    assert s.offer.dataNrs == Numbers(2, c.Count());
    assert s.toAccept == {SynPacket(c)};
    assert 2 in Numbers(2, c.Count()) by {
      assert Numbers(2, c.Count())[0] == 2;
    }
  }

  /** Handing the accepter one more packet. */
  lemma WhichAfter(c: Config, s: System, t: System, p: Segment)
    requires t.taken == s.taken + {p}
    ensures p.pType != Data ==> Which(c, t) == Which(c, s)
    ensures IsData(c, p) ==> Which(c, t) == Which(c, s) + {p.seqNr - 2}
    ensures IsData(c, p) && p !in s.taken ==> (p.seqNr - 2) as nat !in Which(c, s)
  {
    if IsData(c, p) {
      var i: nat := p.seqNr - 2;
      forall j: nat | j in Which(c, t) ensures j in Which(c, s) + {i} {
        if j != i {
          assert DataPacket(c, j) != p;
        }
      }
    }
  }

  lemma MayAckGrows(c: Config, s: System, t: System, ackNr: int)
    requires s.taken <= t.taken && MayAck(c, s, ackNr)
    ensures MayAck(c, t, ackNr)
  {
    if 2 <= ackNr && (ackNr - 2) as nat in Which(c, s) {
      assert (ackNr - 2) as nat in Which(c, t);
    }
  }

  lemma OfferInvKept(c: Config, s: System, t: System)
    requires OfferInv(c, s)
    requires t.offer == s.offer && t.finished == s.finished && s.taken <= t.taken
    ensures OfferInv(c, t)
  {
    forall x | x in t.offer.ackNrs ensures 2 <= x && (x - 2) as nat in Which(c, t) {
      assert (x - 2) as nat in Which(c, s);
    }
  }

  lemma AcksKept(c: Config, s: System, t: System)
    requires s.taken <= t.taken
    requires forall q :: q in s.toOffer ==> AckInv(c, s, q)
    ensures forall q :: q in s.toOffer ==> AckInv(c, t, q)
  {
    forall q | q in s.toOffer ensures AckInv(c, t, q) {
      assert AckInv(c, s, q);
      if q != SynAck(c) {
        MayAckGrows(c, s, t, q.ackNr);
      }
    }
  }

  lemma SynTaken(s: System, p: Segment)
    requires Enabled(s, ToAccept(p)) && p.pType == Syn
    ensures var open := s.accept.(ackNr := p.seqNr, nextSeq := Some(2), reader := Some([]));
            Apply(s, ToAccept(p)) ==
              s.(taken := s.taken + {p}, accept := open.(ackNr := p.seqNr + 1),
                 toOffer := s.toOffer + {Carrying(open, State)})
  {
    var open := s.accept.(ackNr := p.seqNr, nextSeq := Some(2), reader := Some([]));
    assert Members([Carrying(open, State)]) == {Carrying(open, State)};
  }

  lemma TakeSyn(c: Config, s: System, p: Segment)
    requires Inv(c, s) && Enabled(s, ToAccept(p)) && p.pType == Syn
    ensures Inv(c, Apply(s, ToAccept(p)))
  {
    hide Apply, Handle, Holds;
    var t := Apply(s, ToAccept(p));
    SynTaken(s, p);
    assert p == SynPacket(c);
    WhichAfter(c, s, t, p);
    OfferInvKept(c, s, t);
    assert t.toOffer == {SynAck(c)};
    assert Which(c, t) == {};
    HoldsNothing(c.content, 2);
  }

  lemma TakeData(c: Config, s: System, p: Segment)
    requires Inv(c, s) && Enabled(s, ToAccept(p)) && p.pType == Data
    ensures Inv(c, Apply(s, ToAccept(p)))
  {
    var t := Apply(s, ToAccept(p));
    assert IsData(c, p) && Started(s);
    WhichAfter(c, s, t, p);
    OfferInvKept(c, s, t);
    AcksKept(c, s, t);
    TakeDataReader(c, s, p);
    assert NetInv(c, t);
  }

  lemma TakeDataReader(c: Config, s: System, p: Segment)
    requires Enabled(s, ToAccept(p)) && p.pType == Data && IsData(c, p)
    requires AcceptInv(c, s) && SynPacket(c) in s.taken
    ensures AcceptInv(c, Apply(s, ToAccept(p)))
  {
    var t := Apply(s, ToAccept(p));
    WhichAfter(c, s, t, p);
    HoldsOneMore(s.accept.reader.value, c.content, 2, Which(c, s), p.seqNr - 2);
    assert FinPacket(c) in t.taken <==> FinPacket(c) in s.taken;
    assert MayAck(c, t, t.accept.ackNr);
  }

  lemma FinTaken(s: System, p: Segment)
    requires Enabled(s, ToAccept(p)) && p.pType == Fin && s.accept.reader.Some?
    ensures var r := ReceiveFin(s.accept, p);
            Apply(s, ToAccept(p)) ==
              s.(taken := s.taken + {p}, accept := r.0, toOffer := s.toOffer + {Carrying(r.0, State)},
                 streamed := s.streamed + [r.1])
  {
    hide SortPackets, Compiled;
    var ack := Carrying(ReceiveFin(s.accept, p).0, State);
    assert Members([ack]) == {ack};
  }

  lemma TakeFinReader(c: Config, s: System)
    requires AcceptInv(c, s) && SynPacket(c) in s.taken && FinPacket(c) !in s.taken
    ensures var r := ReceiveFin(s.accept, FinPacket(c));
            AcceptInv(c, s.(taken := s.taken + {FinPacket(c)}, accept := r.0,
                            toOffer := s.toOffer + {Carrying(r.0, State)}, streamed := s.streamed + [r.1]))
  {
    hide Holds, SortPackets, Compiled;
    var r := ReceiveFin(s.accept, FinPacket(c));
    var t := s.(taken := s.taken + {FinPacket(c)}, accept := r.0,
                toOffer := s.toOffer + {Carrying(r.0, State)}, streamed := s.streamed + [r.1]);
    WhichAfter(c, s, t, FinPacket(c));
    HoldsSorted(s.accept.reader.value, c.content, 2, Which(c, s));
    assert MayAck(c, t, t.accept.ackNr);
  }

  lemma TakeFin(c: Config, s: System, p: Segment)
    requires Inv(c, s) && Enabled(s, ToAccept(p)) && p.pType == Fin
    ensures Inv(c, Apply(s, ToAccept(p)))
  {
    hide Apply, Handle, Holds, SortPackets, Compiled;
    var t := Apply(s, ToAccept(p));
    assert p == FinPacket(c) && s.accept.reader.Some?;
    FinTaken(s, p);
    TakeFinReader(c, s);
    WhichAfter(c, s, t, p);
    OfferInvKept(c, s, t);
    AcksKept(c, s, t);
    SizeBelow(Which(c, s), c.Count());
    assert AckInv(c, t, Carrying(t.accept, State));
  }

  /** What goes out after the await: at most one packet, an ACK of the number the socket has by then. */
  lemma Resumed(s: System, k: nat)
    requires Enabled(s, Resume(k))
    ensures var t := Apply(s, Resume(k));
            && t == s.(accept := t.accept, pending := t.pending, toOffer := t.toOffer)
            && t.accept == s.accept.(ackNrs := t.accept.ackNrs)
            && forall q :: q in t.toOffer && q !in s.toOffer ==>
                 && q.(selective := None) == Carrying(s.accept, State)
                 && (q.selective.Some? ==> |q.selective.value| < 256)
  {
  }

  lemma ResumeInv(c: Config, s: System, k: nat)
    requires Inv(c, s) && Enabled(s, Resume(k))
    ensures Inv(c, Apply(s, Resume(k)))
  {
    hide Apply, Handle, Holds;
    var t := Apply(s, Resume(k));
    Resumed(s, k);
    assert s.pending != [];
    assert Which(c, t) == Which(c, s);
    OfferInvKept(c, s, t);
    AcksKept(c, s, t);
    SizeBelow(Which(c, s), c.Count());
    assert MayAck(c, t, t.accept.ackNr);
  }

  /** The SYN-ACK sets off the whole stream. */
  lemma OfferStarts(c: Config, s: System, p: Segment)
    requires Inv(c, s) && Enabled(s, ToOffer(p)) && !Started(s)
    ensures Inv(c, Apply(s, ToOffer(p)))
  {
    hide Holds;
    var t := Apply(s, ToOffer(p));
    assert AckInv(c, s, p);
    assert p == SynAck(c) && SynPacket(c) in s.taken;
    OtherSideKept(c, s, t);
    StreamSent(c, s, Connecting(s.offer, p), t);
  }

  lemma StreamSent(c: Config, s: System, ready: Sock, t: System)
    requires forall p :: p in s.toAccept <==> p == SynPacket(c)
    requires ready.content == c.content && ready.sndConnectionId == c.connectionId + 1
    requires ready.seqNr == 2 && ready.ackNr == c.acceptRandom - 1 && ready.writer.Some?
    requires t.toAccept == s.toAccept + Members(DataSegments(ready) + [Carrying(Written(ready), Fin)])
    ensures forall q :: q in t.toAccept <==> q == SynPacket(c) || IsData(c, q) || q == FinPacket(c)
  {
    forall q ensures q in t.toAccept <==> q == SynPacket(c) || IsData(c, q) || q == FinPacket(c) {
      FirstSegmentsAre(ready, c.Count(), q);
    }
  }

  /** What the offerer does on its own leaves the accepter's part of the invariant alone. */
  lemma OtherSideKept(c: Config, s: System, t: System)
    requires AcceptInv(c, s)
    requires t.accept == s.accept && t.taken == s.taken && t.toOffer == s.toOffer
    requires t.pending == s.pending && t.streamed == s.streamed && t.rejections == s.rejections
    ensures AcceptInv(c, t) && Which(c, t) == Which(c, s)
    ensures forall q :: AckInv(c, s, q) ==> AckInv(c, t, q)
  {
    assert Which(c, t) == Which(c, s);
  }

  /** `compare` holds exactly when every number has been acknowledged. */
  lemma CompareIsAllAcked(dataNrs: seq<int>, acks: seq<int>, count: nat)
    requires SameNumbers(dataNrs, Numbers(2, count)) && NoDuplicates(acks)
    requires forall x :: x in acks ==> 2 <= x < 2 + count
    ensures SameNumbers(dataNrs, acks) <==> forall x :: x in Numbers(2, count) ==> x in acks
  {
    var numbers := Numbers(2, count);
    SameBagIffSameSet(numbers, acks);
    forall x | x in acks ensures x in numbers {
      assert numbers[x - 2] == x;
    }
  }

  /** The offerer's list of acknowledged numbers after one more ACK. */
  lemma AckNoted(c: Config, s: System, p: Segment) returns (acks: seq<int>)
    requires OfferInv(c, s) && AckInv(c, s, p) && p.ackNr != 2 + c.Count()
    ensures acks == WithAck(s.offer.ackNrs, p.ackNr)
    ensures NoDuplicates(acks)
    ensures forall x :: x in s.offer.ackNrs ==> x in acks
    ensures forall x :: x in acks ==> 2 <= x < 2 + c.Count() && (x - 2) as nat in Which(c, s)
  {
    acks := WithAck(s.offer.ackNrs, p.ackNr);
  }

  lemma OfferHearsAck(c: Config, s: System, p: Segment)
    requires Inv(c, s) && Enabled(s, ToOffer(p)) && Started(s)
    requires p.ackNr != 2 + c.Count()
    ensures Inv(c, Apply(s, ToOffer(p)))
  {
    hide Holds, SortNumbers;
    var t := Apply(s, ToOffer(p));
    OtherSideKept(c, s, t);
    assert AckInv(c, s, p);
    var acks := AckNoted(c, s, p);
    CompareIsAllAcked(s.offer.dataNrs, acks, c.Count());
    AckedSoFar(c, s, t, acks);
    assert t.toAccept == s.toAccept;
  }

  lemma SameNumbersSorted(a: seq<int>, b: seq<int>)
    requires SameNumbers(a, b)
    ensures SameNumbers(SortNumbers(a), b)
  {
    SortNumbersSorts(a);
  }

  lemma AckedSoFar(c: Config, s: System, t: System, acks: seq<int>)
    requires OfferInv(c, s) && Started(s) && Which(c, t) == Which(c, s)
    requires t.offer.(nextSeq := None, state := None)
          == s.offer.(nextSeq := None, state := None,
                      dataNrs := SortNumbers(s.offer.dataNrs), ackNrs := SortNumbers(acks))
    requires NoDuplicates(acks)
    requires forall x :: x in s.offer.ackNrs ==> x in acks
    requires forall x :: x in acks ==> 2 <= x && (x - 2) as nat in Which(c, s)
    requires t.finished <==> s.finished || forall x :: x in Numbers(2, c.Count()) ==> x in acks
    ensures OfferInv(c, t)
  {
    SameNumbersSorted(s.offer.dataNrs, Numbers(2, c.Count()));
    SortNumbersKeeps(acks);
  }

  /** The number of the FIN is not entered in the list. */
  lemma OfferHearsFinAck(c: Config, s: System, p: Segment)
    requires Inv(c, s) && Enabled(s, ToOffer(p)) && Started(s)
    requires p.ackNr == 2 + c.Count()
    ensures Inv(c, Apply(s, ToOffer(p)))
  {
    assert AckInv(c, s, p);
    OtherSideKept(c, s, Apply(s, ToOffer(p)));
  }

  lemma OfferStep(c: Config, s: System, p: Segment)
    requires Inv(c, s) && Enabled(s, ToOffer(p))
    ensures Inv(c, Apply(s, ToOffer(p)))
  {
    hide *;
    if !Started(s) {
      OfferStarts(c, s, p);
    } else if p.ackNr != 2 + c.Count() {
      OfferHearsAck(c, s, p);
    } else {
      OfferHearsFinAck(c, s, p);
    }
  }

  lemma StepInv(c: Config, s: System, step: Step)
    requires Inv(c, s) && Enabled(s, step)
    ensures Inv(c, Apply(s, step))
  {
    match step
    case Resume(k) => ResumeInv(c, s, k);
    case ToOffer(p) => OfferStep(c, s, p);
    case ToAccept(p) =>
      assert p.pType in {Syn, Data, Fin};
      if p.pType == Syn {
        TakeSyn(c, s, p);
      } else if p.pType == Data {
        TakeData(c, s, p);
      } else {
        TakeFin(c, s, p);
      }
  }

  /** Every state of every run, whatever the contents, the ids and the random numbers. */
  lemma {:induction false} ReachableInv(c: Config, steps: seq<Step>)
    requires c.Count() > 0 && Possible(c, steps)
    ensures Inv(c, After(c, steps))
  {
    if steps == [] {
      StartInv(c);
    } else {
      ReachableInv(c, steps[..|steps| - 1]);
      StepInv(c, After(c, steps[..|steps| - 1]), steps[|steps| - 1]);
    }
  }

  // ---------- What every run promises ----------

  /** No packet under way is of a kind its receiver refuses, and none has been refused; a reader
      exists whenever DATA or FIN can arrive. */
  lemma CausallySafe(c: Config, steps: seq<Step>)
    requires c.Count() > 0 && Possible(c, steps)
    ensures var s := After(c, steps);
            && s.rejections == 0
            && (forall q :: q in s.toOffer ==> q.pType == State)
            && (forall p :: p in s.toAccept ==> p.pType in {Syn, Data, Fin})
            && (forall p :: p in s.toAccept && p.pType in {Data, Fin} ==> s.accept.reader.Some?)
  {
    hide After, Possible, Apply, Holds;
    ReachableInv(c, steps);
    var s := After(c, steps);
    forall q | q in s.toOffer ensures q.pType == State {
      assert AckInv(c, s, q);
    }
  }

  /** The reader is never replaced once it holds data: at every moment of every run it has exactly
      the chunks the accepter was ever handed. */
  lemma ReaderKeepsEverything(c: Config, steps: seq<Step>)
    requires c.Count() > 0 && Possible(c, steps)
    ensures var s := After(c, steps);
            && (s.accept.reader.None? ==> Which(c, s) == {})
            && (s.accept.reader.Some? ==>
                  Compiled(s.accept.reader.value) == ChunksIn(c.content, Which(c, s)))
  {
    hide After, Possible, Apply, Holds, Compiled;
    ReachableInv(c, steps);
    var s := After(c, steps);
    if s.accept.reader.Some? {
      CompiledChunks(s.accept.reader.value, c.content, 2, Which(c, s));
    }
  }

  /** In the run the offerer, once started, has handled an ACK that carries `ackNr`. */
  ghost predicate Acknowledged(c: Config, steps: seq<Step>, ackNr: int)
    requires Possible(c, steps)
  {
    if steps == [] then false
    else
      var before, last := steps[..|steps| - 1], steps[|steps| - 1];
      || Acknowledged(c, before, ackNr)
      || (last.ToOffer? && Started(After(c, before)) && last.p.ackNr == ackNr)
  }

  /** One step's effect on the list of acknowledged numbers. */
  lemma AckListStep(c: Config, s: System, step: Step, x: int)
    requires Inv(c, s) && Enabled(s, step) && 2 <= x < 2 + c.Count()
    ensures x in Apply(s, step).offer.ackNrs <==>
              x in s.offer.ackNrs || (step.ToOffer? && Started(s) && step.p.ackNr == x)
  {
    hide Holds, AcceptInv, SortNumbers;
    if step.ToOffer? {
      assert AckInv(c, s, step.p);
      SortNumbersKeeps(WithAck(s.offer.ackNrs, step.p.ackNr));
    }
  }

  /** The socket's list holds a chunk's number exactly when the run acknowledged it. */
  lemma {:induction false} ListIsAcknowledged(c: Config, steps: seq<Step>, x: int)
    requires c.Count() > 0 && Possible(c, steps) && 2 <= x < 2 + c.Count()
    ensures x in After(c, steps).offer.ackNrs <==> Acknowledged(c, steps, x)
  {
    hide Inv, Apply, Started;
    if steps == [] {
      NothingListed(c);
    } else {
      var before := steps[..|steps| - 1];
      ListIsAcknowledged(c, before, x);
      ReachableInv(c, before);
      AckListStep(c, After(c, before), steps[|steps| - 1], x);
    }
  }

  lemma NothingListed(c: Config)
    ensures Start(c).offer.ackNrs == []
  {
  }

  lemma FinishedIsListed(c: Config, s: System)
    requires Inv(c, s) && c.Count() > 0
    ensures s.finished <==> forall x :: 2 <= x < 2 + c.Count() ==> x in s.offer.ackNrs
    ensures s.finished ==> s.accept.reader.Some? && Compiled(s.accept.reader.value) == c.content
  {
    hide Holds, Compiled;
    var numbers := Numbers(2, c.Count());
    forall x | 2 <= x < 2 + c.Count() ensures x in numbers {
      assert numbers[x - 2] == x;
    }
    if s.finished {
      forall i: nat | i < c.Count() ensures i in Which(c, s) {
        assert 2 + i in numbers && 2 + i in s.offer.ackNrs;
        assert (2 + i - 2) as nat in Which(c, s);
      }
      assert 0 in Which(c, s);
      CompiledChunks(s.accept.reader.value, c.content, 2, Which(c, s));
    }
  }

  /** The offerer's socket has reported success exactly when in the run, after the stream began, an ACK
      for every chunk's number was handled, and then the reader compiles to the whole content. */
  lemma FinishedMeansDelivered(c: Config, steps: seq<Step>)
    requires c.Count() > 0 && Possible(c, steps)
    ensures var s := After(c, steps);
            && (s.finished <==> forall x :: 2 <= x < 2 + c.Count() ==> Acknowledged(c, steps, x))
            && (s.finished ==> s.accept.reader.Some? && Compiled(s.accept.reader.value) == c.content)
  {
    hide Inv, Apply, Compiled;
    ReachableInv(c, steps);
    FinishedIsListed(c, After(c, steps));
    var s := After(c, steps);
    if s.finished {
      forall x | 2 <= x < 2 + c.Count() ensures Acknowledged(c, steps, x) {
        ListIsAcknowledged(c, steps, x);
      }
    } else {
      var x :| 2 <= x < 2 + c.Count() && x !in s.offer.ackNrs;
      ListIsAcknowledged(c, steps, x);
      assert !Acknowledged(c, steps, x);
    }
  }

  /** The numbers of the DATA packets the accepter was handed, in that order. */
  function DataOrder(steps: seq<Step>): seq<int> {
    if steps == [] then []
    else
      var last := steps[|steps| - 1];
      DataOrder(steps[..|steps| - 1]) +
      if last.ToAccept? && last.p.pType == Data then [last.p.seqNr] else []
  }

  lemma Extend(c: Config, steps: seq<Step>, step: Step)
    requires Possible(c, steps) && Enabled(After(c, steps), step)
    ensures Possible(c, steps + [step])
    ensures After(c, steps + [step]) == Apply(After(c, steps), step)
    ensures DataOrder(steps + [step]) ==
            DataOrder(steps) + if step.ToAccept? && step.p.pType == Data then [step.p.seqNr] else []
  {
    assert (steps + [step])[..|steps|] == steps;
  }

  /** The FIN delivers the chunks that had arrived by then, in order, once: the content itself if
      and only if no chunk was missing. */
  lemma FinStreams(c: Config, steps: seq<Step>)
    requires c.Count() > 0 && Possible(c, steps)
    requires Enabled(After(c, steps), ToAccept(FinPacket(c)))
    ensures var s := After(c, steps);
            var t := Apply(s, ToAccept(FinPacket(c)));
            && t.streamed == [ChunksIn(c.content, Which(c, s))]
            && (t.streamed == [c.content] <==>
                  forall i: nat :: i < c.Count() ==> DataPacket(c, i) in s.taken)
  {
    hide After, Possible, Apply, Holds, Compiled;
    ReachableInv(c, steps);
    var s := After(c, steps);
    CompiledChunks(s.accept.reader.value, c.content, 2, Which(c, s));
    AllTaken(c, s);
    FinTaken(s, FinPacket(c));
  }

  lemma AllTaken(c: Config, s: System)
    ensures AllChunks(c.content, Which(c, s)) <==>
              forall i: nat :: i < c.Count() ==> DataPacket(c, i) in s.taken
  {
    forall i: nat | i < c.Count() ensures i in Which(c, s) <==> DataPacket(c, i) in s.taken {
    }
  }

  // ---------- Sixteen-bit numbers ----------

  predicate Fits(n: int) {
    0 <= n < 0x1_0000
  }

  ghost predicate AllFit(s: System) {
    forall p :: p in s.toAccept || p in s.toOffer ==> Fits(p.seqNr) && Fits(p.ackNr)
  }

  lemma StateNumbersFit(c: Config, s: System)
    requires Inv(c, s) && Fits(c.offerRandom)
    requires 1 <= c.acceptRandom && c.acceptRandom + c.Count() + 1 < 0x1_0000
    ensures AllFit(s)
  {
    forall p | p in s.toAccept || p in s.toOffer ensures Fits(p.seqNr) && Fits(p.ackNr) {
      if p in s.toOffer {
        assert AckInv(c, s, p);
      }
    }
  }

  // ---------- What the accepter answers ----------

  /** An ACK as it leaves the accepter. */
  function Ack(c: Config, s: System, listed: Option<seq<int>>): Segment {
    Segment(State, c.connectionId, s.accept.seqNr, s.accept.ackNr, listed, [])
  }

  /** Every data handler that resumes after its await notes the number the socket has by then and
      acknowledges it: plainly if its packet was the expected one, otherwise with the list of all
      numbers noted so far, this one included; a list of more than 255 cannot be sent. */
  lemma ResumedAcknowledges(c: Config, steps: seq<Step>, k: nat)
    requires c.Count() > 0 && Possible(c, steps) && Enabled(After(c, steps), Resume(k))
    ensures var s := After(c, steps);
            var t := Apply(s, Resume(k));
            var noted := s.accept.ackNrs + [s.accept.ackNr];
            && t.accept == s.accept.(ackNrs := noted)
            && t.pending == s.pending[..k] + s.pending[k + 1..]
            && t.toOffer == s.toOffer +
                 if s.pending[k] then {Ack(c, s, None)}
                 else if |noted| < 256 then {Ack(c, s, Some(noted))}
                 else {}
  {
    hide Possible, After, Holds;
    ReachableInv(c, steps);
    ResumedOnce(c, After(c, steps), k);
  }

  lemma ResumedOnce(c: Config, s: System, k: nat)
    requires Enabled(s, Resume(k)) && s.accept.sndConnectionId == c.connectionId
    ensures var t := Apply(s, Resume(k));
            var noted := s.accept.ackNrs + [s.accept.ackNr];
            && t.accept == s.accept.(ackNrs := noted)
            && t.pending == s.pending[..k] + s.pending[k + 1..]
            && t.toOffer == s.toOffer +
                 if s.pending[k] then {Ack(c, s, None)}
                 else if |noted| < 256 then {Ack(c, s, Some(noted))}
                 else {}
  {
  }

  /** The packets the accepter has taken, in that order. */
  function Arrivals(steps: seq<Step>): seq<Segment> {
    if steps == [] then []
    else
      var last := steps[|steps| - 1];
      Arrivals(steps[..|steps| - 1]) + if last.ToAccept? then [last.p] else []
  }

  /** What the accepter's socket remembers of them: the number to acknowledge is that of the last DATA
      or FIN, the number expected next follows the last DATA, and the state says what came last. */
  ghost predicate Follows(a: Sock, arrivals: seq<Segment>, data: seq<int>) {
    if arrivals == [] then a.nextSeq == Some(1) && a.state == None
    else
      var last := arrivals[|arrivals| - 1];
      && a.nextSeq == Some(if data == [] then 2 else data[|data| - 1] + 1)
      && a.ackNr == (if last.pType == Syn then 2 else last.seqNr)
      && a.state == match last.pType case Syn => None case Data => Some(Connected) case _ => Some(GotFin)
  }

  lemma DataTaken(s: System, p: Segment)
    requires Enabled(s, ToAccept(p)) && p.pType == Data
    ensures Apply(s, ToAccept(p)) ==
              s.(taken := s.taken + {p}, accept := ReceiveData(s.accept, p).0,
                 pending := s.pending + [s.accept.nextSeq == Some(p.seqNr)])
  {
  }

  lemma FollowsArrival(c: Config, s: System, p: Segment, arrivals: seq<Segment>, data: seq<int>)
    requires Inv(c, s) && Enabled(s, ToAccept(p)) && Follows(s.accept, arrivals, data)
    requires arrivals == [] <==> SynPacket(c) !in s.taken
    requires arrivals == [] ==> data == []
    ensures Follows(Apply(s, ToAccept(p)).accept, arrivals + [p],
                    data + if p.pType == Data then [p.seqNr] else [])
    ensures SynPacket(c) in Apply(s, ToAccept(p)).taken
  {
    hide Apply, Handle, Holds, SortPackets, Compiled, OfferInv;
    assert p.pType in {Syn, Data, Fin};
    if p.pType == Syn {
      SynTaken(s, p);
      assert data == [];
    } else if p.pType == Data {
      DataTaken(s, p);
    } else {
      FinTaken(s, p);
      assert arrivals != [];
    }
  }

  lemma FollowsStep(c: Config, s: System, step: Step, arrivals: seq<Segment>, data: seq<int>)
    requires Inv(c, s) && Enabled(s, step) && Follows(s.accept, arrivals, data)
    requires arrivals == [] <==> SynPacket(c) !in s.taken
    requires arrivals == [] ==> data == []
    ensures Follows(Apply(s, step).accept,
                    arrivals + (if step.ToAccept? then [step.p] else []),
                    data + (if step.ToAccept? && step.p.pType == Data then [step.p.seqNr] else []))
    ensures SynPacket(c) in Apply(s, step).taken <==> arrivals != [] || step.ToAccept?
  {
    hide Inv, Holds, Handle;
    assert arrivals + [] == arrivals && data + [] == data;
    if step.ToAccept? {
      FollowsArrival(c, s, step.p, arrivals, data);
    }
  }

  /** In every run. So a data handler's packet counts as expected exactly when its number follows that
      of the DATA handed over before it. */
  lemma {:induction false} AccepterFollows(c: Config, steps: seq<Step>)
    requires c.Count() > 0 && Possible(c, steps)
    ensures Follows(After(c, steps).accept, Arrivals(steps), DataOrder(steps))
    ensures Arrivals(steps) == [] <==> SynPacket(c) !in After(c, steps).taken
    ensures Arrivals(steps) == [] ==> DataOrder(steps) == []
  {
    hide Inv, Apply, Follows;
    if steps == [] {
      FollowsNothing(c);
    } else {
      var before := steps[..|steps| - 1];
      AccepterFollows(c, before);
      ReachableInv(c, before);
      FollowsStep(c, After(c, before), steps[|steps| - 1], Arrivals(before), DataOrder(before));
    }
  }

  lemma FollowsNothing(c: Config)
    ensures Follows(Start(c).accept, [], [])
  {
  }

  /** The flag of a data handler: its packet was the expected one. */
  lemma ExpectedExactly(c: Config, steps: seq<Step>, p: Segment)
    requires c.Count() > 0 && Possible(c, steps) && Enabled(After(c, steps), ToAccept(p)) && p.pType == Data
    ensures var s := After(c, steps);
            var data := DataOrder(steps);
            Apply(s, ToAccept(p)).pending ==
              s.pending + [p.seqNr == if data == [] then 2 else data[|data| - 1] + 1]
  {
    hide Possible, After, Holds;
    AccepterFollows(c, steps);
    ReachableInv(c, steps);
    assert SynPacket(c) in After(c, steps).taken;
  }

  lemma ToOfferGrows(s: System, step: Step)
    requires Enabled(s, step)
    ensures s.toOffer <= Apply(s, step).toOffer
  {
  }

  predicate AcksFin(c: Config, q: Segment) {
    q == Segment(State, c.connectionId, q.seqNr, 2 + c.Count(), None, [])
  }

  /** Once the FIN has been taken, an ACK of it has been sent. */
  lemma {:induction false} FinAcknowledged(c: Config, steps: seq<Step>)
    requires c.Count() > 0 && Possible(c, steps) && FinPacket(c) in After(c, steps).taken
    ensures exists q :: q in After(c, steps).toOffer && AcksFin(c, q)
  {
    hide Inv, Apply;
    if steps == [] {
      TakenAtStart(c);
    } else {
      var before, last := steps[..|steps| - 1], steps[|steps| - 1];
      ReachableInv(c, before);
      if FinPacket(c) in After(c, before).taken {
        FinAcknowledged(c, before);
        ToOfferGrows(After(c, before), last);
      } else {
        FinIsAcknowledged(c, After(c, before), last);
      }
    }
  }

  lemma TakenAtStart(c: Config)
    ensures Start(c).taken == {}
  {
  }

  lemma FinIsAcknowledged(c: Config, s: System, step: Step)
    requires Inv(c, s) && Enabled(s, step)
    requires FinPacket(c) !in s.taken && FinPacket(c) in Apply(s, step).taken
    ensures exists q :: q in Apply(s, step).toOffer && AcksFin(c, q)
  {
    hide Holds, SortPackets, Compiled, OfferInv;
    assert step == ToAccept(FinPacket(c));
    FinTaken(s, FinPacket(c));
    assert AcksFin(c, Carrying(ReceiveFin(s.accept, FinPacket(c)).0, State));
  }

  /** The offerer's state over all runs. */
  lemma {:induction false} OffererState(c: Config, steps: seq<Step>)
    requires c.Count() > 0 && Possible(c, steps)
    ensures After(c, steps).offer.state == Some(if Started(After(c, steps)) then Connected else SynSent)
  {
    if steps != [] {
      OffererState(c, steps[..|steps| - 1]);
      ReachableInv(c, steps[..|steps| - 1]);
      OffererStateStep(c, After(c, steps[..|steps| - 1]), steps[|steps| - 1]);
    }
  }

  /** The number the offerer expects next: one more than that of the STATE packet it handled last, ACKs
      of its FIN apart. */
  lemma OffererExpects(c: Config, steps: seq<Step>, q: Segment)
    requires c.Count() > 0 && Possible(c, steps) && Enabled(After(c, steps), ToOffer(q))
    ensures var s := After(c, steps);
            Apply(s, ToOffer(q)).offer.nextSeq ==
              if Started(s) && q.ackNr == 2 + c.Count() then s.offer.nextSeq else Some(q.seqNr + 1)
  {
    hide After, Possible, Holds, AcceptInv, SortNumbers;
    ReachableInv(c, steps);
    assert AckInv(c, After(c, steps), q);
  }

  lemma OffererStateStep(c: Config, s: System, step: Step)
    requires Inv(c, s) && Enabled(s, step)
    requires s.offer.state == Some(if Started(s) then Connected else SynSent)
    ensures var t := Apply(s, step); t.offer.state == Some(if Started(t) then Connected else SynSent)
  {
    hide Holds, AcceptInv, SortNumbers;
    if step.ToOffer? {
      assert AckInv(c, s, step.p);
    }
  }

  // ---------- Runs that succeed ----------

  /** The accepter and the offerer in step: the first `k` chunks of `order` sent, received and
      acknowledged one after the other. */
  ghost predicate InStep(c: Config, s: System, order: seq<nat>, k: nat)
    requires k <= |order|
  {
    && Started(s) && s.pending == [] && FinPacket(c) !in s.taken
    && s.accept.nextSeq == Some(if k == 0 then 2 else 3 + order[k - 1])
    && |s.accept.ackNrs| == k
    && (forall i: nat :: i < c.Count() ==> (i in Which(c, s) <==> i in order[..k]))
    && AckedUpTo(s, order, k)
  }

  ghost predicate AckedUpTo(s: System, order: seq<nat>, k: nat)
    requires k <= |order|
  {
    forall j :: 0 <= j < k ==> 2 + order[j] in s.offer.ackNrs
  }

  /** From the 256th chunk on the selective ACK no longer fits its packet, so from there on chunks have
      to come one after the other. */
  predicate Acknowledgeable(order: seq<nat>) {
    forall k :: 255 <= k < |order| ==> order[k] == order[k - 1] + 1
  }

  lemma Opening(c: Config, order: seq<nat>)
    requires c.Count() > 0
    ensures var s0 := Start(c);
            && Enabled(s0, ToAccept(SynPacket(c)))
            && var s1 := Apply(s0, ToAccept(SynPacket(c)));
            && Enabled(s1, ToOffer(SynAck(c)))
            && InStep(c, Apply(s1, ToOffer(SynAck(c))), order, 0)
  {
    var s1 := Apply(Start(c), ToAccept(SynPacket(c)));
    assert SynAck(c) in s1.toOffer;
    assert Apply(s1, ToOffer(SynAck(c))).taken == {SynPacket(c)};
  }

  lemma OpenedRun(c: Config, order: seq<nat>) returns (steps: seq<Step>)
    requires c.Count() > 0
    ensures Possible(c, steps) && InStep(c, After(c, steps), order, 0) && DataOrder(steps) == []
  {
    hide Start, Enabled, Apply, InStep;
    Opening(c, order);
    steps := [];
    Extend(c, steps, ToAccept(SynPacket(c)));
    steps := steps + [ToAccept(SynPacket(c))];
    Extend(c, steps, ToOffer(SynAck(c)));
    steps := steps + [ToOffer(SynAck(c))];
  }

  lemma ChunkArrives(c: Config, s: System, order: seq<nat>, k: nat)
    requires Inv(c, s) && IsOrder(order, c.Count()) && k < c.Count() && InStep(c, s, order, k)
    ensures Enabled(s, ToAccept(DataPacket(c, order[k])))
    ensures var t := Apply(s, ToAccept(DataPacket(c, order[k])));
            && Started(t) && t.pending == [s.accept.nextSeq == Some(2 + order[k])]
            && t.accept.ackNr == 2 + order[k] && t.accept.nextSeq == Some(3 + order[k])
            && t.accept.ackNrs == s.accept.ackNrs && t.offer == s.offer
            && FinPacket(c) !in t.taken
            && (forall i: nat :: i < c.Count() ==> (i in Which(c, t) <==> i in order[..k + 1]))
  {
    hide Apply, Handle, Holds, AcceptInv, OfferInv;
    var p := DataPacket(c, order[k]);
    assert IsData(c, p);
    assert p !in s.taken by {
      assert order[k] !in order[..k];
      assert order[k] !in Which(c, s);
    }
    DataTaken(s, p);
    WhichAfter(c, s, Apply(s, ToAccept(p)), p);
    assert order[..k + 1] == order[..k] + [order[k]];
  }

  lemma ChunkAcked(c: Config, s: System, order: seq<nat>, k: nat, q: Segment)
    requires Inv(c, s) && Started(s) && IsOrder(order, c.Count()) && k < c.Count()
    requires AckedUpTo(s, order, k)
    requires q in s.toOffer && q.ackNr == 2 + order[k]
    ensures var t := Apply(s, ToOffer(q));
            && Started(t) && t.accept == s.accept && t.pending == s.pending && t.taken == s.taken
            && AckedUpTo(t, order, k + 1)
  {
    hide Holds, AcceptInv, SortNumbers;
    assert AckInv(c, s, q);
    var t := Apply(s, ToOffer(q));
    SortNumbersKeeps(WithAck(s.offer.ackNrs, 2 + order[k]));
    assert t.offer.ackNrs == SortNumbers(WithAck(s.offer.ackNrs, 2 + order[k]));
  }

  lemma OneMoreChunk(c: Config, before: seq<Step>, order: seq<nat>, k: nat) returns (steps: seq<Step>)
    requires IsOrder(order, c.Count()) && Acknowledgeable(order) && k < c.Count()
    requires Possible(c, before) && InStep(c, After(c, before), order, k)
    ensures Possible(c, steps) && InStep(c, After(c, steps), order, k + 1)
    ensures DataOrder(steps) == DataOrder(before) + [2 + order[k]]
  {
    hide Inv, Apply;
    var s0 := After(c, before);
    ReachableInv(c, before);
    ChunkArrives(c, s0, order, k);
    var p := DataPacket(c, order[k]);
    Extend(c, before, ToAccept(p));
    var received := before + [ToAccept(p)];
    var s1 := After(c, received);
    ResumedAcknowledges(c, received, 0);
    Extend(c, received, Resume(0));
    var acked := received + [Resume(0)];
    var s2 := After(c, acked);
    var noted := s1.accept.ackNrs + [s1.accept.ackNr];
    assert k >= 255 ==> s1.pending[0];
    var q := Ack(c, s1, if s1.pending[0] then None else Some(noted));
    OnlyAccepterMoves(c, s1, 0);
    ReachableInv(c, acked);
    assert q in s2.toOffer;
    ChunkAcked(c, s2, order, k, q);
    Extend(c, acked, ToOffer(q));
    steps := acked + [ToOffer(q)];
    SameWhich(c, s2, After(c, steps));
  }

  lemma OnlyAccepterMoves(c: Config, s: System, k: nat)
    requires Enabled(s, Resume(k))
    ensures var t := Apply(s, Resume(k)); t.offer == s.offer && t.taken == s.taken && Which(c, t) == Which(c, s)
  {
    SameWhich(c, s, Apply(s, Resume(k)));
  }

  lemma SameWhich(c: Config, s: System, t: System)
    requires t.taken == s.taken
    ensures Which(c, t) == Which(c, s)
  {
  }

  lemma {:induction false} InStepRun(c: Config, order: seq<nat>, k: nat) returns (steps: seq<Step>)
    requires 0 < c.Count() && k <= c.Count() && IsOrder(order, c.Count()) && Acknowledgeable(order)
    ensures Possible(c, steps) && InStep(c, After(c, steps), order, k)
    ensures |DataOrder(steps)| == k && forall i :: 0 <= i < k ==> DataOrder(steps)[i] == 2 + order[i]
  {
    hide InStep, Possible, After;
    if k == 0 {
      steps := OpenedRun(c, order);
    } else {
      var before := InStepRun(c, order, k - 1);
      steps := OneMoreChunk(c, before, order, k - 1);
    }
  }

  /** Any order of arrival can succeed: up to 255 chunks in any order whatever, more as long as the
      later ones come one after the other. Some run hands the accepter the DATA in exactly that order
      and ends with the success report, and then the FIN streams the content. */
  lemma OrderedRun(c: Config, order: seq<nat>) returns (before: seq<Step>)
    requires c.Count() > 0 && IsOrder(order, c.Count()) && Acknowledgeable(order)
    ensures Possible(c, before) && After(c, before).finished
    ensures |DataOrder(before)| == |order| && forall i :: 0 <= i < |order| ==> DataOrder(before)[i] == 2 + order[i]
    ensures Enabled(After(c, before), ToAccept(FinPacket(c)))
    ensures Apply(After(c, before), ToAccept(FinPacket(c))).streamed == [c.content]
    ensures AllBelowTaken(c, After(c, before))
  {
    hide Apply, Inv, InStep;
    before := InStepRun(c, order, c.Count());
    ReachableInv(c, before);
    AllInStep(c, After(c, before), order);
    FinStreams(c, before);
  }

  lemma AllInStep(c: Config, s: System, order: seq<nat>)
    requires Inv(c, s) && c.Count() > 0 && IsOrder(order, c.Count()) && InStep(c, s, order, c.Count())
    ensures s.finished && AllBelowTaken(c, s) && Enabled(s, ToAccept(FinPacket(c)))
    ensures forall i: nat :: i < c.Count() ==> DataPacket(c, i) in s.taken
  {
    hide Inv;
    assert order[..c.Count()] == order;
    forall i: nat | i < c.Count() ensures i in Which(c, s) {
      OrderIsComplete(order, c.Count(), i);
    }
    forall x | 2 <= x < 2 + c.Count() ensures x in s.offer.ackNrs {
      OrderIsComplete(order, c.Count(), x - 2);
      var j :| 0 <= j < |order| && order[j] == x - 2;
      assert 2 + order[j] in s.offer.ackNrs;
    }
    EverythingArrived(c, s);
  }

  ghost predicate AllBelowTaken(c: Config, s: System) {
    forall i: nat :: i in Which(c, s) <==> i < c.Count()
  }

  lemma EverythingArrived(c: Config, s: System)
    requires Inv(c, s) && Started(s) && FinPacket(c) !in s.taken && c.Count() > 0
    requires forall i: nat :: i < c.Count() ==> i in Which(c, s)
    requires forall x :: 2 <= x < 2 + c.Count() ==> x in s.offer.ackNrs
    ensures s.finished && AllBelowTaken(c, s) && Enabled(s, ToAccept(FinPacket(c)))
    ensures forall i: nat :: i < c.Count() ==> DataPacket(c, i) in s.taken
  {
    hide Holds;
    FinishedIsListed(c, s);
    forall i: nat | i < c.Count() ensures DataPacket(c, i) in s.taken {
      assert i in Which(c, s);
    }
  }

  /** Every exchange can succeed: some run ends with the success report and the content streamed. */
  lemma SuccessfulRun(c: Config) returns (steps: seq<Step>)
    requires c.Count() > 0
    ensures Possible(c, steps)
    ensures var s := After(c, steps);
            && s.finished && s.streamed == [c.content]
            && DataPacket(c, 0) in s.toAccept
            && exists q :: q in s.toOffer && q.seqNr == c.acceptRandom + c.Count() + 1
  {
    hide Inv, Apply;
    var order := seq(c.Count(), i => i);
    var before := OrderedRun(c, order);
    ReachableInv(c, before);
    LastNumbers(c, After(c, before));
    Extend(c, before, ToAccept(FinPacket(c)));
    steps := before + [ToAccept(FinPacket(c))];
  }

  lemma LastNumbers(c: Config, s: System)
    requires Inv(c, s) && AllBelowTaken(c, s) && s.finished && c.Count() > 0
    requires Enabled(s, ToAccept(FinPacket(c)))
    ensures var t := Apply(s, ToAccept(FinPacket(c)));
            && t.finished && DataPacket(c, 0) in t.toAccept
            && exists q :: q in t.toOffer && q.seqNr == c.acceptRandom + c.Count() + 1
  {
    hide Holds, SortPackets, Compiled, OfferInv;
    assert 0 in Which(c, s);
    AllBelow(Which(c, s), c.Count());
    FinTaken(s, FinPacket(c));
    var q := Carrying(ReceiveFin(s.accept, FinPacket(c)).0, State);
    assert q.seqNr == c.acceptRandom + c.Count() + 1;
  }

  /** No number in any run leaves sixteen bits, if and only if the accepter's initial number is at
      least 1 and leaves room for one increment a chunk and one for the FIN. */
  lemma NumbersFitExactly(c: Config)
    requires c.Count() > 0 && Fits(c.offerRandom)
    ensures (forall steps :: Possible(c, steps) ==> AllFit(After(c, steps))) <==>
              1 <= c.acceptRandom && c.acceptRandom + c.Count() + 1 < 0x1_0000
  {
    if 1 <= c.acceptRandom && c.acceptRandom + c.Count() + 1 < 0x1_0000 {
      forall steps | Possible(c, steps) ensures AllFit(After(c, steps)) {
        ReachableInv(c, steps);
        StateNumbersFit(c, After(c, steps));
      }
    } else {
      var steps := SuccessfulRun(c);
      var s := After(c, steps);
      var q :| q in s.toOffer && q.seqNr == c.acceptRandom + c.Count() + 1;
      assert !AllFit(s);
    }
  }

  ghost predicate AlwaysFits(c: Config) {
    forall steps :: Possible(c, steps) ==> AllFit(After(c, steps))
  }

  predicate InitialNumbers(c: Config) {
    c.offerRandom < 0x8000 && 1 <= c.acceptRandom < 0x8000
  }

  /** `randUint16` stays below 2^15. Whatever it returns on either side (the accepter's 0 apart),
      contents of up to 32767 chunks never overflow, and no larger content can say that. */
  lemma TightBound(content: bytes)
    requires ChunkCount(content) > 0
    ensures (forall c: Config :: c.content == content && InitialNumbers(c) ==> AlwaysFits(c)) <==>
            ChunkCount(content) <= 32767
  {
    if ChunkCount(content) <= 32767 {
      forall c: Config | c.content == content && InitialNumbers(c)
        ensures AlwaysFits(c)
      {
        NumbersFitExactly(c);
      }
    } else {
      var c := Config(content, 0, 0, 32767);
      NumbersFitExactly(c);
      assert InitialNumbers(c) && !AlwaysFits(c);
    }
  }
}
