/** A FINDCONTENT_READ socket and a FOUNDCONTENT_WRITE socket joined by a network, over whole runs.

    What the writer sends is taken at most once, and so is the SYN; anything may be delayed, dropped
    or reordered. The SYN-ACK handler replaces the reader, so chunks that overtake the SYN-ACK are
    lost: nothing here assumes that they do not. */
module FindFound {
  import opened Bytes
  import opened ContentStream
  import opened UtpSockets
  import opened PortalNetworkUtp

  /** `synRandom` is drawn by the writer when the SYN arrives. */
  datatype Config = Config(content: bytes, connectionId: nat, findRandom: nat, openRandom: nat, synRandom: nat) {
    function Count(): nat {
      ChunkCount(content)
    }
  }

  /** `overtaken` is what the reader had taken before the SYN-ACK. */
  datatype System = System(
    read: Sock,
    write: Sock,
    toRead: set<Segment>,
    toWrite: set<Segment>,
    taken: set<Segment>,
    overtaken: set<Segment>,
    synTaken: bool,
    pending: seq<bool>,
    streamed: seq<bytes>,
    rejections: nat)

  datatype Step = ToRead(p: Segment) | Resume(k: nat) | ToWrite(p: Segment)

  function Start(c: Config): System {
    var read := OnInit(FindContentRead, NewSock(FindContentRead, c.connectionId, c.findRandom, []));
    System(read.0, NewSock(FoundContentWrite, c.connectionId, c.openRandom, c.content),
           {}, Members(read.1), {}, {}, false, [], [], 0)
  }

  predicate Enabled(s: System, step: Step) {
    match step
    case ToRead(p) => p in s.toRead && p !in s.taken
    case Resume(k) => k < |s.pending|
    case ToWrite(p) => p in s.toWrite && (p.pType == Syn ==> !s.synTaken)
  }

  function Apply(c: Config, s: System, step: Step): System
    requires Enabled(s, step)
  {
    match step
    case ToRead(p) =>
      var t := s.(taken := s.taken + {p}, overtaken := if p.pType == State then s.taken else s.overtaken);
      if p.pType == Data then
        var r := ReceiveData(s.read, p);
        t.(read := r.0, pending := s.pending + [r.1])
      else
        var r := Handle(FindContentRead, s.read, p, 0);
        t.(read := r.sock,
           toWrite := s.toWrite + Members(SentOf(r)),
           streamed := s.streamed + (if r.Reply? && r.content.Some? then [r.content.value] else []),
           rejections := s.rejections + if r.Reply? then 0 else 1)
    case Resume(k) =>
      var r := AcknowledgeData(s.read, s.pending[k]);
      s.(read := r.0, pending := s.pending[..k] + s.pending[k + 1..], toWrite := s.toWrite + Members(r.1))
    case ToWrite(p) =>
      var r := Handle(FoundContentWrite, s.write, p, c.synRandom);
      s.(write := r.sock,
         toRead := s.toRead + Members(SentOf(r)),
         synTaken := s.synTaken || p.pType == Syn,
         rejections := s.rejections + if r.Reply? then 0 else 1)
  }

  predicate Possible(c: Config, steps: seq<Step>)
    decreases |steps|, 0
  {
    steps == [] ||
    (Possible(c, steps[..|steps| - 1]) &&
     Enabled(After(c, steps[..|steps| - 1]), steps[|steps| - 1]))
  }

  function After(c: Config, steps: seq<Step>): System
    requires Possible(c, steps)
    decreases |steps|, 1
  {
    if steps == [] then Start(c)
    else Apply(c, After(c, steps[..|steps| - 1]), steps[|steps| - 1])
  }

  function SynPacket(c: Config): Segment {
    Segment(Syn, c.connectionId + 1, 1, c.findRandom, None, [])
  }

  function SynAck(c: Config): Segment {
    Segment(State, c.connectionId, c.synRandom, 1, None, [])
  }

  /** Chunk i leaves under the drawn number plus 1 plus i. */
  function DataPacket(c: Config, i: nat): Segment
    requires i < c.Count()
  {
    Segment(Data, c.connectionId, c.synRandom + 1 + i, 2, None, Chunk(c.content, i))
  }

  function FinPacket(c: Config): Segment {
    Segment(Fin, c.connectionId, c.synRandom + 1 + c.Count(), 2, None, [])
  }

  ghost predicate IsData(c: Config, p: Segment) {
    && c.synRandom + 1 <= p.seqNr < c.synRandom + 1 + c.Count()
    && p == DataPacket(c, p.seqNr - c.synRandom - 1)
  }

  /** The chunks the reader was handed and still has. */
  ghost function Which(c: Config, s: System): set<nat> {
    set i: nat | i < c.Count() && DataPacket(c, i) in s.taken && DataPacket(c, i) !in s.overtaken
  }

  ghost function TakenChunks(c: Config, s: System): set<nat> {
    set i: nat | i < c.Count() && DataPacket(c, i) in s.taken
  }

  ghost predicate WriteInv(c: Config, s: System) {
    var w := s.write;
    && w.content == c.content && w.sndConnectionId == c.connectionId
    && (forall p :: p in s.toRead <==> s.synTaken && (p == SynAck(c) || IsData(c, p) || p == FinPacket(c)))
    && s.overtaken <= s.taken <= s.toRead
    && (s.overtaken != {} ==> SynAck(c) in s.taken)
    && SynAck(c) !in s.overtaken
  }

  ghost predicate ReadInv(c: Config, s: System) {
    var r := s.read;
    && r.sndConnectionId == c.connectionId + 1 && !r.writes
    && (r.reader.None? <==> s.taken <= {FinPacket(c)})
    && (r.reader.None? ==> Which(c, s) == {} && r.seqNr == 0 && s.pending == [] && r.ackNr == c.findRandom)
    && (r.reader.Some? ==>
          && Holds(r.reader.value, c.content, c.synRandom + 1, Which(c, s))
          && c.synRandom <= r.ackNr <= c.synRandom + 1 + c.Count()
          && 0 <= r.seqNr <= 2 + |TakenChunks(c, s)| + (if FinPacket(c) in s.taken then 1 else 0))
    && (forall q :: q in s.toWrite ==> q == SynPacket(c) || AckInv(c, q))
  }

  ghost predicate AckInv(c: Config, q: Segment) {
    && q.pType == State && q.connectionId == c.connectionId + 1 && q.payload == []
    && (q.selective.Some? ==> |q.selective.value| < 256)
    && 0 <= q.seqNr <= c.Count() + 3
    && c.synRandom <= q.ackNr <= c.synRandom + 1 + c.Count()
  }

  ghost predicate Inv(c: Config, s: System) {
    WriteInv(c, s) && ReadInv(c, s)
  }

  lemma StartInv(c: Config)
    ensures Inv(c, Start(c))
  {
  }

  lemma WhichAfter(c: Config, s: System, t: System, p: Segment)
    requires t.taken == s.taken + {p} && t.overtaken == s.overtaken && s.overtaken <= s.taken
    ensures p.pType != Data ==> Which(c, t) == Which(c, s)
    ensures IsData(c, p) && p !in s.taken ==>
              && Which(c, t) == Which(c, s) + {p.seqNr - c.synRandom - 1}
              && (p.seqNr - c.synRandom - 1) as nat !in Which(c, s)
  {
    if IsData(c, p) && p !in s.taken {
      var i: nat := p.seqNr - c.synRandom - 1;
      forall j: nat | j in Which(c, t) ensures j in Which(c, s) + {i} {
        if j != i {
          assert DataPacket(c, j) != p;
        }
      }
    }
  }

  lemma TakenAfter(c: Config, s: System, t: System, p: Segment)
    requires t.taken == s.taken + {p}
    ensures p.pType != Data ==> TakenChunks(c, t) == TakenChunks(c, s)
    ensures IsData(c, p) && p !in s.taken ==> |TakenChunks(c, t)| == |TakenChunks(c, s)| + 1
  {
    if IsData(c, p) && p !in s.taken {
      var i: nat := p.seqNr - c.synRandom - 1;
      forall j: nat | j in TakenChunks(c, t) ensures j in TakenChunks(c, s) + {i} {
        if j != i {
          assert DataPacket(c, j) != p;
        }
      }
      assert TakenChunks(c, t) == TakenChunks(c, s) + {i};
    }
  }

  /** What the writer does on its own leaves the reader's part of the invariant alone. */
  lemma OtherSideKept(c: Config, s: System, t: System)
    requires ReadInv(c, s)
    requires t == s.(write := t.write, toRead := t.toRead, synTaken := t.synTaken)
    ensures ReadInv(c, t)
  {
    hide Holds;
    assert Which(c, t) == Which(c, s) && TakenChunks(c, t) == TakenChunks(c, s);
  }

  lemma SynHandled(c: Config, s: System, p: Segment)
    requires Enabled(s, ToWrite(p)) && p.pType == Syn
    ensures var ready := AnsweredSyn(s.write, p, c.synRandom);
            && Apply(c, s, ToWrite(p)) ==
                 s.(write := SentFin(Written(ready)), synTaken := true, toRead := Apply(c, s, ToWrite(p)).toRead)
            && forall q :: q in Apply(c, s, ToWrite(p)).toRead <==>
                 || q in s.toRead
                 || q == Carrying(s.write.(ackNr := p.seqNr, seqNr := c.synRandom), State)
                 || q in DataSegments(ready)
                 || q == Carrying(Written(ready), Fin)
  {
    hide FirstSegments, DataSegments, Numbers;
  }

  lemma AckHandled(c: Config, s: System, p: Segment)
    requires Enabled(s, ToWrite(p)) && p.pType == State
    ensures var t := Apply(c, s, ToWrite(p));
            t == s.(write := t.write) && t.write == s.write.(ackNrs := t.write.ackNrs)
  {
    assert Members([]) == {};
  }

  lemma WriterStep(c: Config, s: System, p: Segment)
    requires Inv(c, s) && Enabled(s, ToWrite(p))
    ensures Inv(c, Apply(c, s, ToWrite(p)))
  {
    hide Apply, Handle, Holds, FirstSegments;
    var t := Apply(c, s, ToWrite(p));
    if p.pType == Syn {
      SynHandled(c, s, p);
      OtherSideKept(c, s, t);
      assert p == SynPacket(c);
      var ready := AnsweredSyn(s.write, p, c.synRandom);
      forall q ensures q in t.toRead <==> q == SynAck(c) || IsData(c, q) || q == FinPacket(c) {
        FirstSegmentsAre(ready, c.Count(), q);
      }
    } else {
      assert p.pType == State;
      AckHandled(c, s, p);
      OtherSideKept(c, s, t);
    }
  }

  lemma SynAckTaken(c: Config, s: System, p: Segment)
    requires Enabled(s, ToRead(p)) && p.pType == State && p.ackNr == 1
    ensures var open := s.read.(ackNr := p.seqNr, seqNr := 2, nextSeq := Some(p.seqNr + 1), reader := Some([]));
            Apply(c, s, ToRead(p)) ==
              s.(taken := s.taken + {p}, overtaken := s.taken, read := open,
                 toWrite := s.toWrite + {Carrying(open, State)})
  {
    var open := s.read.(ackNr := p.seqNr, seqNr := 2, nextSeq := Some(p.seqNr + 1), reader := Some([]));
    assert Members([Carrying(open, State)]) == {Carrying(open, State)};
  }

  /** The new reader has none of the chunks taken so far. */
  lemma SynAckLeavesNothing(c: Config, s: System, t: System)
    requires WriteInv(c, s) && SynAck(c) in s.toRead && SynAck(c) !in s.taken
    requires t == s.(taken := s.taken + {SynAck(c)}, overtaken := s.taken, read := t.read, toWrite := t.toWrite)
    ensures WriteInv(c, t) && Which(c, t) == {}
  {
  }

  lemma TakeSynAck(c: Config, s: System, p: Segment)
    requires Inv(c, s) && Enabled(s, ToRead(p)) && p.pType == State
    ensures Inv(c, Apply(c, s, ToRead(p)))
  {
    hide Apply, Handle, Holds, TakenChunks;
    var t := Apply(c, s, ToRead(p));
    assert p == SynAck(c);
    SynAckTaken(c, s, p);
    SynAckLeavesNothing(c, s, t);
    HoldsNothing(c.content, c.synRandom + 1);
  }

  lemma ChunkAdded(c: Config, s: System, p: Segment)
    requires Inv(c, s) && IsData(c, p) && p !in s.taken
    ensures var packets := if s.read.reader.Some? then s.read.reader.value else [];
            Holds(packets + [Numbered(p.seqNr, p.payload)], c.content, c.synRandom + 1,
                  Which(c, s) + {p.seqNr - c.synRandom - 1})
    ensures (p.seqNr - c.synRandom - 1) as nat !in Which(c, s)
  {
    hide Holds;
    if s.read.reader.None? {
      HoldsNothing(c.content, c.synRandom + 1);
    }
    var packets := if s.read.reader.Some? then s.read.reader.value else [];
    HoldsOneMore(packets, c.content, c.synRandom + 1, Which(c, s), p.seqNr - c.synRandom - 1);
  }

  lemma TakeData(c: Config, s: System, p: Segment)
    requires Inv(c, s) && Enabled(s, ToRead(p)) && p.pType == Data
    ensures Inv(c, Apply(c, s, ToRead(p)))
  {
    var t := Apply(c, s, ToRead(p));
    assert IsData(c, p);
    ChunkAdded(c, s, p);
    WhichAfter(c, s, t, p);
    TakenAfter(c, s, t, p);
    assert WriteInv(c, t);
    assert p in t.taken && p != FinPacket(c);
  }

  lemma FinTaken(c: Config, s: System, p: Segment)
    requires Enabled(s, ToRead(p)) && p.pType == Fin
    ensures Apply(c, s, ToRead(p)) ==
              if s.read.reader.None?
              then s.(taken := s.taken + {p}, read := s.read.(state := Some(GotFin)), rejections := s.rejections + 1)
              else
                var r := ReceiveFin(s.read, p);
                s.(taken := s.taken + {p}, read := r.0, toWrite := s.toWrite + {Carrying(r.0, State)},
                   streamed := s.streamed + [r.1])
  {
    hide SortPackets, Compiled;
    if s.read.reader.Some? {
      var ack := Carrying(ReceiveFin(s.read, p).0, State);
      assert Members([ack]) == {ack};
    }
  }

  lemma TakeFin(c: Config, s: System, p: Segment)
    requires Inv(c, s) && Enabled(s, ToRead(p)) && p.pType == Fin
    ensures Inv(c, Apply(c, s, ToRead(p)))
  {
    hide Apply, Handle, Holds, SortPackets, Compiled;
    var t := Apply(c, s, ToRead(p));
    assert p == FinPacket(c);
    FinTaken(c, s, p);
    WhichAfter(c, s, t, p);
    TakenAfter(c, s, t, p);
    if s.read.reader.Some? {
      HoldsSorted(s.read.reader.value, c.content, c.synRandom + 1, Which(c, s));
      SizeBelow(TakenChunks(c, t), c.Count());
    }
  }

  lemma ResumeInv(c: Config, s: System, k: nat)
    requires Inv(c, s) && Enabled(s, Resume(k))
    ensures Inv(c, Apply(c, s, Resume(k)))
  {
    var t := Apply(c, s, Resume(k));
    assert Which(c, t) == Which(c, s) && TakenChunks(c, t) == TakenChunks(c, s);
    SizeBelow(TakenChunks(c, t), c.Count());
  }

  lemma StepInv(c: Config, s: System, step: Step)
    requires Inv(c, s) && Enabled(s, step)
    ensures Inv(c, Apply(c, s, step))
  {
    match step
    case Resume(k) => ResumeInv(c, s, k);
    case ToWrite(p) => WriterStep(c, s, p);
    case ToRead(p) =>
      assert p.pType in {State, Data, Fin};
      if p.pType == State {
        TakeSynAck(c, s, p);
      } else if p.pType == Data {
        TakeData(c, s, p);
      } else {
        TakeFin(c, s, p);
      }
  }

  lemma {:induction false} ReachableInv(c: Config, steps: seq<Step>)
    requires Possible(c, steps)
    ensures Inv(c, After(c, steps))
  {
    if steps == [] {
      StartInv(c);
    } else {
      ReachableInv(c, steps[..|steps| - 1]);
      StepInv(c, After(c, steps[..|steps| - 1]), steps[|steps| - 1]);
    }
  }

  /** In every run, the reader compiles to the chunks that arrived, in order, without those that
      overtook the SYN-ACK: to the content exactly when every chunk has arrived and none of them
      before the SYN-ACK did. */
  lemma ReaderHolds(c: Config, steps: seq<Step>)
    requires c.Count() > 0 && Possible(c, steps) && After(c, steps).read.reader.Some?
    ensures var s := After(c, steps);
            var compiled := Compiled(s.read.reader.value);
            && compiled == ChunksIn(c.content, Which(c, s))
            && (compiled == c.content <==>
                  forall i: nat :: i < c.Count() ==>
                    DataPacket(c, i) in s.taken && DataPacket(c, i) !in s.overtaken)
  {
    hide After, Possible, Apply;
    ReachableInv(c, steps);
    var s := After(c, steps);
    CompiledChunks(s.read.reader.value, c.content, c.synRandom + 1, Which(c, s));
    forall i: nat | i < c.Count()
      ensures i in Which(c, s) <==> DataPacket(c, i) in s.taken && DataPacket(c, i) !in s.overtaken
    {
    }
  }

  /** The only packet ever refused is a FIN that arrives before everything else. */
  lemma RejectsOnlyEarlyFin(c: Config, steps: seq<Step>, step: Step)
    requires c.Count() > 0 && Possible(c, steps) && Enabled(After(c, steps), step)
    ensures var s := After(c, steps);
            Apply(c, s, step).rejections > s.rejections <==>
              step == ToRead(FinPacket(c)) && s.taken == {}
  {
    ReachableInv(c, steps);
    var s := After(c, steps);
    if step.ToRead? && step.p.pType == Fin {
      assert step.p == FinPacket(c);
    }
  }

  /** The FIN delivers the chunks the reader still has. */
  lemma FinStreams(c: Config, steps: seq<Step>)
    requires c.Count() > 0 && Possible(c, steps) && Enabled(After(c, steps), ToRead(FinPacket(c)))
    ensures var s := After(c, steps);
            s.read.reader.Some? ==>
              Apply(c, s, ToRead(FinPacket(c))).streamed == s.streamed + [ChunksIn(c.content, Which(c, s))]
  {
    var s := After(c, steps);
    if s.read.reader.Some? {
      ReaderHolds(c, steps);
    }
  }

  // ---------- Runs that succeed, runs that lose ----------

  lemma Extend(c: Config, steps: seq<Step>, step: Step)
    requires Possible(c, steps) && Enabled(After(c, steps), step)
    ensures Possible(c, steps + [step])
    ensures After(c, steps + [step]) == Apply(c, After(c, steps), step)
  {
    assert (steps + [step])[..|steps|] == steps;
  }

  /** The writer has been asked: everything it will send is under way. */
  lemma AskedRun(c: Config) returns (steps: seq<Step>)
    ensures Possible(c, steps)
    ensures var s := After(c, steps);
            && s.taken == {} && s.overtaken == {} && s.streamed == []
            && (forall p :: p in s.toRead <==> p == SynAck(c) || IsData(c, p) || p == FinPacket(c))
  {
    var syn := ToWrite(SynPacket(c));
    assert SynPacket(c) in Start(c).toWrite;
    steps := [];
    Extend(c, steps, syn);
    steps := steps + [syn];
    ReachableInv(c, steps);
  }

  /** Taking a packet other than the SYN-ACK: only DATA and FIN are left. */
  lemma TakenNext(c: Config, s: System, p: Segment)
    requires Enabled(s, ToRead(p))
    ensures var t := Apply(c, s, ToRead(p));
            && t.toRead == s.toRead && t.taken == s.taken + {p}
            && t.overtaken == (if p.pType == State then s.taken else s.overtaken)
            && (p.pType != Fin ==> t.streamed == s.streamed)
  {
  }

  /** The SYN-ACK and then the first `k` chunks have arrived. */
  ghost predicate InOrder(c: Config, s: System, k: nat) {
    && s.overtaken == {} && s.streamed == [] && SynAck(c) in s.taken && FinPacket(c) !in s.taken
    && (forall p :: p in s.toRead <==> p == SynAck(c) || IsData(c, p) || p == FinPacket(c))
    && (forall i: nat :: i < c.Count() ==> (DataPacket(c, i) in s.taken <==> i < k))
  }

  lemma {:induction false} InOrderRun(c: Config, k: nat) returns (steps: seq<Step>)
    requires k <= c.Count()
    ensures Possible(c, steps) && InOrder(c, After(c, steps), k)
  {
    hide Apply, Start;
    if k == 0 {
      steps := AskedRun(c);
      TakenNext(c, After(c, steps), SynAck(c));
      Extend(c, steps, ToRead(SynAck(c)));
      steps := steps + [ToRead(SynAck(c))];
    } else {
      var before := InOrderRun(c, k - 1);
      var p := DataPacket(c, k - 1);
      assert IsData(c, p);
      TakenNext(c, After(c, before), p);
      Extend(c, before, ToRead(p));
      steps := before + [ToRead(p)];
      forall i: nat | i < c.Count() && i != k - 1 ensures DataPacket(c, i) != p {
      }
    }
  }

  /** Every exchange can succeed: some run streams the content. */
  lemma SuccessfulRun(c: Config) returns (steps: seq<Step>)
    requires c.Count() > 0
    ensures Possible(c, steps) && After(c, steps).streamed == [c.content]
  {
    hide Apply, Start, Inv, IsData, Compiled;
    var before := InOrderRun(c, c.Count());
    var s := After(c, before);
    assert DataPacket(c, 0) in s.taken;
    HasReader(c, before);
    ReaderHolds(c, before);
    FinStreams(c, before);
    Extend(c, before, ToRead(FinPacket(c)));
    steps := before + [ToRead(FinPacket(c))];
  }

  lemma HasReader(c: Config, steps: seq<Step>)
    requires Possible(c, steps)
    ensures After(c, steps).read.reader.None? <==> After(c, steps).taken <= {FinPacket(c)}
  {
    ReachableInv(c, steps);
  }

  /** Once the SYN-ACK has been taken, what overtook it is settled. */
  lemma {:induction false} OvertakenForGood(c: Config, before: seq<Step>, after: seq<Step>)
    requires before <= after && Possible(c, after)
    ensures Possible(c, before)
    ensures SynAck(c) in After(c, before).taken ==>
              SynAck(c) in After(c, after).taken && After(c, after).overtaken == After(c, before).overtaken
  {
    hide Inv, Handle;
    if before == after {
    } else {
      var init, last := after[..|after| - 1], after[|after| - 1];
      assert before <= init;
      OvertakenForGood(c, before, init);
      ReachableInv(c, init);
      OnlySynAck(c, After(c, init), last);
    }
  }

  lemma OnlySynAck(c: Config, s: System, step: Step)
    requires Inv(c, s) && Enabled(s, step)
    ensures s.taken <= Apply(c, s, step).taken
    ensures SynAck(c) in s.taken ==> Apply(c, s, step).overtaken == s.overtaken
  {
  }

  /** And every exchange can lose content for good: when the first chunk overtakes the SYN-ACK, the
      reader never again compiles to the content, however the run goes on. */
  lemma LossyRun(c: Config) returns (steps: seq<Step>)
    requires c.Count() > 0
    ensures Possible(c, steps)
    ensures var s := After(c, steps); SynAck(c) in s.taken && DataPacket(c, 0) in s.overtaken
    ensures forall more :: steps <= more && Possible(c, more) ==>
              var s := After(c, more);
              && s.read.reader.Some?
              && Compiled(s.read.reader.value) != c.content
              && DataPacket(c, 0) in s.taken
  {
    hide Inv, Apply, Start, Compiled;
    steps := AskedRun(c);
    var data, ack := ToRead(DataPacket(c, 0)), ToRead(SynAck(c));
    assert IsData(c, DataPacket(c, 0));
    TakenNext(c, After(c, steps), DataPacket(c, 0));
    Extend(c, steps, data);
    steps := steps + [data];
    TakenNext(c, After(c, steps), SynAck(c));
    Extend(c, steps, ack);
    steps := steps + [ack];
    forall more | steps <= more && Possible(c, more)
      ensures var s := After(c, more);
              && s.read.reader.Some?
              && Compiled(s.read.reader.value) != c.content
              && DataPacket(c, 0) in s.taken
    {
      OvertakenForGood(c, steps, more);
      HasReader(c, more);
      ReaderHolds(c, more);
      OvertakenIsTaken(c, more);
    }
  }

  lemma OvertakenIsTaken(c: Config, steps: seq<Step>)
    requires Possible(c, steps)
    ensures After(c, steps).overtaken <= After(c, steps).taken
  {
    ReachableInv(c, steps);
  }

  // ---------- What each side remembers and answers ----------

  /** The SYN-ACK resets the reader's numbers, whatever came before, and is itself acknowledged. */
  lemma SynAckAnswered(c: Config, steps: seq<Step>)
    requires Possible(c, steps) && Enabled(After(c, steps), ToRead(SynAck(c)))
    ensures var t := Apply(c, After(c, steps), ToRead(SynAck(c)));
            && t.read.seqNr == 2 && t.read.ackNr == c.synRandom
            && t.read.nextSeq == Some(c.synRandom + 1) && t.read.reader == Some([])
            && Segment(State, c.connectionId + 1, 2, c.synRandom, None, []) in t.toWrite
  {
    hide Inv, Apply, Handle;
    ReaderId(c, steps);
    SynAckTaken(c, After(c, steps), SynAck(c));
  }

  lemma ReaderId(c: Config, steps: seq<Step>)
    requires Possible(c, steps)
    ensures After(c, steps).read.sndConnectionId == c.connectionId + 1
  {
    ReachableInv(c, steps);
  }

  /** From then on the reader's own number counts the packets it has taken since. */
  ghost predicate CountsPackets(c: Config, s: System) {
    SynAck(c) in s.taken ==>
      s.read.seqNr == 2 + |Which(c, s)| + if FinPacket(c) in s.taken && FinPacket(c) !in s.overtaken then 1 else 0
  }

  lemma ArrivalCounts(c: Config, s: System, p: Segment)
    requires Inv(c, s) && Enabled(s, ToRead(p)) && CountsPackets(c, s)
    ensures CountsPackets(c, Apply(c, s, ToRead(p)))
  {
    hide Apply, Handle, Holds, SortPackets, Compiled, TakenChunks;
    var t := Apply(c, s, ToRead(p));
    assert p.pType in {State, Data, Fin};
    if p.pType == State {
      assert p == SynAck(c);
      SynAckTaken(c, s, p);
      SynAckLeavesNothing(c, s, t);
    } else {
      TakenNext(c, s, p);
      WhichAfter(c, s, t, p);
      if p.pType == Fin {
        assert p == FinPacket(c);
        FinTaken(c, s, p);
      } else {
        DataTaken(c, s, p);
      }
    }
  }

  lemma DataTaken(c: Config, s: System, p: Segment)
    requires Enabled(s, ToRead(p)) && p.pType == Data
    ensures Apply(c, s, ToRead(p)) ==
              s.(taken := s.taken + {p}, read := ReceiveData(s.read, p).0,
                 pending := s.pending + [s.read.nextSeq == Some(p.seqNr)])
  {
  }

  lemma {:induction false} ReaderCounts(c: Config, steps: seq<Step>)
    requires Possible(c, steps)
    ensures CountsPackets(c, After(c, steps))
  {
    hide Inv, Apply, CountsPackets;
    if steps == [] {
      CountsNothing(c);
    } else {
      var before, last := steps[..|steps| - 1], steps[|steps| - 1];
      ReaderCounts(c, before);
      ReachableInv(c, before);
      if last.ToRead? {
        ArrivalCounts(c, After(c, before), last.p);
      } else {
        OthersKeepCount(c, After(c, before), last);
      }
    }
  }

  lemma CountsNothing(c: Config)
    ensures CountsPackets(c, Start(c))
  {
  }

  lemma OthersKeepCount(c: Config, s: System, step: Step)
    requires Enabled(s, step) && !step.ToRead? && CountsPackets(c, s)
    ensures CountsPackets(c, Apply(c, s, step))
  {
    var t := Apply(c, s, step);
    assert t.taken == s.taken && t.overtaken == s.overtaken && t.read.seqNr == s.read.seqNr;
    assert Which(c, t) == Which(c, s);
  }

  /** The acknowledgements the writer has handled. */
  function AcksHandled(steps: seq<Step>): seq<int> {
    if steps == [] then []
    else
      var last := steps[|steps| - 1];
      AcksHandled(steps[..|steps| - 1]) +
      if last.ToWrite? && last.p.pType == State then [last.p.ackNr] else []
  }

  /** The writer files its chunks one below the numbers they leave under, which is why its two lists of
      numbers cannot be compared; it keeps every number acknowledged to it once. */
  ghost predicate WriterKeeps(c: Config, s: System, acks: seq<int>) {
    var w := s.write;
    && NoDuplicates(w.ackNrs) && (forall x :: x in w.ackNrs <==> x in acks)
    && (!s.synTaken ==> w == NewSock(FoundContentWrite, c.connectionId, c.openRandom, c.content)
                               .(ackNrs := w.ackNrs))
    && (s.synTaken ==>
          && w.dataNrs == Numbers(c.synRandom, c.Count())
          && w.writer == Some(WriterState(c.synRandom, c.Count()))
          && w.ackNr == 2 && w.nextSeq == Some(c.synRandom + 2)
          && w.seqNr == c.synRandom + 1 + c.Count() && w.finNr == Some(w.seqNr)
          && (c.Count() > 0 ==> w.state == Some(Connected)))
  }

  lemma WriterKeepsStep(c: Config, s: System, p: Segment, acks: seq<int>)
    requires Inv(c, s) && Enabled(s, ToWrite(p)) && WriterKeeps(c, s, acks)
    ensures WriterKeeps(c, Apply(c, s, ToWrite(p)), acks + if p.pType == State then [p.ackNr] else [])
  {
    hide Holds, FirstSegments, DataSegments;
    assert p == SynPacket(c) || p.pType == State;
    if p.pType == Syn {
      SynHandled(c, s, p);
      assert [] + Numbers(c.synRandom, c.Count()) == Numbers(c.synRandom, c.Count());
    }
  }

  lemma {:induction false} WriterKept(c: Config, steps: seq<Step>)
    requires Possible(c, steps)
    ensures WriterKeeps(c, After(c, steps), AcksHandled(steps))
  {
    hide Inv, Apply, WriterKeeps;
    if steps == [] {
      KeepsNothing(c);
    } else {
      var before, last := steps[..|steps| - 1], steps[|steps| - 1];
      WriterKept(c, before);
      ReachableInv(c, before);
      if last.ToWrite? {
        WriterKeepsStep(c, After(c, before), last.p, AcksHandled(before));
      } else {
        ReaderLeavesWriter(c, After(c, before), last, AcksHandled(before));
        assert AcksHandled(before) + [] == AcksHandled(before);
      }
    }
  }

  lemma KeepsNothing(c: Config)
    ensures WriterKeeps(c, Start(c), [])
  {
  }

  lemma ReaderLeavesWriter(c: Config, s: System, step: Step, acks: seq<int>)
    requires Enabled(s, step) && !step.ToWrite? && WriterKeeps(c, s, acks)
    ensures WriterKeeps(c, Apply(c, s, step), acks)
  {
  }

  predicate AcksFin(c: Config, q: Segment) {
    q == Segment(State, c.connectionId + 1, q.seqNr, c.synRandom + 1 + c.Count(), None, [])
  }

  /** A FIN that is taken delivers the stream and is acknowledged, except when it is the very first
      packet. */
  lemma FinAnswered(c: Config, steps: seq<Step>)
    requires Possible(c, steps) && Enabled(After(c, steps), ToRead(FinPacket(c)))
    ensures var s := After(c, steps);
            var t := Apply(c, s, ToRead(FinPacket(c)));
            s.taken != {} ==> t.read.state == Some(GotFin) && exists q :: q in t.toWrite && AcksFin(c, q)
  {
    hide Inv, Apply, Handle, Holds, SortPackets, Compiled;
    ReaderId(c, steps);
    HasReader(c, steps);
    var s := After(c, steps);
    FinTaken(c, s, FinPacket(c));
    if s.taken != {} {
      var ack := Carrying(ReceiveFin(s.read, FinPacket(c)).0, State);
      assert AcksFin(c, ack);
    }
  }

  ghost predicate AllFit(s: System) {
    forall p :: p in s.toRead || p in s.toWrite ==> 0 <= p.seqNr < 0x1_0000 && 0 <= p.ackNr < 0x1_0000
  }

  ghost predicate AlwaysFits(c: Config) {
    forall steps :: Possible(c, steps) ==> AllFit(After(c, steps))
  }

  predicate InitialNumbers(c: Config) {
    c.findRandom < 0x8000 && c.openRandom < 0x8000 && c.synRandom < 0x8000
  }

  /** Whatever `randUint16` returns, contents of up to 32767 chunks keep every number of every run
      within sixteen bits, and no larger content can say that. */
  lemma TightBound(content: bytes)
    requires ChunkCount(content) > 0
    ensures (forall c: Config :: c.content == content && InitialNumbers(c) ==> AlwaysFits(c)) <==>
            ChunkCount(content) <= 32767
  {
    if ChunkCount(content) <= 32767 {
      forall c: Config, steps | c.content == content && InitialNumbers(c) && Possible(c, steps)
        ensures AllFit(After(c, steps))
      {
        ReachableInv(c, steps);
      }
    } else {
      var c := Config(content, 0, 0, 0, 32767);
      var steps := AskedRun(c);
      assert FinPacket(c) in After(c, steps).toRead;
      assert !AllFit(After(c, steps));
      assert InitialNumbers(c) && !AlwaysFits(c);
    }
  }
}
