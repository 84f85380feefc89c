/** The content lookup worklist (subprotocols/contentLookup.ts). */
module ContentLookups {
  import opened Bytes
  import opened RoutingTables

  /** A peer's answer to FINDCONTENT. Each peer is asked at most once, so one answer a peer is all
      there can be. */
  datatype Answer = NoAnswer | Streams | Content(value: bytes) | Closer(enrs: seq<NodeId>)

  datatype Found = Stored(value: bytes) | Awaiting(peer: NodeId) | Received(value: bytes) | Failed

  datatype LookupPeer = LookupPeer(nodeId: NodeId, distance: nat)

  function Ids(peers: seq<LookupPeer>): set<NodeId> {
    set p | p in peers :: p.nodeId
  }

  /** Array.prototype.splice(start, 0, x): a negative start counts from the end. */
  function SpliceIn<T>(s: seq<T>, start: int, x: T): seq<T> {
    var i := if start >= 0 then (if start <= |s| then start else |s|)
             else if |s| + start >= 0 then |s| + start else 0;
    s[..i] + [x] + s[i..]
  }

  function FindFarther(peers: seq<LookupPeer>, distance: nat): int {
    if peers == [] then -1
    else if peers[0].distance > distance then 0
    else
      var rest := FindFarther(peers[1..], distance);
      if rest < 0 then -1 else rest + 1
  }

  /** Where a new peer goes: one place before the first farther one, or last. With a farther peer in
      front, that is before the last place. */
  function Inserted(peers: seq<LookupPeer>, p: LookupPeer): seq<LookupPeer> {
    var index := FindFarther(peers, p.distance);
    if peers == [] || index < 0 then peers + [p] else SpliceIn(peers, index - 1, p)
  }

  /** Where it ends up: with a first farther peer at `f`, one place before it, and with that one in front,
      before the last; without one, at the end. Everyone else keeps their order. */
  lemma InsertedAt(peers: seq<LookupPeer>, p: LookupPeer, f: nat)
    requires forall i :: 0 <= i < f && i < |peers| ==> peers[i].distance <= p.distance
    ensures f >= |peers| ==> Inserted(peers, p) == peers + [p]
    ensures 0 < f < |peers| && peers[f].distance > p.distance ==>
              Inserted(peers, p) == peers[..f - 1] + [p] + peers[f - 1..]
    ensures f == 0 < |peers| && peers[0].distance > p.distance ==>
              Inserted(peers, p) == peers[..|peers| - 1] + [p, peers[|peers| - 1]]
  {
    if f >= |peers| || peers[f].distance > p.distance {
      FirstFarther(peers, p.distance, f);
    }
  }

  lemma {:induction false} FirstFarther(peers: seq<LookupPeer>, distance: nat, f: nat)
    requires forall i :: 0 <= i < f && i < |peers| ==> peers[i].distance <= distance
    requires f < |peers| ==> peers[f].distance > distance
    ensures FindFarther(peers, distance) == if f < |peers| then f else -1
  {
    if peers != [] && f > 0 {
      FirstFarther(peers[1..], distance, f - 1);
    }
  }

  /** The worklist after an answer: those already asked are skipped, the others inserted one by one. */
  function InsertedAll(peers: seq<LookupPeer>, enrs: seq<NodeId>, asked: seq<NodeId>,
                       distance: NodeId -> nat): seq<LookupPeer>
  {
    if enrs == [] then peers
    else
      var before, n := InsertedAll(peers, enrs[..|enrs| - 1], asked, distance), enrs[|enrs| - 1];
      if n in asked then before else Inserted(before, LookupPeer(n, distance(n)))
  }

  lemma {:induction false} InsertedAllIds(peers: seq<LookupPeer>, enrs: seq<NodeId>, asked: seq<NodeId>,
                                          distance: NodeId -> nat)
    ensures Ids(InsertedAll(peers, enrs, asked, distance)) == Ids(peers) + (Members(enrs) - Members(asked))
  {
    if enrs != [] {
      var init, n := enrs[..|enrs| - 1], enrs[|enrs| - 1];
      InsertedAllIds(peers, init, asked, distance);
      InsertedIds(InsertedAll(peers, init, asked, distance), LookupPeer(n, distance(n)));
      MembersAppend(init, n);
      assert enrs == init + [n];
    }
  }

  lemma InsertedIds(peers: seq<LookupPeer>, p: LookupPeer)
    ensures Ids(Inserted(peers, p)) == Ids(peers) + {p.nodeId}
  {
    var r := Inserted(peers, p);
    assert forall q :: q in r <==> q in peers || q == p by {
      SpliceMembers(peers, FindFarther(peers, p.distance) - 1, p);
    }
    forall x | x in Ids(peers) + {p.nodeId} ensures x in Ids(r) {
      if x == p.nodeId {
        assert p in r;
      } else {
        var q :| q in peers && q.nodeId == x;
        assert q in r;
      }
    }
  }

  lemma SpliceMembers<T>(s: seq<T>, start: int, x: T)
    ensures forall q :: q in SpliceIn(s, start, x) <==> q in s || q == x
  {
    var i := if start >= 0 then (if start <= |s| then start else |s|)
             else if |s| + start >= 0 then |s| + start else 0;
    assert s == s[..i] + s[i..];
  }

  /** The peers an answer names. */
  function Named(a: Answer): set<NodeId> {
    if a.Closer? then Members(a.enrs) else {}
  }

  function Members(nodes: seq<NodeId>): set<NodeId> {
    set n | n in nodes
  }

  /** A way from one of the initial peers to a node through returned ENRs. */
  ghost predicate IsPath(answers: NodeId -> Answer, initial: seq<NodeId>, path: seq<NodeId>) {
    && path != [] && path[0] in initial
    && forall i :: 0 <= i < |path| - 1 ==> path[i + 1] in Named(answers(path[i]))
  }

  ghost predicate Reachable(answers: NodeId -> Answer, initial: seq<NodeId>, n: NodeId) {
    exists path :: IsPath(answers, initial, path) && path[|path| - 1] == n
  }

  lemma ReachableStart(answers: NodeId -> Answer, initial: seq<NodeId>, n: NodeId)
    requires n in initial
    ensures Reachable(answers, initial, n)
  {
    assert IsPath(answers, initial, [n]) && [n][|[n]| - 1] == n;
  }

  lemma ReachableStep(answers: NodeId -> Answer, initial: seq<NodeId>, n: NodeId, m: NodeId)
    requires Reachable(answers, initial, n) && m in Named(answers(n))
    ensures Reachable(answers, initial, m)
  {
    var path :| IsPath(answers, initial, path) && path[|path| - 1] == n;
    var longer := path + [m];
    assert IsPath(answers, initial, longer) && longer[|longer| - 1] == m;
  }

  /** A set that contains the initial peers and whatever its members name contains every reachable
      node. */
  lemma {:induction false} ClosedContains(answers: NodeId -> Answer, initial: seq<NodeId>,
                                          asked: set<NodeId>, path: seq<NodeId>)
    requires Members(initial) <= asked
    requires forall n :: n in asked ==> Named(answers(n)) <= asked
    requires IsPath(answers, initial, path)
    ensures path[|path| - 1] in asked
  {
    if |path| > 1 {
      var init := path[..|path| - 1];
      assert IsPath(answers, initial, init) by {
        forall i | 0 <= i < |init| - 1 ensures init[i + 1] in Named(answers(init[i])) {
          assert path[i + 1] in Named(answers(path[i]));
        }
      }
      ClosedContains(answers, initial, asked, init);
      assert path[|path| - 1] == path[|path| - 2 + 1];
    }
  }

  class ContentLookup {
    const contentKey: ContentKey
    const table: PortalNetworkRoutingTable
    var lookupPeers: seq<LookupPeer>
    var contacted: seq<NodeId>
    var asked: seq<NodeId>

    constructor (table: PortalNetworkRoutingTable, contentKey: ContentKey)
      ensures this.table == table && this.contentKey == contentKey
      ensures lookupPeers == [] && contacted == [] && asked == []
    {
      this.table, this.contentKey := table, contentKey;
      lookupPeers, contacted, asked := [], [], [];
    }

    /** POKE: offers the content to the contacted peers that did not have it. */
    method Poke()
      requires table.Valid()
      modifies table`gossipMap, table`events
      ensures table.Valid()
      ensures old(table.events) <= table.events
      ensures forall p :: p in contacted ==> contentKey in table.Known(p)
      ensures forall e :: e in table.events[|old(table.events)|..] ==>
                e.Offer? && e.peer in contacted && e.keys == [contentKey]
    {
      hide NoneRepeated, OfferedSince;
      for i := 0 to |contacted|
        invariant table.Valid()
        invariant old(table.events) <= table.events
        invariant forall p :: p in contacted[..i] ==> contentKey in table.Known(p)
        invariant forall e :: e in table.events[|old(table.events)|..] ==>
            e.Offer? && e.peer in contacted && e.keys == [contentKey]
      {
        ghost var before := table.events;
        var peer := contacted[i];
        var known := table.ContentKeyKnownToPeer(peer, contentKey);
        assert contacted[..i + 1] == contacted[..i] + [peer];
        if !known {
          assert (set k | k in [contentKey]) == {contentKey};
          table.SendOffer(peer, [contentKey]);
          assert table.events[|old(table.events)|..] == before[|old(table.events)|..] + [Offer(peer, [contentKey])];
        }
      }
      assert contacted[..|contacted|] == contacted;
    }

    /** Takes the peers of an answer into the worklist, those already asked excepted. */
    method AddCloser(enrs: seq<NodeId>, distance: NodeId -> nat)
      modifies this`lookupPeers, table`nodes
      ensures lookupPeers == InsertedAll(old(lookupPeers), enrs, asked, distance)
      ensures Ids(lookupPeers) == old(Ids(lookupPeers)) + (Members(enrs) - Members(asked))
      ensures table.nodes == old(table.nodes) + (Members(enrs) - Members(asked))
    {
      for i := 0 to |enrs|
        invariant lookupPeers == InsertedAll(old(lookupPeers), enrs[..i], asked, distance)
        invariant table.nodes == old(table.nodes) + (Members(enrs[..i]) - Members(asked))
      {
        var n := enrs[i];
        assert enrs[..i + 1] == enrs[..i] + [n];
        assert enrs[..i + 1][..i] == enrs[..i];
        MembersAppend(enrs[..i], n);
        if n !in asked {
          lookupPeers := Inserted(lookupPeers, LookupPeer(n, distance(n)));
          if n !in table.nodes {
            table.InsertOrUpdate(n);
          }
        }
      }
      assert enrs[..|enrs|] == enrs;
      InsertedAllIds(old(lookupPeers), enrs, asked, distance);
    }

    /** The worklist before its first round. */
    method Fill(nearest: seq<NodeId>, distance: NodeId -> nat, ghost answers: NodeId -> Answer)
      requires lookupPeers == [] && contacted == [] && asked == []
      modifies this`lookupPeers
      ensures Ids(lookupPeers) == Members(nearest)
      ensures Sound(answers, nearest, {}, {}, Ids(lookupPeers))
    {
      for i := 0 to |nearest|
        invariant Ids(lookupPeers) == (set n | n in nearest[..i])
      {
        assert nearest[..i + 1] == nearest[..i] + [nearest[i]];
        var peer := LookupPeer(nearest[i], distance(nearest[i]));
        ghost var before := lookupPeers;
        lookupPeers := lookupPeers + [peer];
        IdsAppend(before, peer);
      }
      assert nearest[..|nearest|] == nearest;
      forall n | n in nearest ensures Reachable(answers, nearest, n) {
        ReachableStart(answers, nearest, n);
      }
    }

    /** Takes the first peer off the worklist; tells whether it still has to be asked. */
    method Shift() returns (n: NodeId, ask: bool)
      requires lookupPeers != []
      modifies this`lookupPeers, this`asked
      ensures n == old(lookupPeers[0].nodeId) && lookupPeers == old(lookupPeers[1..])
      ensures n in old(Ids(lookupPeers)) && old(Ids(lookupPeers)) == Ids(lookupPeers) + {n}
      ensures ask <==> n !in old(asked)
      ensures asked == if ask then old(asked) + [n] else old(asked)
    {
      IdsSplit(lookupPeers);
      n := lookupPeers[0].nodeId;
      lookupPeers := lookupPeers[1..];
      ask := n !in asked;
      if ask {
        asked := asked + [n];
      }
    }

    ghost predicate LoopInv(answers: NodeId -> Answer, initial: seq<NodeId>, universe: set<NodeId>)
      reads this
    {
      && Distinct(asked)
      && Sound(answers, initial, Members(contacted), Members(asked), Ids(lookupPeers))
      && Members(asked) + Ids(lookupPeers) <= universe
    }

    /** What is known when the last asked peer has content or a stream to offer. */
    ghost predicate Ended(answers: NodeId -> Answer, initial: seq<NodeId>, found: Found)
      reads this
    {
      && asked != []
      && Distinct(asked)
      && (forall n :: n in asked ==> Reachable(answers, initial, n))
      && (forall n :: n in contacted <==> n in asked && answers(n).Closer?)
      && match found
         case Received(value) => answers(asked[|asked| - 1]) == Content(value)
         case Awaiting(peer) => peer == asked[|asked| - 1] && answers(peer) == Streams
         case _ => false
    }

    lemma EndsWith(answers: NodeId -> Answer, initial: seq<NodeId>, before: seq<NodeId>,
                   waiting: set<NodeId>, n: NodeId)
      requires Distinct(before) && n !in before && asked == before + [n]
      requires Sound(answers, initial, Members(contacted), Members(before), waiting + {n})
      ensures answers(n) == Streams ==> Ended(answers, initial, Awaiting(n))
      ensures answers(n).Content? ==> Ended(answers, initial, Received(answers(n).value))
    {
      assert n in waiting + {n};
      forall m | m in asked ensures Reachable(answers, initial, m) {
        assert m in Members(before) || m in waiting + {n};
      }
      forall m ensures m in contacted <==> m in before && answers(m).Closer? {
        assert m in Members(contacted) <==> m in contacted;
        assert m in Members(before) <==> m in before;
      }
    }

    /** One peer's answer, unless it ends the lookup, goes into the worklist. */
    method TakeAnswer(n: NodeId, distance: NodeId -> nat, answers: NodeId -> Answer,
                      ghost initial: seq<NodeId>, ghost universe: set<NodeId>, ghost before: seq<NodeId>)
      requires asked == before + [n] && n !in before && Distinct(before) && n in universe
      requires Sound(answers, initial, Members(contacted), Members(before), Ids(lookupPeers) + {n})
      requires Members(before) + Ids(lookupPeers) <= universe && Named(answers(n)) <= universe
      requires answers(n).NoAnswer? || answers(n).Closer?
      modifies this`lookupPeers, this`contacted, table`nodes
      ensures LoopInv(answers, initial, universe)
    {
      MembersAppend(before, n);
      if answers(n).Closer? {
        CloserSound(answers, initial, Members(contacted), Members(before), Ids(lookupPeers), n);
        MembersAppend(contacted, n);
        AddCloser(answers(n).enrs, distance);
        contacted := contacted + [n];
      } else {
        SilentSound(answers, initial, Members(contacted), Members(before), Ids(lookupPeers), n);
      }
    }

    /** One round of the loop on a non-empty worklist. */
    method Round(distance: NodeId -> nat, answers: NodeId -> Answer,
                 ghost initial: seq<NodeId>, ghost universe: set<NodeId>)
      returns (found: Option<Found>)
      requires LoopInv(answers, initial, universe) && lookupPeers != []
      requires forall n :: n in universe ==> Named(answers(n)) <= universe
      modifies this, table`nodes
      ensures found.None? ==> LoopInv(answers, initial, universe)
      ensures found.None? ==>
                Members(old(asked)) < Members(asked) || (asked == old(asked) && |lookupPeers| < |old(lookupPeers)|)
      ensures found.Some? ==> Ended(answers, initial, found.value)
    {
      found := None;
      ghost var before, waiting := asked, Ids(lookupPeers);
      var n, ask := Shift();
      assert waiting == Ids(lookupPeers) + {n};
      if !ask {
        SkipSound(answers, initial, Members(contacted), Members(asked), Ids(lookupPeers), n);
        return;
      }
      MembersAppend(before, n);
      assert n !in Members(before) && n in Members(asked);
      if answers(n) == Streams {
        EndsWith(answers, initial, before, Ids(lookupPeers), n);
        return Some(Awaiting(n));
      }
      if answers(n).Content? {
        EndsWith(answers, initial, before, Ids(lookupPeers), n);
        return Some(Received(answers(n).value));
      }
      TakeAnswer(n, distance, answers, initial, universe, before);
    }

    /** Peers are asked at most once, and only if reachable through returned ENRs from the initial
        ones; when the lookup fails, exactly the reachable peers have been asked, wherever new peers
        were put in the worklist. Content found is the last asked peer's, and is then offered once to
        every contacted peer. `universe` is any finite set of nodes that answers stay within. */
    method StartLookup(local: Option<bytes>, nearest: seq<NodeId>, distance: NodeId -> nat,
                       answers: NodeId -> Answer, ghost universe: set<NodeId>)
      returns (found: Found)
      requires table.Valid() && lookupPeers == [] && contacted == [] && asked == []
      requires Members(nearest) <= universe
      requires forall n :: n in universe ==> Named(answers(n)) <= universe
      modifies this, table`gossipMap, table`events, table`nodes
      ensures table.Valid() && old(table.events) <= table.events
      ensures Distinct(asked) && forall n :: n in asked ==> Reachable(answers, nearest, n)
      ensures local.Some? ==> found == Stored(local.value) && asked == []
      ensures local.None? ==> found.Failed? || Ended(answers, nearest, found)
      ensures found.Failed? ==> forall n :: n in asked <==> Reachable(answers, nearest, n)
      ensures !found.Received? ==> table.events == old(table.events)
      ensures found.Received? ==>
                forall n :: n in asked && answers(n).Closer? ==> contentKey in table.Known(n)
      ensures forall e :: e in table.events[|old(table.events)|..] ==>
                e.Offer? && e.peer in contacted && e.keys == [contentKey]
    {
      hide NoneRepeated, OfferedSince, Reachable, IsPath;
      if local.Some? {
        return Stored(local.value);
      }
      Fill(nearest, distance, answers);
      var ended := None;
      while ended.None? && |lookupPeers| > 0
        invariant table.Valid() && table.events == old(table.events)
        invariant ended.None? ==> LoopInv(answers, nearest, universe)
        invariant ended.Some? ==> Ended(answers, nearest, ended.value)
        decreases ended.None?, universe - Members(asked), |lookupPeers|
      {
        ghost var before := asked;
        ended := Round(distance, answers, nearest, universe);
        if ended.None? && asked != before {
          Shrinks(universe, Members(before), Members(asked));
        }
      }
      if ended.None? {
        AllAsked(answers, nearest, Members(contacted), Members(asked));
        return Failed;
      }
      found := ended.value;
      if found.Received? {
        Poke();
      }
    }
  }

  lemma Shrinks(universe: set<NodeId>, before: set<NodeId>, after: set<NodeId>)
    requires before < after <= universe
    ensures universe - after < universe - before
  {
    var n :| n in after && n !in before;
    assert n in universe - before && n !in universe - after;
  }

  lemma MembersAppend(nodes: seq<NodeId>, n: NodeId)
    ensures Members(nodes + [n]) == Members(nodes) + {n}
  {
  }

  /** At the head of the loop, with `waiting` in the worklist: what was asked came from the initial
      peers, and what an asked peer named has been asked or is waiting. */
  ghost predicate Sound(answers: NodeId -> Answer, initial: seq<NodeId>,
                        contacted: set<NodeId>, asked: set<NodeId>, waiting: set<NodeId>)
  {
    && (forall n :: n in asked || n in waiting ==> Reachable(answers, initial, n))
    && Members(initial) <= asked + waiting
    && (forall n :: n in asked ==> Named(answers(n)) <= asked + waiting)
    && (forall n :: n in asked ==> answers(n).NoAnswer? || answers(n).Closer?)
    && (forall n :: n in contacted <==> n in asked && answers(n).Closer?)
  }

  lemma SkipSound(answers: NodeId -> Answer, initial: seq<NodeId>, contacted: set<NodeId>,
                  asked: set<NodeId>, waiting: set<NodeId>, n: NodeId)
    requires Sound(answers, initial, contacted, asked, waiting + {n}) && n in asked
    ensures Sound(answers, initial, contacted, asked, waiting)
  {
    assert asked + (waiting + {n}) == asked + waiting;
  }

  lemma SilentSound(answers: NodeId -> Answer, initial: seq<NodeId>, contacted: set<NodeId>,
                    asked: set<NodeId>, waiting: set<NodeId>, n: NodeId)
    requires Sound(answers, initial, contacted, asked, waiting + {n})
    requires n !in asked && answers(n).NoAnswer?
    ensures Sound(answers, initial, contacted, asked + {n}, waiting)
  {
    assert asked + (waiting + {n}) == asked + {n} + waiting;
  }

  lemma CloserSound(answers: NodeId -> Answer, initial: seq<NodeId>, contacted: set<NodeId>,
                    asked: set<NodeId>, waiting: set<NodeId>, n: NodeId)
    requires Sound(answers, initial, contacted, asked, waiting + {n})
    requires n !in asked && answers(n).Closer?
    ensures Sound(answers, initial, contacted + {n}, asked + {n},
                  waiting + (Named(answers(n)) - (asked + {n})))
  {
    var after := waiting + (Named(answers(n)) - (asked + {n}));
    assert n in waiting + {n};
    forall m | m in asked + {n} || m in after ensures Reachable(answers, initial, m) {
      if m !in asked && m !in waiting + {n} {
        ReachableStep(answers, initial, n, m);
      }
    }
    assert asked + (waiting + {n}) <= asked + {n} + after;
    assert Named(answers(n)) <= asked + {n} + after;
  }

  lemma IdsAppend(peers: seq<LookupPeer>, p: LookupPeer)
    ensures Ids(peers + [p]) == Ids(peers) + {p.nodeId}
  {
    forall x | x in Ids(peers) + {p.nodeId} ensures x in Ids(peers + [p]) {
      if x == p.nodeId {
        assert p in peers + [p];
      } else {
        var q :| q in peers && q.nodeId == x;
        assert q in peers + [p];
      }
    }
  }

  lemma IdsSplit(peers: seq<LookupPeer>)
    requires peers != []
    ensures Ids(peers) == Ids(peers[1..]) + {peers[0].nodeId}
  {
    assert peers == [peers[0]] + peers[1..];
    forall x | x in Ids(peers) ensures x in Ids(peers[1..]) + {peers[0].nodeId} {
      var q :| q in peers && q.nodeId == x;
    }
  }

  lemma AllAsked(answers: NodeId -> Answer, initial: seq<NodeId>, contacted: set<NodeId>, asked: set<NodeId>)
    requires Sound(answers, initial, contacted, asked, {})
    ensures forall n :: n in asked <==> Reachable(answers, initial, n)
  {
    forall n | Reachable(answers, initial, n) ensures n in asked {
      var path :| IsPath(answers, initial, path) && path[|path| - 1] == n;
      ClosedContains(answers, initial, asked, path);
    }
  }
}
