/** The node lookup worklist (subprotocols/nodeLookup.ts). */
module NodeLookups {
  import opened RoutingTables

  const K := 16

  /** Strictly closer to the node sought than one of the initial peers: than the farthest of them. */
  ghost predicate Closer(distance: NodeId -> nat, initial: seq<NodeId>, p: NodeId) {
    exists q :: q in initial && distance(p) < distance(q)
  }

  ghost predicate NoFarther(distance: NodeId -> nat, initial: seq<NodeId>, p: NodeId) {
    exists q :: q in initial && distance(p) <= distance(q)
  }

  /** The peers of an answer by `n` that are taken in: closer than `n`, not asked yet, and before the
      one sought. */
  function Taken(enrs: seq<NodeId>, n: NodeId, asked: seq<NodeId>, sought: NodeId,
                 distance: NodeId -> nat): seq<NodeId>
  {
    if enrs == [] then []
    else
      var init, last := enrs[..|enrs| - 1], enrs[|enrs| - 1];
      var before := Taken(init, n, asked, sought, distance);
      if (sought in init && sought !in asked) || last in asked || last == sought || distance(last) >= distance(n)
      then before else before + [last]
  }

  /** Put in front one by one. */
  function Unshifted(peers: seq<NodeId>, queue: seq<NodeId>): seq<NodeId> {
    if peers == [] then queue
    else [peers[|peers| - 1]] + Unshifted(peers[..|peers| - 1], queue)
  }

  lemma TakeOneMore(enrs: seq<NodeId>, i: nat, n: NodeId, asked: seq<NodeId>, sought: NodeId, distance: NodeId -> nat)
    requires i < |enrs|
    ensures var before := Taken(enrs[..i], n, asked, sought, distance);
            Taken(enrs[..i + 1], n, asked, sought, distance) ==
              if (sought in enrs[..i] && sought !in asked) || enrs[i] in asked || enrs[i] == sought
                 || distance(enrs[i]) >= distance(n)
              then before else before + [enrs[i]]
  {
    assert enrs[..i + 1][..i] == enrs[..i];
  }

  /** Unless the answer names the node sought, all it names that is closer is taken in. */
  lemma {:induction false} TakenAll(enrs: seq<NodeId>, n: NodeId, asked: seq<NodeId>, sought: NodeId,
                                    distance: NodeId -> nat, p: NodeId)
    ensures p in Taken(enrs, n, asked, sought, distance) ==>
              p in enrs && p !in asked && p != sought && distance(p) < distance(n)
    ensures p in enrs && p !in asked && distance(p) < distance(n) && !(sought in enrs && sought !in asked) ==>
              p in Taken(enrs, n, asked, sought, distance)
  {
    if enrs != [] {
      var init, last := enrs[..|enrs| - 1], enrs[|enrs| - 1];
      TakenAll(init, n, asked, sought, distance, p);
      assert enrs == init + [last];
    }
  }

  lemma {:induction false} UnshiftedHolds(peers: seq<NodeId>, queue: seq<NodeId>, p: NodeId)
    ensures p in Unshifted(peers, queue) <==> p in peers || p in queue
    ensures |Unshifted(peers, queue)| == |peers| + |queue|
  {
    if peers != [] {
      var init, last := peers[..|peers| - 1], peers[|peers| - 1];
      UnshiftedHolds(init, queue, p);
      assert peers == init + [last];
    }
  }

  ghost predicate PeersKept(distance: NodeId -> nat, initial: seq<NodeId>, sought: NodeId,
                            asked: seq<NodeId>, queue: seq<NodeId>, known: seq<NodeId>)
  {
    && Distinct(asked)
    && (forall p :: p in queue ==> NoFarther(distance, initial, p))
    && (forall p :: p in known ==> Closer(distance, initial, p) && p != sought)
    && (forall p :: p in initial || p in known ==> p in asked || p in queue)
  }

  /** Whoever an asked peer named, closer than itself, has been asked or is queued; and had one named
      the node sought, the lookup would have ended, unless that node had been asked. */
  ghost predicate Followed(distance: NodeId -> nat, sought: NodeId, answers: NodeId -> seq<NodeId>,
                           asked: seq<NodeId>, queue: seq<NodeId>)
  {
    && (forall n, p :: n in asked && p in answers(n) && distance(p) < distance(n) ==> p in asked || p in queue)
    && (forall n :: n in asked && sought in answers(n) ==> sought in asked)
  }

  lemma AnswerKeeps(distance: NodeId -> nat, initial: seq<NodeId>, sought: NodeId, answers: NodeId -> seq<NodeId>,
                    n: NodeId, before: seq<NodeId>, queue: seq<NodeId>, known: seq<NodeId>)
    requires PeersKept(distance, initial, sought, before, [n] + queue, known) && n !in before
    requires Followed(distance, sought, answers, before, [n] + queue)
    ensures var asked := before + [n];
            var taken := Taken(answers(n), n, asked, sought, distance);
            && PeersKept(distance, initial, sought, asked, Unshifted(taken, queue), known + taken)
            && |Unshifted(taken, queue)| == |taken| + |queue|
            && (!(sought in answers(n) && sought !in asked) ==>
                  Followed(distance, sought, answers, asked, Unshifted(taken, queue)))
  {
    var asked := before + [n];
    var taken := Taken(answers(n), n, asked, sought, distance);
    UnshiftedHolds(taken, queue, n);
    forall p ensures p in Unshifted(taken, queue) <==> p in taken || p in queue {
      UnshiftedHolds(taken, queue, p);
    }
    forall p | p in taken ensures Closer(distance, initial, p) && p != sought {
      TakenAll(answers(n), n, asked, sought, distance, p);
      TakenAreCloser(distance, initial, n, p);
    }
    forall p | p in queue ensures NoFarther(distance, initial, p) {
      assert p in [n] + queue;
    }
    if !(sought in answers(n) && sought !in asked) {
      forall m, p | m in asked && p in answers(m) && distance(p) < distance(m)
        ensures p in asked || p in Unshifted(taken, queue)
      {
        if m == n {
          TakenAll(answers(n), n, asked, sought, distance, p);
        } else {
          assert p in before || p in [n] + queue;
        }
      }
    }
  }

  lemma InitialKept(distance: NodeId -> nat, initial: seq<NodeId>, sought: NodeId, answers: NodeId -> seq<NodeId>)
    ensures PeersKept(distance, initial, sought, [], initial, [])
    ensures Followed(distance, sought, answers, [], initial)
  {
    forall p | p in initial ensures NoFarther(distance, initial, p) {
      assert distance(p) <= distance(p);
    }
  }

  lemma AtTheEnd(distance: NodeId -> nat, initial: seq<NodeId>, sought: NodeId, answers: NodeId -> seq<NodeId>,
                 asked: seq<NodeId>, queue: seq<NodeId>, known: seq<NodeId>)
    requires PeersKept(distance, initial, sought, asked, queue, known)
    ensures Distinct(asked) && forall p :: p in known ==> Closer(distance, initial, p)
    ensures queue == [] ==> forall p :: p in initial || p in known ==> p in asked
    ensures queue == [] && Followed(distance, sought, answers, asked, queue) ==>
              && (forall n :: n in asked && sought in answers(n) ==> sought in asked)
              && (forall n, p :: n in asked && p in answers(n) && distance(p) < distance(n) ==> p in asked)
  {
  }

  lemma TakenAreCloser(distance: NodeId -> nat, initial: seq<NodeId>, n: NodeId, p: NodeId)
    requires NoFarther(distance, initial, n) && distance(p) < distance(n)
    ensures Closer(distance, initial, p) && NoFarther(distance, initial, p)
  {
    var q :| q in initial && distance(n) <= distance(q);
    assert distance(p) < distance(q);
  }

  /** The last one put there comes first, and what was queued stays behind, as it was. */
  lemma {:induction false} UnshiftedAt(peers: seq<NodeId>, queue: seq<NodeId>, i: nat)
    requires i < |peers| + |queue|
    ensures |Unshifted(peers, queue)| == |peers| + |queue|
    ensures Unshifted(peers, queue)[i] == if i < |peers| then peers[|peers| - 1 - i] else queue[i - |peers|]
  {
    if peers != [] && i > 0 {
      UnshiftedAt(peers[..|peers| - 1], queue, i - 1);
    } else if peers != [] {
      UnshiftedHolds(peers, queue, peers[0]);
    }
  }

  /** Each is taken in as often as it is named, and in the order in which they are. */
  lemma {:induction false} TakenAsNamed(enrs: seq<NodeId>, n: NodeId, asked: seq<NodeId>, sought: NodeId,
                                        distance: NodeId -> nat)
    requires sought in asked || sought !in enrs
    ensures Taken(enrs, n, asked, sought, distance) ==
            Kept(enrs, p => p !in asked && p != sought && distance(p) < distance(n))
  {
    if enrs != [] {
      var init, last := enrs[..|enrs| - 1], enrs[|enrs| - 1];
      assert enrs == init + [last];
      TakenAsNamed(init, n, asked, sought, distance);
    }
  }

  /** Nothing named after the node sought is taken in. */
  lemma {:induction false} TakenUntilSought(before: seq<NodeId>, after: seq<NodeId>, n: NodeId, asked: seq<NodeId>,
                                            sought: NodeId, distance: NodeId -> nat)
    requires sought !in asked
    ensures Taken(before + [sought] + after, n, asked, sought, distance) == Taken(before, n, asked, sought, distance)
  {
    var all := before + [sought] + after;
    if after == [] {
      assert all[..|all| - 1] == before;
    } else {
      var init := after[..|after| - 1];
      TakenUntilSought(before, init, n, asked, sought, distance);
      assert all[..|all| - 1] == before + [sought] + init;
      assert (before + [sought] + init)[|before|] == sought;
    }
  }

  /** Those of a list that a test lets through. */
  function Kept(peers: seq<NodeId>, test: NodeId -> bool): seq<NodeId> {
    if peers == [] then []
    else Kept(peers[..|peers| - 1], test) + if test(peers[|peers| - 1]) then [peers[|peers| - 1]] else []
  }

  class NodeLookup {
    const table: PortalNetworkRoutingTable
    const nodeSought: NodeId
    var closestPeers: seq<NodeId>
    var newPeers: seq<NodeId>
    var asked: seq<NodeId>
    var finished: bool
    var found: bool
    var shifts: nat
    var pinged: seq<NodeId>

    constructor (table: PortalNetworkRoutingTable, nodeSought: NodeId)
      ensures this.table == table && this.nodeSought == nodeSought
    {
      this.table, this.nodeSought := table, nodeSought;
      closestPeers, newPeers, asked, pinged := [], [], [], [];
      finished, found, shifts := false, false, 0;
    }

    /** What every round keeps. Each peer taken off the list was put there: initial or new. */
    ghost predicate Inv(distance: NodeId -> nat, initial: seq<NodeId>, answers: NodeId -> seq<NodeId>)
      reads this
    {
      && shifts + |closestPeers| == |initial| + |newPeers|
      && |asked| <= shifts <= |initial| + K
      && (found ==> finished && asked != [] && nodeSought in answers(asked[|asked| - 1]))
      && (finished && !found ==> closestPeers == [])
      && PeersKept(distance, initial, nodeSought, asked, closestPeers, newPeers)
      && (!found ==> Followed(distance, nodeSought, answers, asked, closestPeers))
    }

    /** The peers of one answer: those already asked are skipped, the node sought ends the lookup, and
        closer ones than the peer asked go to the front. */
    method TakeAnswer(n: NodeId, enrs: seq<NodeId>, distance: NodeId -> nat)
      requires !finished && !found
      modifies this`closestPeers, this`newPeers, this`finished, this`found, this`pinged, table`nodes
      ensures var taken := Taken(enrs, n, asked, nodeSought, distance);
              && newPeers == old(newPeers) + taken
              && closestPeers == Unshifted(taken, old(closestPeers))
      ensures finished == found
      ensures found <==> nodeSought in enrs && nodeSought !in asked
      ensures table.nodes == old(table.nodes) + if found then {nodeSought} else {}
      ensures pinged == old(pinged) + if found then [nodeSought] else []
    {
      for i := 0 to |enrs|
        invariant newPeers == old(newPeers) + Taken(enrs[..i], n, asked, nodeSought, distance)
        invariant closestPeers == Unshifted(Taken(enrs[..i], n, asked, nodeSought, distance), old(closestPeers))
        invariant finished == found
        invariant found <==> nodeSought in enrs[..i] && nodeSought !in asked
        invariant table.nodes == old(table.nodes) + if found then {nodeSought} else {}
        invariant pinged == old(pinged) + if found then [nodeSought] else []
      {
        assert enrs[..i + 1] == enrs[..i] + [enrs[i]];
        TakeOneMore(enrs, i, n, asked, nodeSought, distance);
        if !finished {
          var enr := enrs[i];
          if enr in asked {
            continue;
          }
          if enr == nodeSought {
            finished, found := true, true;
            table.InsertOrUpdate(enr);
            pinged := pinged + [enr];
          } else if distance(enr) < distance(n) {
            ghost var taken := Taken(enrs[..i], n, asked, nodeSought, distance);
            assert (taken + [enr])[..|taken|] == taken;
            closestPeers := [enr] + closestPeers;
            newPeers := newPeers + [enr];
          }
        }
      }
      assert enrs[..|enrs|] == enrs;
    }

    method Round(distance: NodeId -> nat, answers: NodeId -> seq<NodeId>, ghost initial: seq<NodeId>)
      requires Inv(distance, initial, answers) && !finished && |newPeers| <= K
      modifies this, table`nodes
      ensures Inv(distance, initial, answers)
      ensures finished || |newPeers| > |old(newPeers)| ||
              (|newPeers| == |old(newPeers)| && |closestPeers| < |old(closestPeers)|)
      ensures table.nodes == old(table.nodes) + if found then {nodeSought} else {}
      ensures pinged == old(pinged) + if found then [nodeSought] else []
    {
      if |closestPeers| == 0 {
        finished := true;
        return;
      }
      var nearestPeer := closestPeers[0];
      assert closestPeers == [nearestPeer] + closestPeers[1..];
      closestPeers := closestPeers[1..];
      shifts := shifts + 1;
      if nearestPeer in asked {
        return;
      }
      ghost var before, queue, known := asked, closestPeers, newPeers;
      asked := asked + [nearestPeer];
      TakeAnswer(nearestPeer, answers(nearestPeer), distance);
      AnswerKeeps(distance, initial, nodeSought, answers, nearestPeer, before, queue, known);
    }

    method Search(distance: NodeId -> nat, answers: NodeId -> seq<NodeId>, ghost initial: seq<NodeId>)
      requires Inv(distance, initial, answers) && !finished && !found && pinged == []
      modifies this, table`nodes
      ensures Inv(distance, initial, answers) && (finished || |newPeers| > K)
      ensures table.nodes == old(table.nodes) + if found then {nodeSought} else {}
      ensures pinged == if found then [nodeSought] else []
    {
      while !finished && |newPeers| <= K
        invariant Inv(distance, initial, answers)
        invariant pinged == if found then [nodeSought] else []
        invariant table.nodes == old(table.nodes) + if found then {nodeSought} else {}
        decreases !finished, if |newPeers| <= K then 1 + K - |newPeers| else 0, |closestPeers|
      {
        Round(distance, answers, initial);
      }
    }

    /** Starts from up to three peers and ends whatever peers answer; at most 19 FINDNODES go out, to
        different peers; every peer taken off the list was initial or new; every new peer is strictly closer than the farthest
        initial one; and unless the node was found or more than 16 new peers were, every initial and
        every new peer has been asked, and so has everyone an asked peer named that is closer than
        itself. */
    method StartLookup(nearest: seq<NodeId>, distance: NodeId -> nat, answers: NodeId -> seq<NodeId>,
                       pingAnswered: NodeId -> bool)
      requires |nearest| <= 3
      requires closestPeers == [] && newPeers == [] && asked == [] && pinged == []
      requires !finished && !found && shifts == 0
      modifies this, table`nodes
      ensures |asked| <= 19 && Distinct(asked)
      ensures shifts + |closestPeers| == |nearest| + |newPeers|
      ensures forall p :: p in newPeers ==> Closer(distance, nearest, p)
      ensures found ==> asked != [] && nodeSought in answers(asked[|asked| - 1])
      ensures !found && |newPeers| <= 16 ==>
                && (forall p :: p in nearest || p in newPeers ==> p in asked)
                && (forall n :: n in asked && nodeSought in answers(n) ==> nodeSought in asked)
                && (forall n, p :: n in asked && p in answers(n) && distance(p) < distance(n) ==> p in asked)
      ensures pinged == (if found then [nodeSought] else []) + newPeers
      ensures table.nodes == old(table.nodes) + (if found then {nodeSought} else {})
                             + (set p | p in newPeers && pingAnswered(p))
    {
      hide PeersKept, Followed, Closer, Distinct;
      closestPeers := nearest;
      InitialKept(distance, nearest, nodeSought, answers);
      Search(distance, answers, nearest);
      AtTheEnd(distance, nearest, nodeSought, answers, asked, closestPeers, newPeers);
      PingNew(pingAnswered);
    }

    method PingNew(pingAnswered: NodeId -> bool)
      modifies this`pinged, table`nodes
      ensures pinged == old(pinged) + newPeers
      ensures table.nodes == old(table.nodes) + (set p | p in newPeers && pingAnswered(p))
    {
      for i := 0 to |newPeers|
        invariant pinged == old(pinged) + newPeers[..i]
        invariant table.nodes == old(table.nodes) + (set p | p in newPeers[..i] && pingAnswered(p))
      {
        assert newPeers[..i + 1] == newPeers[..i] + [newPeers[i]];
        pinged := pinged + [newPeers[i]];
        if pingAnswered(newPeers[i]) {
          table.InsertOrUpdate(newPeers[i]);
        }
      }
      assert newPeers[..|newPeers|] == newPeers;
    }
  }
}
