/** Who has been offered what (client/routingTable.ts), and gossip
    (`gossipHistoryNetworkContent` in subprotocols/history/history.ts). */
module RoutingTables {

  type NodeId = string
  type ContentKey = string

  /** OFFERs sent and peers evicted, in order. */
  datatype Event = Offer(peer: NodeId, keys: seq<ContentKey>) | Evicted(peer: NodeId)

  /** The keys offered to a peer since it was last evicted. */
  function OfferedSince(events: seq<Event>, p: NodeId): set<ContentKey> {
    if events == [] then {}
    else
      var last, before := events[|events| - 1], OfferedSince(events[..|events| - 1], p);
      match last
      case Offer(q, keys) => if q == p then before + (set k | k in keys) else before
      case Evicted(q) => if q == p then {} else before
  }

  ghost predicate Distinct(keys: seq<ContentKey>) {
    forall i, j :: 0 <= i < j < |keys| ==> keys[i] != keys[j]
  }

  /** No OFFER in the log repeats a key, or offers one its peer was offered since its last eviction. */
  ghost predicate NoneRepeated(events: seq<Event>) {
    events == [] ||
    (NoneRepeated(events[..|events| - 1]) &&
     match events[|events| - 1]
     case Offer(p, keys) =>
       Distinct(keys) && forall k :: k in keys ==> k !in OfferedSince(events[..|events| - 1], p)
     case Evicted(_) => true)
  }

  ghost predicate OffersAt(events: seq<Event>, i: nat, p: NodeId, k: ContentKey) {
    i < |events| && events[i].Offer? && events[i].peer == p && k in events[i].keys
  }

  lemma {:induction false} StillOffered(events: seq<Event>, i: nat, p: NodeId, k: ContentKey)
    requires OffersAt(events, i, p, k)
    requires forall m :: i < m < |events| ==> events[m] != Evicted(p)
    ensures k in OfferedSince(events, p)
  {
    if i < |events| - 1 {
      StillOffered(events[..|events| - 1], i, p, k);
    }
  }

  /** What that means for the whole log: two OFFERs of one key to one peer have an eviction of that
      peer between them. */
  lemma {:induction false} OfferedAtMostOnce(events: seq<Event>, i: nat, j: nat, p: NodeId, k: ContentKey)
    requires NoneRepeated(events)
    requires i < j && OffersAt(events, i, p, k) && OffersAt(events, j, p, k)
    ensures exists m :: i < m < j && events[m] == Evicted(p)
  {
    var init := events[..|events| - 1];
    if j < |events| - 1 {
      OfferedAtMostOnce(init, i, j, p, k);
      var m :| i < m < j && init[m] == Evicted(p);
      assert events[m] == Evicted(p);
    } else if forall m :: i < m < j ==> events[m] != Evicted(p) {
      StillOffered(init, i, p, k);
      assert false;
    }
  }

  class PortalNetworkRoutingTable {
    var radiusMap: map<NodeId, nat>
    var gossipMap: map<NodeId, set<ContentKey>>
    var nodes: set<NodeId>
    var events: seq<Event>

    function Known(p: NodeId): set<ContentKey>
      reads this
    {
      if p in gossipMap then gossipMap[p] else {}
    }

    /** The gossip lists say exactly what was offered, and nothing was offered twice. */
    ghost predicate Valid()
      reads this
    {
      && (forall p :: Known(p) == OfferedSince(events, p))
      && NoneRepeated(events)
    }

    constructor ()
      ensures Valid() && events == [] && nodes == {}
    {
      radiusMap, gossipMap, nodes, events := map[], map[], {}, [];
    }

    method InsertOrUpdate(nodeId: NodeId)
      modifies this`nodes
      ensures nodes == old(nodes) + {nodeId}
    {
      nodes := nodes + {nodeId};
    }

    /** Tests whether the peer was offered the key, and from then on counts it as offered. */
    method ContentKeyKnownToPeer(nodeId: NodeId, contentKey: ContentKey) returns (known: bool)
      modifies this`gossipMap
      ensures known <==> contentKey in old(Known(nodeId))
      ensures forall p :: Known(p) == old(Known(p)) + if p == nodeId then {contentKey} else {}
    {
      if nodeId !in gossipMap {
        gossipMap := gossipMap[nodeId := {contentKey}];
        return false;
      }
      var gossipList := gossipMap[nodeId];
      known := contentKey in gossipList;
      if !known {
        gossipMap := gossipMap[nodeId := gossipList + {contentKey}];
      }
    }

    method EvictNode(nodeId: NodeId)
      requires Valid()
      modifies this
      ensures Valid()
      ensures events == old(events) + [Evicted(nodeId)]
      ensures nodes == old(nodes) - {nodeId}
      ensures radiusMap == old(radiusMap) - {nodeId}
    {
      radiusMap := radiusMap - {nodeId};
      gossipMap := gossipMap - {nodeId};
      nodes := nodes - {nodeId};
      events := events + [Evicted(nodeId)];
      assert events[..|events| - 1] == old(events);
    }

    /** Offers keys that have just been found unknown, so that the lists already contain them. */
    method SendOffer(nodeId: NodeId, contentKeys: seq<ContentKey>)
      requires NoneRepeated(events) && Distinct(contentKeys)
      requires forall p :: Known(p) == OfferedSince(events, p) +
                 if p == nodeId then (set k | k in contentKeys) else {}
      requires forall k :: k in contentKeys ==> k !in OfferedSince(events, nodeId)
      modifies this`events
      ensures Valid()
      ensures events == old(events) + [Offer(nodeId, contentKeys)]
    {
      events := events + [Offer(nodeId, contentKeys)];
      assert events[..|events| - 1] == old(events);
    }

    /** Offers a peer those of the keys it does not know yet. A key may be listed more than once. */
    method OfferUnknown(peer: NodeId, encodedKeys: seq<ContentKey>)
      requires Valid()
      modifies this`gossipMap, this`events
      ensures Valid()
      ensures forall k :: k in encodedKeys ==> k in Known(peer)
      ensures forall p :: p != peer ==> Known(p) == old(Known(p))
      ensures Known(peer) == old(Known(peer)) + (set k | k in encodedKeys)
      ensures events == old(events) ||
              exists keys :: keys != [] && events == old(events) + [Offer(peer, keys)]
    {
      hide NoneRepeated, OfferedSince;
      var unknown: seq<ContentKey> := [];
      for i := 0 to |encodedKeys|
        invariant Distinct(unknown)
        invariant forall k :: k in unknown <==> k in encodedKeys[..i] && k !in old(Known(peer))
        invariant forall p :: Known(p) == old(Known(p)) + if p == peer then (set k | k in encodedKeys[..i]) else {}
        invariant events == old(events)
      {
        var known := ContentKeyKnownToPeer(peer, encodedKeys[i]);
        assert encodedKeys[..i + 1] == encodedKeys[..i] + [encodedKeys[i]];
        if !known {
          unknown := unknown + [encodedKeys[i]];
        }
      }
      assert encodedKeys[..|encodedKeys|] == encodedKeys;
      if |unknown| > 0 {
        SendOffer(peer, unknown);
      }
    }

    /** Gossips a batch: each of the peers nearest to each item is offered every key it does not know.
        Peers and keys may repeat. */
    method Gossip(encodedKeys: seq<ContentKey>, nearest: ContentKey -> seq<NodeId>)
      requires Valid()
      modifies this`gossipMap, this`events
      ensures Valid()
      ensures old(events) <= events
      ensures forall e :: e in events[|old(events)|..] ==>
                e.Offer? && exists k :: k in encodedKeys && e.peer in nearest(k)
      ensures forall k, l, p :: k in encodedKeys && l in encodedKeys && p in nearest(k) ==> l in Known(p)
    {
      hide NoneRepeated, OfferedSince, Distinct;
      var nearestPeers := [];
      for i := 0 to |encodedKeys|
        invariant forall p :: p in nearestPeers ==> exists k :: k in encodedKeys && p in nearest(k)
        invariant forall k, p :: k in encodedKeys[..i] && p in nearest(k) ==> p in nearestPeers
      {
        assert encodedKeys[..i + 1] == encodedKeys[..i] + [encodedKeys[i]];
        nearestPeers := nearestPeers + nearest(encodedKeys[i]);
      }
      assert encodedKeys[..|encodedKeys|] == encodedKeys;
      for i := 0 to |nearestPeers|
        invariant Valid()
        invariant old(events) <= events
        invariant forall e :: e in events[|old(events)|..] ==> e.Offer? && e.peer in nearestPeers
        invariant forall l, p :: l in encodedKeys && p in nearestPeers[..i] ==> l in Known(p)
      {
        ghost var before := events;
        OfferUnknown(nearestPeers[i], encodedKeys);
        assert nearestPeers[..i + 1] == nearestPeers[..i] + [nearestPeers[i]];
        if events != before {
          assert events[|old(events)|..] == before[|old(events)|..] + [events[|before|]];
        }
      }
      assert nearestPeers[..|nearestPeers|] == nearestPeers;
    }
  }
}
