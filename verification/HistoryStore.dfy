/** What the history store holds after any run of `addContentToHistory`, told from the outside: by the
    events it emitted, the calls it was given and the chain they make. */
module HistoryStore {
  import opened Bytes
  import opened HeaderAccumulators
  import opened History
  import opened HistoryRuns

  // ---------- Events and the store ----------

  /** The value of the last event about a piece of content. */
  function LastValue(events: seq<(Hash, ContentType, bytes)>, t: ContentType, h: Hash): Option<bytes> {
    if events == [] then None
    else
      var last := events[|events| - 1];
      if last.0 == h && last.1 == t then Some(last.2) else LastValue(events[..|events| - 1], t, h)
  }

  ghost predicate Holds(db: map<Key, bytes>, key: Key, v: Option<bytes>) {
    (key in db <==> v.Some?) && (key in db ==> db[key] == v.value)
  }

  function Had(db: map<Key, bytes>, key: Key): Option<bytes> {
    if key in db then Some(db[key]) else None
  }

  /** Under every content key is the value of the last event about it; without one, and under any other
      key but the accumulator's, is what the initial database had. */
  ghost predicate StoreTells(initial: map<Key, bytes>, s: Node) {
    && (forall t, h :: t != AccumulatorType ==>
          var v := LastValue(s.added, t, h);
          Holds(s.db, Key(t, h), if v.Some? then v else Had(initial, Key(t, h))))
    && (forall h: Hash :: h != [] ==> Holds(s.db, Key(AccumulatorType, h), Had(initial, Key(AccumulatorType, h))))
  }

  /** One put and its event. */
  lemma PutTells(initial: map<Key, bytes>, s: Node, t: Node, e: (Hash, ContentType, bytes))
    requires StoreTells(initial, s)
    requires e.1 != AccumulatorType && t.added == s.added + [e]
    requires t.db == s.db[Key(e.1, e.0) := e.2]
    ensures StoreTells(initial, t)
  {
    assert t.added[..|t.added| - 1] == s.added;
    forall ty, h | ty != AccumulatorType
      ensures var v := LastValue(t.added, ty, h);
              Holds(t.db, Key(ty, h), if v.Some? then v else Had(initial, Key(ty, h)))
    {
      var v := LastValue(s.added, ty, h);
      assert Holds(s.db, Key(ty, h), if v.Some? then v else Had(initial, Key(ty, h)));
    }
    forall h: Hash | h != []
      ensures Holds(t.db, Key(AccumulatorType, h), Had(initial, Key(AccumulatorType, h)))
    {
      assert Holds(s.db, Key(AccumulatorType, h), Had(initial, Key(AccumulatorType, h)));
    }
  }

  /** A change of the accumulator alone. */
  lemma AccumulatorTells(initial: map<Key, bytes>, s: Node, t: Node)
    requires StoreTells(initial, s) && t.added == s.added
    requires forall key :: key != Key(AccumulatorType, []) ==> Had(t.db, key) == Had(s.db, key)
    ensures StoreTells(initial, t)
  {
    forall ty, h | ty != AccumulatorType
      ensures var v := LastValue(t.added, ty, h);
              Holds(t.db, Key(ty, h), if v.Some? then v else Had(initial, Key(ty, h)))
    {
      var v := LastValue(s.added, ty, h);
      assert Had(t.db, Key(ty, h)) == Had(s.db, Key(ty, h));
      assert Holds(s.db, Key(ty, h), if v.Some? then v else Had(initial, Key(ty, h)));
    }
    forall h: Hash | h != []
      ensures Holds(t.db, Key(AccumulatorType, h), Had(initial, Key(AccumulatorType, h)))
    {
      assert Had(t.db, Key(AccumulatorType, h)) == Had(s.db, Key(AccumulatorType, h));
      assert Holds(s.db, Key(AccumulatorType, h), Had(initial, Key(AccumulatorType, h)));
    }
  }

  /** The event of a snapshot is about no content. */
  lemma SnapshotTells(initial: map<Key, bytes>, s: Node, t: Node, e: (Hash, ContentType, bytes))
    requires StoreTells(initial, s) && e.1 == AccumulatorType && t.added == s.added + [e] && t.db == s.db
    ensures StoreTells(initial, t)
  {
    assert t.added[..|t.added| - 1] == s.added;
    forall ty, h | ty != AccumulatorType
      ensures var v := LastValue(t.added, ty, h);
              Holds(t.db, Key(ty, h), if v.Some? then v else Had(initial, Key(ty, h)))
    {
      var v := LastValue(s.added, ty, h);
      assert Holds(s.db, Key(ty, h), if v.Some? then v else Had(initial, Key(ty, h)));
    }
  }

  lemma FinishTells(initial: map<Key, bytes>, s: Node, c: Call)
    requires StoreTells(initial, s)
    ensures var kept := if c.contentType == AccumulatorType then s
                        else s.(db := s.db[KeyFor(c.contentType, c.hashKey) := c.value]);
            StoreTells(initial, Finish(kept, c))
  {
    hide StoreTells;
    var kept := if c.contentType == AccumulatorType then s
                else s.(db := s.db[KeyFor(c.contentType, c.hashKey) := c.value]);
    if c.contentType == AccumulatorType {
      SnapshotTells(initial, s, Finish(kept, c), (c.hashKey, c.contentType, c.value));
    } else {
      PutTells(initial, s, Finish(kept, c), (c.hashKey, c.contentType, c.value));
    }
  }

  lemma HeaderTells(k: Codec, initial: map<Key, bytes>, s: Node, c: Call)
    requires StoreTells(initial, s) && c.contentType == BlockHeaderType && AddHeader(k, s, c) != s
    ensures StoreTells(initial, AddHeader(k, s, c))
  {
    hide StoreTells, Finish;
    var header := k.decodeHeader(c.value).value;
    var kept := s;
    if header.number == Height(s.accumulator) + 1 && IsNext(s.accumulator, header) {
      if |s.accumulator.currentEpoch| == EPOCH_SIZE {
        kept := StoreEpoch(k, s, c.hasPeers);
        var epoch := s.accumulator.currentEpoch;
        PutTells(initial, s, kept, (k.hashing.ofEpoch(epoch), EpochType, k.encodeEpoch(epoch)));
      }
      var before := kept;
      kept := Advance(k, kept, header);
      AccumulatorTells(initial, before, kept);
    }
    FinishTells(initial, kept, c);
  }

  lemma CallTells(k: Codec, initial: map<Key, bytes>, s: Node, c: Call)
    requires StoreTells(initial, s)
    ensures StoreTells(initial, AddContent(k, s, c))
  {
    hide StoreTells, Finish, AddHeader;
    if AddContent(k, s, c) == s {
    } else if c.contentType == BlockHeaderType {
      HeaderTells(k, initial, s, c);
    } else if c.contentType == AccumulatorType {
      AccumulatorTells(initial, s, Adopt(k, s, c.value));
      FinishTells(initial, Adopt(k, s, c.value), c);
    } else {
      FinishTells(initial, s, c);
    }
  }

  lemma NothingTold(initial: map<Key, bytes>, s: Node)
    requires s.db == initial && s.added == []
    ensures StoreTells(initial, s)
  {
  }

  /** In every run. */
  lemma {:induction false} StoreKept(k: Codec, db: map<Key, bytes>, calls: seq<Call>)
    requires InitFrom(k, db).Some?
    ensures StoreTells(db, RunAll(k, Booted(k, db), calls))
  {
    hide StoreTells;
    if calls == [] {
      NothingTold(db, Booted(k, db));
    } else {
      StoreKept(k, db, calls[..|calls| - 1]);
      CallTells(k, db, RunAll(k, Booted(k, db), calls[..|calls| - 1]), calls[|calls| - 1]);
    }
  }

  /** Which calls are accepted: headers with their own hash, valid bodies, and anything else. A header
      numbered as the next one when the current epoch is empty throws. */
  predicate Accepted(k: Codec, s: Node, c: Call) {
    match c.contentType
    case BlockHeaderType =>
      var header := k.decodeHeader(c.value);
      && header.Some? && k.hashing.ofHeader(header.value) == c.hashKey
      && !(s.accumulator.currentEpoch == [] && header.value.number == 8192 * |s.accumulator.historicalEpochs|)
    case BlockBodyType => c.bodyValid
    case _ => true
  }

  /** An accepted call emits the event of its content; before it, if its header is the next of the chain
      and the epoch is full, that of the epoch; and any other call changes nothing. */
  lemma EventsExactly(k: Codec, s: Node, c: Call)
    ensures var t := AddContent(k, s, c);
            var epoch := s.accumulator.currentEpoch;
            && (!Accepted(k, s, c) ==> t == s)
            && (Accepted(k, s, c) ==>
                  t.added == s.added
                    + (if Appended(k, s, c) != [] && |epoch| == 8192
                       then [(k.hashing.ofEpoch(epoch), EpochType, k.encodeEpoch(epoch))] else [])
                    + [(c.hashKey, c.contentType, c.value)])
  {
  }

  /** So accepted content is in the store, and stays until other content replaces it under its key. */
  lemma AcceptedIsStored(k: Codec, db: map<Key, bytes>, calls: seq<Call>, c: Call)
    requires InitFrom(k, db).Some? && c.contentType != AccumulatorType
    requires Accepted(k, RunAll(k, Booted(k, db), calls), c)
    ensures var s := RunAll(k, Booted(k, db), calls + [c]);
            Key(c.contentType, c.hashKey) in s.db && s.db[Key(c.contentType, c.hashKey)] == c.value
  {
    var s := RunAll(k, Booted(k, db), calls + [c]);
    assert (calls + [c])[..|calls|] == calls;
    StoreKept(k, db, calls + [c]);
    EventsExactly(k, RunAll(k, Booted(k, db), calls), c);
    assert s.added[|s.added| - 1] == (c.hashKey, c.contentType, c.value);
    assert LastValue(s.added, c.contentType, c.hashKey) == Some(c.value);
    assert Holds(s.db, Key(c.contentType, c.hashKey), Some(c.value));
  }

  /** What the 'Stream' handler passes on: epochs under the root of their content, anything else as it
      came; an epoch that cannot be read throws. */
  lemma StreamPassesOn(k: Codec, c: Call)
    ensures c.contentType != EpochType ==> Streamed(k, c) == Some(c)
    ensures c.contentType == EpochType ==>
              Streamed(k, c) ==
                match k.decodeEpoch(c.value)
                case None => None
                case Some(epoch) => Some(c.(hashKey := k.hashing.ofEpoch(epoch)))
  {
  }

  // ---------- Snapshots and the next header ----------

  /** A snapshot is adopted, all of it, exactly when it can be read and is higher. */
  lemma SnapshotAdopted(k: Codec, s: Node, c: Call)
    requires c.contentType == AccumulatorType
    ensures var received := k.decodeAccumulator(c.value);
            var t := AddContent(k, s, c);
            if received.Some? && Height(received.value) > Height(s.accumulator)
            then t.accumulator == received.value && Had(t.db, Key(AccumulatorType, [])) == Some(c.value)
            else t.accumulator == s.accumulator && t.db == s.db
  {
  }

  /** In every run the height is at least that of every snapshot that came. */
  lemma {:induction false} NoHigherSnapshot(k: Codec, db: map<Key, bytes>, calls: seq<Call>, i: nat)
    requires k.Lawful() && InitFrom(k, db).Some? && i < |calls|
    requires calls[i].contentType == AccumulatorType && k.decodeAccumulator(calls[i].value).Some?
    ensures Height(RunAll(k, Booted(k, db), calls).accumulator)
         >= Height(k.decodeAccumulator(calls[i].value).value)
  {
    var sofar := calls[..i + 1];
    assert sofar[..i] == calls[..i] && sofar[i] == calls[i];
    SnapshotAdopted(k, RunAll(k, Booted(k, db), calls[..i]), calls[i]);
    HeightNeverDecreases(k, db, calls, i + 1);
  }

  /** On a chain a header is appended exactly when it can be read, is given under its own hash, has the
      next number and names the hash of the last header. */
  lemma NextIsAppended(k: Codec, s: Node, headers: seq<BlockHeader>, c: Call)
    requires ChainInv(k, s, headers)
    ensures forall header ::
              Appended(k, s, c) == [header] <==>
                && c.contentType == BlockHeaderType && k.decodeHeader(c.value) == Some(header)
                && k.hashing.ofHeader(header) == c.hashKey
                && header.number == |headers|
                && header.parentHash == k.hashing.ofHeader(headers[|headers| - 1])
  {
    LastRecord(k, headers);
  }

  // ---------- The gossip queue ----------

  /** Up to 25 pushes nothing is handed over; with the 26th the queue is. */
  ghost predicate Waits(s: Node, pushes: nat) {
    pushes < 26 ==> s.handed == [] && |s.queue| == pushes
  }

  lemma FinishWaits(s: Node, c: Call, pushes: nat)
    requires Waits(s, pushes)
    ensures Waits(Finish(s, c), pushes + if c.hasPeers && c.contentType != AccumulatorType then 1 else 0)
  {
  }

  lemma StoreEpochWaits(k: Codec, s: Node, hasPeers: bool, pushes: nat)
    requires Waits(s, pushes)
    ensures Waits(StoreEpoch(k, s, hasPeers), pushes + if hasPeers then 1 else 0)
  {
  }

  lemma CallWaits(k: Codec, s: Node, c: Call, pushes: nat)
    requires Waits(s, pushes)
    ensures Waits(AddContent(k, s, c), pushes + |Pushed(k, s, c)|)
  {
    hide Finish, Waits, ItemsOf, StoreEpoch;
    EventsExactly(k, s, c);
    var t := AddContent(k, s, c);
    PushedCount(k, s, c);
    if Accepted(k, s, c) {
      var kept, sofar := s, pushes;
      if c.contentType == BlockHeaderType && Appended(k, s, c) != [] {
        if |s.accumulator.currentEpoch| == EPOCH_SIZE {
          StoreEpochWaits(k, s, c.hasPeers, pushes);
          kept, sofar := StoreEpoch(k, s, c.hasPeers), pushes + if c.hasPeers then 1 else 0;
        }
        AdvanceQuiet(k, kept, k.decodeHeader(c.value).value);
        var before := kept;
        kept := Advance(k, kept, k.decodeHeader(c.value).value);
        WaitsAlike(before, kept, sofar);
      }
      var before := kept;
      kept := if c.contentType == AccumulatorType then Adopt(k, s, c.value)
              else kept.(db := kept.db[KeyFor(c.contentType, c.hashKey) := c.value]);
      WaitsAlike(before, kept, sofar);
      assert t == Finish(kept, c);
      FinishWaits(kept, c, sofar);
    }
  }

  lemma WaitsAlike(s: Node, t: Node, pushes: nat)
    requires Waits(s, pushes) && t.queue == s.queue && t.handed == s.handed
    ensures Waits(t, pushes)
  {
  }

  lemma {:induction false} CountItems(events: seq<(Hash, ContentType, bytes)>)
    ensures |ItemsOf(events)| == |events|
  {
    if events != [] {
      CountItems(events[..|events| - 1]);
    }
  }

  lemma PushedCount(k: Codec, s: Node, c: Call)
    ensures |Pushed(k, s, c)| ==
              if c.hasPeers && c.contentType != AccumulatorType
              then |AddContent(k, s, c).added| - |s.added| else 0
  {
    hide AddContent, ItemsOf;
    EventsExactly(k, s, c);
    CountItems(AddContent(k, s, c).added[|s.added|..]);
  }

  /** In every run: gossip is called for nothing until 26 items have been pushed. */
  lemma {:induction false} GossipWaits(k: Codec, db: map<Key, bytes>, calls: seq<Call>)
    requires InitFrom(k, db).Some?
    ensures var s := RunAll(k, Booted(k, db), calls);
            |AllPushed(k, Booted(k, db), calls)| < 26 ==>
              s.handed == [] && |s.queue| == |AllPushed(k, Booted(k, db), calls)|
  {
    GossipCounted(k, db, calls);
  }

  lemma {:induction false} GossipCounted(k: Codec, db: map<Key, bytes>, calls: seq<Call>)
    requires InitFrom(k, db).Some?
    ensures Waits(RunAll(k, Booted(k, db), calls), |AllPushed(k, Booted(k, db), calls)|)
  {
    if calls != [] {
      var init := calls[..|calls| - 1];
      GossipCounted(k, db, init);
      CallWaits(k, RunAll(k, Booted(k, db), init), calls[|calls| - 1], |AllPushed(k, Booted(k, db), init)|);
    }
  }
}
