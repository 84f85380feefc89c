/** What runs of `addContentToHistory` keep: the accumulator against the plain chain of headers, the
    store against the accumulator, and the gossip queue. */
module HistoryRuns {
  import opened Bytes
  import opened HeaderAccumulators
  import opened History

  /** The node after `init` on a database. */
  function Booted(k: Codec, db: map<Key, bytes>): Node
    requires InitFrom(k, db).Some?
  {
    Node(InitFrom(k, db).value, db, [], [], [])
  }

  function RunAll(k: Codec, s: Node, calls: seq<Call>): Node {
    if calls == [] then s
    else AddContent(k, RunAll(k, s, calls[..|calls| - 1]), calls[|calls| - 1])
  }

  // ---------- Restart ----------

  /** Nothing but the accumulator key and the accumulator itself matters to `init`. */
  ghost predicate RestartInv(k: Codec, s: Node) {
    InitFrom(k, s.db) == Some(s.accumulator) && |s.accumulator.currentEpoch| <= EPOCH_SIZE
  }

  lemma AdvanceRestarts(k: Codec, s: Node, header: BlockHeader)
    requires k.Lawful() && |s.accumulator.currentEpoch| <= EPOCH_SIZE
    ensures RestartInv(k, Advance(k, s, header))
    ensures Height(Advance(k, s, header).accumulator) == Height(s.accumulator) + 1
  {
    var next := Append(s.accumulator, header, k.hashing);
    assert k.decodeAccumulator(k.encodeAccumulator(next)) == Some(next);
  }

  /** Storing content under its own key and announcing it. */
  lemma StoredRestarts(k: Codec, s: Node, c: Call)
    requires RestartInv(k, s) && c.contentType != AccumulatorType
    ensures var t := Finish(s.(db := s.db[KeyFor(c.contentType, c.hashKey) := c.value]), c);
            RestartInv(k, t) && t.accumulator == s.accumulator
  {
  }

  lemma HeaderRestarts(k: Codec, s: Node, c: Call)
    requires k.Lawful() && RestartInv(k, s) && c.contentType == BlockHeaderType
    ensures RestartInv(k, AddHeader(k, s, c))
    ensures Height(s.accumulator) <= Height(AddHeader(k, s, c).accumulator)
  {
    if AddHeader(k, s, c) == s {
      return;
    }
    var header := k.decodeHeader(c.value).value;
    var kept := s;
    if header.number == Height(s.accumulator) + 1 && IsNext(s.accumulator, header) {
      var stored := if |s.accumulator.currentEpoch| == EPOCH_SIZE then StoreEpoch(k, s, c.hasPeers) else s;
      AdvanceRestarts(k, stored, header);
      kept := Advance(k, stored, header);
    }
    StoredRestarts(k, kept, c);
  }

  lemma FinishKeeps(s: Node, c: Call)
    ensures Finish(s, c).db == s.db && Finish(s, c).accumulator == s.accumulator
  {
  }

  lemma RestartStep(k: Codec, s: Node, c: Call)
    requires k.Lawful() && RestartInv(k, s)
    ensures RestartInv(k, AddContent(k, s, c))
    ensures Height(s.accumulator) <= Height(AddContent(k, s, c).accumulator)
  {
    match c.contentType
    case BlockHeaderType => HeaderRestarts(k, s, c);
    case AccumulatorType => FinishKeeps(Adopt(k, s, c.value), c);
    case _ => StoredRestarts(k, s, c);
  }

  lemma BootedRestarts(k: Codec, db: map<Key, bytes>)
    requires k.Lawful() && InitFrom(k, db).Some?
    ensures RestartInv(k, Booted(k, db))
  {
    if ACCUMULATOR_KEY !in db {
      BuiltShape([k.genesis], k.hashing);
      BuiltRefinesList([k.genesis], k.hashing);
    }
  }

  /** After any calls whatever (headers, snapshots, epochs under any hash, bodies, receipts) on any
      database `init` could start from, running `init` again on the store rebuilds exactly the
      accumulator in memory. */
  lemma {:induction false} RestartRebuilds(k: Codec, db: map<Key, bytes>, calls: seq<Call>)
    requires k.Lawful() && InitFrom(k, db).Some?
    ensures var s := RunAll(k, Booted(k, db), calls);
            InitFrom(k, s.db) == Some(s.accumulator) && RestartInv(k, s)
  {
    if calls == [] {
      BootedRestarts(k, db);
    } else {
      RestartRebuilds(k, db, calls[..|calls| - 1]);
      RestartStep(k, RunAll(k, Booted(k, db), calls[..|calls| - 1]), calls[|calls| - 1]);
    }
  }

  /** And the height never decreases along the way. */
  lemma {:induction false} HeightNeverDecreases(k: Codec, db: map<Key, bytes>, calls: seq<Call>, i: nat)
    requires k.Lawful() && InitFrom(k, db).Some? && i <= |calls|
    ensures Height(RunAll(k, Booted(k, db), calls[..i]).accumulator)
         <= Height(RunAll(k, Booted(k, db), calls).accumulator)
  {
    if i == |calls| {
      assert calls[..i] == calls;
    } else {
      var init := calls[..|calls| - 1];
      HeightNeverDecreases(k, db, init, i);
      assert init[..i] == calls[..i];
      RestartRebuilds(k, db, init);
      RestartStep(k, RunAll(k, Booted(k, db), init), calls[|calls| - 1]);
    }
  }

  // ---------- The chain ----------

  /** Numbered from the genesis block, each header naming the hash of the one before. */
  ghost predicate Linked(k: Codec, headers: seq<BlockHeader>) {
    && headers != [] && headers[0] == k.genesis
    && (forall i :: 0 <= i < |headers| ==> headers[i].number == i)
    && (forall i :: 0 <= i < |headers| - 1 ==> headers[i + 1].parentHash == k.hashing.ofHeader(headers[i]))
  }

  /** The full epoch behind every historical root can be read from the store. */
  ghost predicate EpochsStored(k: Codec, s: Node, headers: seq<BlockHeader>) {
    forall i: nat :: i < ClosedEpochs(|headers|) ==> EpochStored(k, s, Epoch(headers, k.hashing, i))
  }

  ghost predicate EpochStored(k: Codec, s: Node, e: seq<HeaderRecord>) {
    var key := KeyFor(EpochType, k.hashing.ofEpoch(e));
    key in s.db && k.decodeEpoch(s.db[key]) == Some(e)
  }

  ghost predicate ChainInv(k: Codec, s: Node, headers: seq<BlockHeader>) {
    && s.accumulator == AccumulatorOf(headers, k.hashing)
    && Linked(k, headers)
    && EpochsStored(k, s, headers)
  }

  /** No snapshots, and epochs from outside only under the root recomputed from their content. */
  ghost predicate Trusted(k: Codec, c: Call) {
    && c.contentType != AccumulatorType
    && (c.contentType == EpochType ==>
          k.decodeEpoch(c.value).Some? && c.hashKey == k.hashing.ofEpoch(k.decodeEpoch(c.value).value))
  }

  /** What arrives through the 'Stream' handler is trusted, snapshots apart. */
  lemma StreamIsTrusted(k: Codec, c: Call)
    requires Streamed(k, c).Some? && c.contentType != AccumulatorType
    ensures Trusted(k, Streamed(k, c).value)
  {
  }

  /** Storing anything trusted keeps every stored epoch readable: under the root of a closed epoch
      only that very epoch can be stored. */
  lemma EpochsSurvive(k: Codec, s: Node, t: Node, c: Call, headers: seq<BlockHeader>)
    requires k.RootsDiffer() && Trusted(k, c) && EpochsStored(k, s, headers)
    requires t.db == s.db[KeyFor(c.contentType, c.hashKey) := c.value]
    ensures EpochsStored(k, t, headers)
  {
    forall i: nat | i < ClosedEpochs(|headers|) ensures EpochStored(k, t, Epoch(headers, k.hashing, i)) {
      assert EpochStored(k, s, Epoch(headers, k.hashing, i));
    }
  }

  lemma LastRecord(k: Codec, headers: seq<BlockHeader>)
    requires headers != []
    ensures var a := AccumulatorOf(headers, k.hashing);
            && a.currentEpoch != [] && Height(a) == |headers| - 1
            && a.currentEpoch[|a.currentEpoch| - 1].blockHash == k.hashing.ofHeader(headers[|headers| - 1])
  {
    BuiltRefinesList(headers, k.hashing);
    BuiltShape(headers, k.hashing);
  }

  /** Closing an epoch: it is in the store before the accumulator lets go of its records. */
  lemma CloseEpoch(k: Codec, s: Node, headers: seq<BlockHeader>, hasPeers: bool)
    requires k.Lawful() && k.RootsDiffer() && ChainInv(k, s, headers)
    requires |s.accumulator.currentEpoch| == EPOCH_SIZE
    ensures var t := StoreEpoch(k, s, hasPeers);
            && ChainInv(k, t, headers)
            && EpochStored(k, t, s.accumulator.currentEpoch)
  {
    var t := StoreEpoch(k, s, hasPeers);
    var epoch := s.accumulator.currentEpoch;
    var c := Call(EpochType, k.hashing.ofEpoch(epoch), k.encodeEpoch(epoch), false, hasPeers);
    assert k.decodeEpoch(k.encodeEpoch(epoch)) == Some(epoch);
    EpochsSurvive(k, s, t, c, headers);
  }

  lemma EpochsGrow(k: Codec, s: Node, headers: seq<BlockHeader>, header: BlockHeader)
    requires EpochsStored(k, s, headers) && headers != []
    requires s.accumulator == AccumulatorOf(headers, k.hashing)
    requires |s.accumulator.currentEpoch| == EPOCH_SIZE ==> EpochStored(k, s, s.accumulator.currentEpoch)
    ensures EpochsStored(k, s, headers + [header])
  {
    hide EpochStored, Records;
    var longer := headers + [header];
    RecordsGrow(headers, header, k.hashing);
    forall i: nat | i < ClosedEpochs(|longer|) ensures EpochStored(k, s, Epoch(longer, k.hashing, i)) {
      assert Epoch(longer, k.hashing, i) == Epoch(headers, k.hashing, i);
      if i < ClosedEpochs(|headers|) {
        assert EpochStored(k, s, Epoch(headers, k.hashing, i));
      } else {
        assert Epoch(headers, k.hashing, i) == s.accumulator.currentEpoch;
      }
    }
  }

  lemma AdvanceStores(k: Codec, s: Node, headers: seq<BlockHeader>, header: BlockHeader)
    requires EpochsStored(k, s, headers)
    ensures EpochsStored(k, Advance(k, s, header), headers)
  {
    forall i: nat | i < ClosedEpochs(|headers|)
      ensures EpochStored(k, Advance(k, s, header), Epoch(headers, k.hashing, i))
    {
      assert EpochStored(k, s, Epoch(headers, k.hashing, i));
    }
  }

  lemma ChainGrows(k: Codec, s: Node, headers: seq<BlockHeader>, header: BlockHeader)
    requires ChainInv(k, s, headers) && IsNext(s.accumulator, header)
    requires |s.accumulator.currentEpoch| == EPOCH_SIZE ==> EpochStored(k, s, s.accumulator.currentEpoch)
    ensures ChainInv(k, Advance(k, s, header), headers + [header])
  {
    hide EpochsStored, EpochStored, AccumulatorOf, Append;
    LastRecord(k, headers);
    AppendRefines(headers, header, k.hashing);
    EpochsGrow(k, s, headers, header);
    AdvanceStores(k, s, headers + [header], header);
  }

  lemma StoredChain(k: Codec, s: Node, headers: seq<BlockHeader>, c: Call)
    requires k.RootsDiffer() && Trusted(k, c) && ChainInv(k, s, headers)
    ensures ChainInv(k, Finish(s.(db := s.db[KeyFor(c.contentType, c.hashKey) := c.value]), c), headers)
  {
    var stored := s.(db := s.db[KeyFor(c.contentType, c.hashKey) := c.value]);
    EpochsSurvive(k, s, stored, c, headers);
    FinishKeeps(stored, c);
    EpochsSurvive(k, s, Finish(stored, c), c, headers);
  }

  /** The header a call appends to the chain, if it is the next one. */
  function Appended(k: Codec, s: Node, c: Call): seq<BlockHeader> {
    var header := k.decodeHeader(c.value);
    if && c.contentType == BlockHeaderType && header.Some? && k.hashing.ofHeader(header.value) == c.hashKey
       && s.accumulator.currentEpoch != [] && IsNext(s.accumulator, header.value)
    then [header.value] else []
  }

  /** The headers a run has appended, from genesis on. */
  function Chain(k: Codec, db: map<Key, bytes>, calls: seq<Call>): seq<BlockHeader>
    requires InitFrom(k, db).Some?
  {
    if calls == [] then [k.genesis]
    else
      var init := calls[..|calls| - 1];
      Chain(k, db, init) + Appended(k, RunAll(k, Booted(k, db), init), calls[|calls| - 1])
  }

  lemma HeaderStep(k: Codec, s: Node, headers: seq<BlockHeader>, c: Call)
    requires k.Lawful() && k.RootsDiffer() && ChainInv(k, s, headers)
    requires c.contentType == BlockHeaderType && AddHeader(k, s, c) != s
    ensures ChainInv(k, AddHeader(k, s, c), headers + Appended(k, s, c))
  {
    hide ChainInv, Append;
    KeepsCurrent(k, s, headers);
    var header := k.decodeHeader(c.value).value;
    var kept := s;
    var after := headers;
    if header.number == Height(s.accumulator) + 1 && IsNext(s.accumulator, header) {
      if |s.accumulator.currentEpoch| == EPOCH_SIZE {
        CloseEpoch(k, s, headers, c.hasPeers);
        kept := StoreEpoch(k, s, c.hasPeers);
      }
      ChainGrows(k, kept, headers, header);
      kept := Advance(k, kept, header);
      after := headers + [header];
    }
    assert after == headers + Appended(k, s, c);
    StoredChain(k, kept, after, c);
  }

  lemma KeepsCurrent(k: Codec, s: Node, headers: seq<BlockHeader>)
    requires ChainInv(k, s, headers)
    ensures s.accumulator.currentEpoch != []
  {
    LastRecord(k, headers);
  }

  lemma ChainStep(k: Codec, s: Node, headers: seq<BlockHeader>, c: Call)
    requires k.Lawful() && k.RootsDiffer() && Trusted(k, c) && ChainInv(k, s, headers)
    ensures ChainInv(k, AddContent(k, s, c), headers + Appended(k, s, c))
  {
    hide ChainInv, Append;
    if AddContent(k, s, c) == s {
      AppendingIsAnnounced(k, s, c);
      assert headers + [] == headers;
    } else if c.contentType == BlockHeaderType {
      HeaderStep(k, s, headers, c);
    } else {
      assert headers + [] == headers;
      StoredChain(k, s, headers, c);
    }
  }

  lemma AppendingIsAnnounced(k: Codec, s: Node, c: Call)
    ensures Appended(k, s, c) != [] ==> |AddContent(k, s, c).added| > |s.added|
  {
  }

  /** From genesis without snapshots: in every run the accumulator is that of the headers appended so
      far, a hash-linked chain numbered from 0, and every historical root has its full epoch in the
      store. */
  lemma {:induction false} ChainKept(k: Codec, db: map<Key, bytes>, calls: seq<Call>)
    requires k.Lawful() && k.RootsDiffer() && k.genesis.number == 0 && ACCUMULATOR_KEY !in db
    requires forall i :: 0 <= i < |calls| ==> Trusted(k, calls[i])
    ensures ChainInv(k, RunAll(k, Booted(k, db), calls), Chain(k, db, calls))
  {
    if calls != [] {
      ChainKept(k, db, calls[..|calls| - 1]);
      ChainStep(k, RunAll(k, Booted(k, db), calls[..|calls| - 1]), Chain(k, db, calls[..|calls| - 1]),
                calls[|calls| - 1]);
    }
  }

  /** Every header after genesis came in one of the calls, under its own hash. */
  lemma {:induction false} ChainFromCalls(k: Codec, db: map<Key, bytes>, calls: seq<Call>, i: nat)
    requires InitFrom(k, db).Some? && 0 < i < |Chain(k, db, calls)|
    ensures exists c :: c in calls && c.contentType == BlockHeaderType &&
              k.decodeHeader(c.value) == Some(Chain(k, db, calls)[i]) &&
              c.hashKey == k.hashing.ofHeader(Chain(k, db, calls)[i])
  {
    var init := calls[..|calls| - 1];
    if i < |Chain(k, db, init)| {
      ChainFromCalls(k, db, init, i);
    } else {
      assert calls[|calls| - 1] in calls;
    }
  }

  // ---------- Blocks by number ----------

  lemma RecentResolves(k: Codec, s: Node, headers: seq<BlockHeader>, n: nat, network: Hash -> Option<bytes>)
    requires s.accumulator == AccumulatorOf(headers, k.hashing)
    requires EPOCH_SIZE * ClosedEpochs(|headers|) < n < |headers|
    ensures ResolvedHash(k, s, n, network) == Some(k.hashing.ofHeader(headers[n]))
  {
    var closed := ClosedEpochs(|headers|);
    RecordAt(headers, k.hashing, n);
    assert n - EPOCH_SIZE * closed < EPOCH_SIZE;
    assert n % EPOCH_SIZE == n - EPOCH_SIZE * closed;
    assert s.accumulator.currentEpoch[n % EPOCH_SIZE] == Records(headers, k.hashing)[n];
  }

  /** A content lookup finds the epoch behind every historical root: in the store or, if the store has
      nothing under it, on the network. */
  ghost predicate Retrievable(k: Codec, s: Node, headers: seq<BlockHeader>, network: Hash -> Option<bytes>) {
    forall i: nat :: i < ClosedEpochs(|headers|) ==>
      var e := Epoch(headers, k.hashing, i);
      var root := k.hashing.ofEpoch(e);
      || EpochStored(k, s, e)
      || (Key(EpochType, root) !in s.db && network(root).Some? && k.decodeEpoch(network(root).value) == Some(e))
  }

  lemma StoredIsRetrievable(k: Codec, s: Node, headers: seq<BlockHeader>, network: Hash -> Option<bytes>)
    requires EpochsStored(k, s, headers)
    ensures Retrievable(k, s, headers, network)
  {
    forall i: nat | i < ClosedEpochs(|headers|) ensures EpochStored(k, s, Epoch(headers, k.hashing, i)) {
    }
  }

  lemma OldResolves(k: Codec, s: Node, headers: seq<BlockHeader>, n: nat, network: Hash -> Option<bytes>)
    requires s.accumulator == AccumulatorOf(headers, k.hashing) && Retrievable(k, s, headers, network)
    requires n < EPOCH_SIZE * ClosedEpochs(|headers|)
    ensures ResolvedHash(k, s, n, network) == Some(k.hashing.ofHeader(headers[n]))
  {
    var i := n / EPOCH_SIZE;
    assert i < ClosedEpochs(|headers|) && n % EPOCH_SIZE == n - EPOCH_SIZE * i;
    RecordAt(headers, k.hashing, n);
    RootAt(headers, k.hashing, ClosedEpochs(|headers|), i);
    var epoch := Epoch(headers, k.hashing, i);
    assert Lookup(s.db, network, k.hashing.ofEpoch(epoch)).Some?
        && k.decodeEpoch(Lookup(s.db, network, k.hashing.ofEpoch(epoch)).value) == Some(epoch);
    assert epoch[n % EPOCH_SIZE] == Records(headers, k.hashing)[n];
  }

  /** With its epochs retrievable a number up to the height resolves to the hash of that very header;
      the first block of the current epoch alone resolves to nothing, because the comparison that picks
      the current epoch is strict. Above the height nothing is resolved. */
  lemma NumberResolves(k: Codec, s: Node, headers: seq<BlockHeader>, n: nat, network: Hash -> Option<bytes>)
    requires headers != [] && s.accumulator == AccumulatorOf(headers, k.hashing)
    requires Retrievable(k, s, headers, network)
    ensures n >= |headers| ==> ResolvedHash(k, s, n, network) == None
    ensures n < |headers| ==>
              ResolvedHash(k, s, n, network) ==
                if n == 8192 * |s.accumulator.historicalEpochs| then None
                else Some(k.hashing.ofHeader(headers[n]))
  {
    LastRecord(k, headers);
    var closed := ClosedEpochs(|headers|);
    if EPOCH_SIZE * closed < n < |headers| {
      RecentResolves(k, s, headers, n, network);
    } else if n < EPOCH_SIZE * closed {
      OldResolves(k, s, headers, n, network);
    }
  }

  /** A number in a closed epoch that neither the store nor the network has resolves to nothing. */
  lemma EpochMissing(k: Codec, s: Node, headers: seq<BlockHeader>, n: nat, network: Hash -> Option<bytes>)
    requires s.accumulator == AccumulatorOf(headers, k.hashing) && n < EPOCH_SIZE * ClosedEpochs(|headers|)
    requires var root := k.hashing.ofEpoch(Epoch(headers, k.hashing, n / EPOCH_SIZE));
             Key(EpochType, root) !in s.db && network(root) == None
    ensures ResolvedHash(k, s, n, network) == None
  {
    RootAt(headers, k.hashing, ClosedEpochs(|headers|), n / EPOCH_SIZE);
  }

  /** So an honest `getBlockByHash` can only ever lead to the block with the number asked for. */
  lemma NeverAnotherBlock(k: Codec, s: Node, headers: seq<BlockHeader>, n: nat,
                          network: Hash -> Option<bytes>, fetch: Hash -> Option<BlockHeader>)
    requires ChainInv(k, s, headers)
    requires forall x, y :: k.hashing.ofHeader(x) == k.hashing.ofHeader(y) ==> x == y
    requires forall hash :: fetch(hash).Some? ==> k.hashing.ofHeader(fetch(hash).value) == hash
    ensures var asked := ResolvedHash(k, s, n, network);
            && (asked.Some? && fetch(asked.value).Some? ==>
                  n < |headers| && fetch(asked.value).value == headers[n] && headers[n].number == n)
            && (Answered(s, n, asked, fetch) <==>
                  && n < |headers| && n != 8192 * |s.accumulator.historicalEpochs|
                  && fetch(k.hashing.ofHeader(headers[n])).Some?)
  {
    StoredIsRetrievable(k, s, headers, network);
    NumberResolves(k, s, headers, n, network);
  }

  // ---------- The gossip queue ----------

  function Clip<T>(n: nat, s: seq<T>): (m: nat)
    ensures m <= |s|
  {
    if n <= |s| then n else |s|
  }

  function ItemsOf(events: seq<(Hash, ContentType, bytes)>): multiset<Item> {
    if events == [] then multiset{}
    else
      var last := events[|events| - 1];
      ItemsOf(events[..|events| - 1]) + multiset{(last.0, last.1)}
  }

  /** The items a call pushes: those of its events, when there is anyone to gossip to. */
  function Pushed(k: Codec, s: Node, c: Call): multiset<Item> {
    var after := AddContent(k, s, c).added;
    if c.hasPeers && c.contentType != AccumulatorType then ItemsOf(after[Clip(|s.added|, after)..]) else multiset{}
  }

  /** Every push, counted as often as it was made, is queued or has been handed over, and nothing that
      was not pushed is. */
  ghost predicate Accounted(s: Node, pushed: multiset<Item>) {
    && pushed <= multiset(s.queue) + multiset(s.handed)
    && forall x :: x in s.queue || x in s.handed ==> x in pushed
  }

  function AllPushed(k: Codec, s: Node, calls: seq<Call>): multiset<Item> {
    if calls == [] then multiset{}
    else
      var init := calls[..|calls| - 1];
      AllPushed(k, s, init) + Pushed(k, RunAll(k, s, init), calls[|calls| - 1])
  }

  lemma OneMore(queue: seq<Item>, handed: seq<Item>, item: Item)
    ensures multiset(queue + [item]) == multiset(queue) + multiset{item}
    ensures multiset(handed + (queue + [item])) == multiset(handed) + multiset(queue) + multiset{item}
    ensures forall x :: x in queue + [item] <==> x in queue || x == item
  {
  }

  /** Handing over loses nothing, and a queue that was handed over may be reset. */
  lemma HandedOver(s: Node, item: Item, pushed: multiset<Item>)
    requires Accounted(s, pushed)
    ensures var t := HandOver(Queued(s, item, true));
            && Accounted(t, pushed + multiset{item})
            && (|t.queue| >= QUEUE_LIMIT ==> Accounted(t.(queue := []), pushed + multiset{item}))
  {
    OneMore(s.queue, s.handed, item);
  }

  lemma FinishAccounts(s: Node, c: Call, pushed: multiset<Item>)
    requires Accounted(s, pushed)
    requires |s.queue| < QUEUE_LIMIT || (c.hasPeers && c.contentType != AccumulatorType)
    ensures var t := Finish(s, c);
            && |t.queue| < QUEUE_LIMIT
            && t.added == s.added + [(c.hashKey, c.contentType, c.value)]
            && Accounted(t, if c.hasPeers && c.contentType != AccumulatorType
                            then pushed + multiset{(c.hashKey, c.contentType)} else pushed)
  {
    var t := s.(added := s.added + [(c.hashKey, c.contentType, c.value)]);
    assert Accounted(t, pushed);
    HandedOver(t, (c.hashKey, c.contentType), pushed);
  }

  lemma AccountedAlike(s: Node, t: Node, pushed: multiset<Item>)
    requires Accounted(s, pushed) && t.queue == s.queue && t.handed == s.handed
    ensures Accounted(t, pushed)
  {
  }

  lemma EpochAccounts(k: Codec, s: Node, hasPeers: bool, pushed: multiset<Item>)
    returns (item: (Hash, ContentType, bytes))
    requires Accounted(s, pushed)
    ensures var t := StoreEpoch(k, s, hasPeers);
            && t.added == s.added + [item]
            && Accounted(t, if hasPeers then pushed + ItemsOf([item]) else pushed)
            && (!hasPeers ==> t.queue == s.queue)
  {
    hide Accounted, ItemsOf;
    var epoch := s.accumulator.currentEpoch;
    var root, value := k.hashing.ofEpoch(epoch), k.encodeEpoch(epoch);
    item := (root, EpochType, value);
    ItemsSplit([], item);
    var t := s.(db := s.db[KeyFor(EpochType, root) := value], added := s.added + [item]);
    AccountedAlike(s, t, pushed);
    HandedOver(t, (root, EpochType), pushed);
  }

  lemma AdvanceQuiet(k: Codec, s: Node, header: BlockHeader)
    ensures var t := Advance(k, s, header);
            t.queue == s.queue && t.handed == s.handed && t.added == s.added
  {
  }

  /** The node a header leaves before it is announced, and the events so far. */
  lemma HeaderBefore(k: Codec, s: Node, c: Call, pushed: multiset<Item>)
    returns (kept: Node, events: seq<(Hash, ContentType, bytes)>)
    requires Accounted(s, pushed) && |s.queue| < QUEUE_LIMIT && c.contentType == BlockHeaderType
    requires AddHeader(k, s, c) != s
    ensures AddHeader(k, s, c) == Finish(kept, c) && kept.added == s.added + events
    ensures Accounted(kept, if c.hasPeers then pushed + ItemsOf(events) else pushed)
    ensures |kept.queue| < QUEUE_LIMIT || c.hasPeers
  {
    hide Accounted, ItemsOf, Finish, StoreEpoch, Advance;
    var header := k.decodeHeader(c.value).value;
    kept, events := s, [];
    NoItems();
    assert pushed + multiset{} == pushed;
    if header.number == Height(s.accumulator) + 1 && IsNext(s.accumulator, header) {
      if |s.accumulator.currentEpoch| == EPOCH_SIZE {
        var item := EpochAccounts(k, s, c.hasPeers, pushed);
        kept, events := StoreEpoch(k, s, c.hasPeers), [item];
      }
      var before := kept;
      kept := Advance(k, kept, header);
      AdvanceQuiet(k, before, header);
      AccountedAlike(before, kept, if c.hasPeers then pushed + ItemsOf(events) else pushed);
    }
    var last := kept;
    kept := kept.(db := kept.db[KeyFor(BlockHeaderType, c.hashKey) := c.value]);
    AccountedAlike(last, kept, if c.hasPeers then pushed + ItemsOf(events) else pushed);
  }

  lemma HeaderAccounts(k: Codec, s: Node, c: Call, pushed: multiset<Item>)
    requires Accounted(s, pushed) && |s.queue| < QUEUE_LIMIT && c.contentType == BlockHeaderType
    requires AddContent(k, s, c) != s
    ensures var t := AddContent(k, s, c);
            |t.queue| < QUEUE_LIMIT && Accounted(t, pushed + Pushed(k, s, c))
  {
    hide Accounted, ItemsOf, Finish, AddHeader;
    var kept, events := HeaderBefore(k, s, c, pushed);
    Announced(k, s, kept, events, c, pushed);
  }

  /** The end of a call, after `events` that have been accounted for. */
  lemma Announced(k: Codec, s: Node, kept: Node, events: seq<(Hash, ContentType, bytes)>, c: Call,
                  pushed: multiset<Item>)
    requires AddContent(k, s, c) == Finish(kept, c) && kept.added == s.added + events
    requires Accounted(kept, if c.hasPeers && c.contentType != AccumulatorType
                             then pushed + ItemsOf(events) else pushed)
    requires |kept.queue| < QUEUE_LIMIT || (c.hasPeers && c.contentType != AccumulatorType)
    ensures var t := AddContent(k, s, c);
            |t.queue| < QUEUE_LIMIT && Accounted(t, pushed + Pushed(k, s, c))
  {
    hide Accounted, ItemsOf, Finish, AddContent;
    var last := (c.hashKey, c.contentType, c.value);
    var pushes := c.hasPeers && c.contentType != AccumulatorType;
    FinishAccounts(kept, c, if pushes then pushed + ItemsOf(events) else pushed);
    var t := AddContent(k, s, c);
    assert t.added == s.added + (events + [last]);
    assert t.added[|s.added|..] == events + [last];
    ItemsSplit(events, last);
    if pushes {
      assert pushed + ItemsOf(events) + multiset{(last.0, last.1)} == pushed + ItemsOf(events + [last]);
    } else {
      assert pushed + multiset{} == pushed;
    }
  }

  lemma NoItems()
    ensures ItemsOf([]) == multiset{}
  {
  }

  lemma ItemsSplit(events: seq<(Hash, ContentType, bytes)>, last: (Hash, ContentType, bytes))
    ensures ItemsOf(events + [last]) == ItemsOf(events) + multiset{(last.0, last.1)}
    ensures ItemsOf([last]) == multiset{(last.0, last.1)}
  {
    assert (events + [last])[..|events|] == events;
    assert ItemsOf([]) == multiset{};
  }

  lemma QueueStep(k: Codec, s: Node, c: Call, pushed: multiset<Item>)
    requires Accounted(s, pushed) && |s.queue| < QUEUE_LIMIT
    ensures var t := AddContent(k, s, c);
            |t.queue| < QUEUE_LIMIT && Accounted(t, pushed + Pushed(k, s, c))
  {
    hide Accounted, ItemsOf, Finish, AddHeader;
    NoItems();
    assert pushed + multiset{} == pushed;
    if AddContent(k, s, c) == s {
      assert s.added[|s.added|..] == [];
      assert Pushed(k, s, c) == multiset{};
    } else if c.contentType == BlockHeaderType {
      HeaderAccounts(k, s, c, pushed);
    } else {
      var kept := if c.contentType == AccumulatorType then Adopt(k, s, c.value)
                  else s.(db := s.db[KeyFor(c.contentType, c.hashKey) := c.value]);
      AccountedAlike(s, kept, pushed);
      assert kept.added == s.added + [];
      Announced(k, s, kept, [], c, pushed);
    }
  }

  /** In every run, every push ever made (repeated pushes of one item counted) is still queued or has
      been handed to gossip, nothing else ever is, and fewer than 26 items are queued after each call. */
  lemma {:induction false} QueueKept(k: Codec, db: map<Key, bytes>, calls: seq<Call>)
    requires InitFrom(k, db).Some?
    ensures var s := RunAll(k, Booted(k, db), calls);
            |s.queue| < QUEUE_LIMIT && Accounted(s, AllPushed(k, Booted(k, db), calls))
  {
    if calls != [] {
      var init := calls[..|calls| - 1];
      QueueKept(k, db, init);
      QueueStep(k, RunAll(k, Booted(k, db), init), calls[|calls| - 1], AllPushed(k, Booted(k, db), init));
    }
  }
}
