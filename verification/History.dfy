/** The history network's store, accumulator and gossip queue (subprotocols/history/history.ts). */
module History {
  import opened Bytes
  import opened HeaderAccumulators

  datatype ContentType = BlockHeaderType | BlockBodyType | ReceiptType | EpochType | AccumulatorType

  /** The database key: content type and hash. The header accumulator has no hash. */
  datatype Key = Key(contentType: ContentType, hash: Hash)

  function KeyFor(contentType: ContentType, hash: Hash): Key {
    if contentType == AccumulatorType then Key(contentType, []) else Key(contentType, hash)
  }

  const ACCUMULATOR_KEY := Key(AccumulatorType, [])

  /** RLP and SSZ are not part of this model. */
  datatype Codec = Codec(
    hashing: Hashing,
    genesis: BlockHeader,
    decodeHeader: bytes -> Option<BlockHeader>,
    encodeEpoch: seq<HeaderRecord> -> bytes,
    decodeEpoch: bytes -> Option<seq<HeaderRecord>>,
    encodeAccumulator: Accumulator -> bytes,
    decodeAccumulator: bytes -> Option<Accumulator>)
  {
    /** Serialised epochs and accumulators come back; no accumulator read has more than 8192 records
        in its current epoch. */
    ghost predicate Lawful() {
      && (forall e: seq<HeaderRecord> :: |e| <= EPOCH_SIZE ==> decodeEpoch(encodeEpoch(e)) == Some(e))
      && (forall a: Accumulator :: |a.currentEpoch| <= EPOCH_SIZE ==>
            decodeAccumulator(encodeAccumulator(a)) == Some(a))
      && (forall b: bytes :: decodeAccumulator(b).Some? ==>
            |decodeAccumulator(b).value.currentEpoch| <= EPOCH_SIZE)
    }

    /** Different epochs have different roots. */
    ghost predicate RootsDiffer() {
      forall d, e: seq<HeaderRecord> :: hashing.ofEpoch(d) == hashing.ofEpoch(e) ==> d == e
    }
  }

  type Item = (Hash, ContentType)

  const QUEUE_LIMIT := 26

  /** `handed` are the items passed to gossip so far, `added` the 'ContentAdded' events. */
  datatype Node = Node(
    accumulator: Accumulator,
    db: map<Key, bytes>,
    queue: seq<Item>,
    handed: seq<Item>,
    added: seq<(Hash, ContentType, bytes)>)

  /** One call of `addContentToHistory`. `bodyValid` tells whether a block can be assembled for a
      body, `hasPeers` whether the routing table is non-empty. */
  datatype Call = Call(
    contentType: ContentType,
    hashKey: Hash,
    value: bytes,
    bodyValid: bool,
    hasPeers: bool)

  /** The next header of the chain the accumulator holds. */
  predicate IsNext(a: Accumulator, header: BlockHeader)
    requires a.currentEpoch != []
  {
    && header.number == Height(a) + 1
    && header.parentHash == a.currentEpoch[|a.currentEpoch| - 1].blockHash
  }

  function Queued(s: Node, item: Item, hasPeers: bool): Node {
    if hasPeers then s.(queue := s.queue + [item]) else s
  }

  function HandOver(s: Node): Node {
    if |s.queue| >= QUEUE_LIMIT then s.(handed := s.handed + s.queue) else s
  }

  /** The end of every call: the event, then the queue. With 26 items or more the queue is handed to
      gossip and, once gossip returns, reset. */
  function Finish(s: Node, c: Call): Node {
    var t := s.(added := s.added + [(c.hashKey, c.contentType, c.value)]);
    if c.contentType == AccumulatorType || !c.hasPeers then t
    else
      var u := HandOver(Queued(t, (c.hashKey, c.contentType), true));
      if |u.queue| >= QUEUE_LIMIT then u.(queue := []) else u
  }

  /** What the unawaited inner call for a full epoch does before the outer call goes on: it stores the
      epoch and may hand the queue over, but its reset only comes later. */
  function StoreEpoch(k: Codec, s: Node, hasPeers: bool): Node {
    var epoch := s.accumulator.currentEpoch;
    var root, value := k.hashing.ofEpoch(epoch), k.encodeEpoch(epoch);
    var t := s.(db := s.db[KeyFor(EpochType, root) := value],
                added := s.added + [(root, EpochType, value)]);
    if hasPeers then HandOver(Queued(t, (root, EpochType), true)) else t
  }

  function Advance(k: Codec, s: Node, header: BlockHeader): Node {
    var next := Append(s.accumulator, header, k.hashing);
    s.(accumulator := next, db := s.db[ACCUMULATOR_KEY := k.encodeAccumulator(next)])
  }

  function AddHeader(k: Codec, s: Node, c: Call): Node {
    var header := k.decodeHeader(c.value);
    if header.None? || k.hashing.ofHeader(header.value) != c.hashKey then s
    else
      var a := s.accumulator;
      var numbered := header.value.number == Height(a) + 1;
      // Looking up the last record of an empty epoch throws.
      if numbered && a.currentEpoch == [] then s
      else
        var kept := if !numbered || !IsNext(a, header.value) then s
                    else Advance(k, if |a.currentEpoch| == EPOCH_SIZE then StoreEpoch(k, s, c.hasPeers) else s,
                                 header.value);
        Finish(kept.(db := kept.db[KeyFor(BlockHeaderType, c.hashKey) := c.value]), c)
  }

  /** A snapshot is adopted only if it is higher. */
  function Adopt(k: Codec, s: Node, value: bytes): Node {
    var received := k.decodeAccumulator(value);
    if received.Some? && Height(s.accumulator) < Height(received.value)
    then s.(accumulator := received.value, db := s.db[ACCUMULATOR_KEY := value])
    else s
  }

  function AddContent(k: Codec, s: Node, c: Call): Node {
    match c.contentType
    case BlockHeaderType => AddHeader(k, s, c)
    case BlockBodyType =>
      if c.bodyValid then Finish(s.(db := s.db[KeyFor(BlockBodyType, c.hashKey) := c.value]), c) else s
    case ReceiptType => Finish(s.(db := s.db[KeyFor(ReceiptType, c.hashKey) := c.value]), c)
    case EpochType => Finish(s.(db := s.db[KeyFor(EpochType, c.hashKey) := c.value]), c)
    case AccumulatorType => Finish(Adopt(k, s, c.value), c)
  }

  /** The accumulator `init` sets up from a database; none if the stored one cannot be read. */
  function InitFrom(k: Codec, db: map<Key, bytes>): Option<Accumulator> {
    if ACCUMULATOR_KEY in db then k.decodeAccumulator(db[ACCUMULATOR_KEY])
    else Some(AccumulatorOf([k.genesis], k.hashing))
  }

  function Streamed(k: Codec, c: Call): Option<Call> {
    if c.contentType != EpochType then Some(c)
    else
      var epoch := k.decodeEpoch(c.value);
      if epoch.None? then None else Some(c.(hashKey := k.hashing.ofEpoch(epoch.value)))
  }

  /** A content lookup for an epoch: the database first, then the network. */
  function Lookup(db: map<Key, bytes>, network: Hash -> Option<bytes>, root: Hash): Option<bytes> {
    if KeyFor(EpochType, root) in db then Some(db[KeyFor(EpochType, root)]) else network(root)
  }

  /** The block hash `getBlockByNumber` asks for. */
  function ResolvedHash(k: Codec, s: Node, n: nat, network: Hash -> Option<bytes>): Option<Hash> {
    var a := s.accumulator;
    if n > Height(a) then None
    else if n > EPOCH_SIZE * |a.historicalEpochs| then
      if n % EPOCH_SIZE < |a.currentEpoch| then Some(a.currentEpoch[n % EPOCH_SIZE].blockHash) else None
    else if n / EPOCH_SIZE >= |a.historicalEpochs| then None
    else
      var content := Lookup(s.db, network, a.historicalEpochs[n / EPOCH_SIZE]);
      if content.None? then None
      else
        var epoch := k.decodeEpoch(content.value);
        if epoch.None? || n % EPOCH_SIZE >= |epoch.value| then None
        else Some(epoch.value[n % EPOCH_SIZE].blockHash)
  }

  /** A block found through a historical epoch is returned only if it has the number asked for. */
  predicate Answered(s: Node, n: nat, asked: Option<Hash>, fetch: Hash -> Option<BlockHeader>) {
    && asked.Some? && fetch(asked.value).Some?
    && (n > EPOCH_SIZE * |s.accumulator.historicalEpochs| || fetch(asked.value).value.number == n)
  }

  class HistoryProtocol {
    const codec: Codec
    var accumulator: HeaderAccumulator
    var db: map<Key, bytes>
    var gossipQueue: seq<Item>
    var handed: seq<Item>
    var added: seq<(Hash, ContentType, bytes)>

    function View(): Node
      reads this, accumulator
    {
      Node(accumulator.View(), db, gossipQueue, handed, added)
    }

    ghost predicate Valid()
      reads this
    {
      accumulator.hashing == codec.hashing
    }

    /** The node after `init` with the given database, which must hold a readable accumulator or
        none. */
    constructor (codec: Codec, db: map<Key, bytes>)
      requires InitFrom(codec, db).Some?
      ensures Valid() && this.codec == codec && fresh(accumulator)
      ensures View() == Node(InitFrom(codec, db).value, db, [], [], [])
    {
      this.codec, this.db := codec, db;
      gossipQueue, handed, added := [], [], [];
      if ACCUMULATOR_KEY in db {
        accumulator := new HeaderAccumulator.Stored(codec.hashing, InitFrom(codec, db).value);
      } else {
        accumulator := new HeaderAccumulator.FromGenesis(codec.hashing, codec.genesis);
      }
    }

    method GossipHistoryNetworkContent(queue: seq<Item>)
      modifies this`handed
      ensures handed == old(handed) + queue
    {
      handed := handed + queue;
    }

    /** Event and queue, up to the await on gossip; `awaiting` if the reset is still to come. */
    method Announce(c: Call) returns (awaiting: bool)
      modifies this`added, this`gossipQueue, this`handed
      ensures var t := old(View()).(added := old(added) + [(c.hashKey, c.contentType, c.value)]);
              var quiet := c.contentType == AccumulatorType || !c.hasPeers;
              && View() == (if quiet then t else HandOver(Queued(t, (c.hashKey, c.contentType), true)))
              && (awaiting <==> !quiet && |gossipQueue| >= QUEUE_LIMIT)
    {
      awaiting := false;
      added := added + [(c.hashKey, c.contentType, c.value)];
      if c.contentType != AccumulatorType && c.hasPeers {
        gossipQueue := gossipQueue + [(c.hashKey, c.contentType)];
        if |gossipQueue| >= 26 {
          GossipHistoryNetworkContent(gossipQueue);
          awaiting := true;
        }
      }
    }

    method FinishCall(c: Call)
      modifies this`added, this`gossipQueue, this`handed
      ensures View() == Finish(old(View()), c)
    {
      var awaiting := Announce(c);
      if awaiting {
        gossipQueue := [];
      }
    }

    /** The header is the next one: close a full epoch first, then append and persist. */
    method AppendHeader(header: BlockHeader, hasPeers: bool) returns (awaiting: bool)
      requires Valid()
      modifies this, accumulator
      ensures Valid() && accumulator == old(accumulator)
      ensures var s := old(View());
              var full := |s.accumulator.currentEpoch| == EPOCH_SIZE;
              && View() == Advance(codec, if full then StoreEpoch(codec, s, hasPeers) else s, header)
              && (awaiting <==> full && hasPeers && |s.queue| + 1 >= QUEUE_LIMIT)
    {
      awaiting := false;
      if |accumulator.currentEpoch| == EPOCH_SIZE {
        var epoch := accumulator.currentEpoch;
        var value, root := codec.encodeEpoch(epoch), codec.hashing.ofEpoch(epoch);
        db := db[KeyFor(EpochType, root) := value];
        awaiting := Announce(Call(EpochType, root, value, false, hasPeers));
      }
      var position := accumulator.UpdateAccumulator(header);
      db := db[ACCUMULATOR_KEY := codec.encodeAccumulator(accumulator.View())];
    }

    method AddBlockHeader(c: Call)
      requires Valid() && c.contentType == BlockHeaderType
      modifies this, accumulator
      ensures Valid() && accumulator == old(accumulator)
      ensures View() == AddHeader(codec, old(View()), c)
    {
      var header := codec.decodeHeader(c.value);
      if header.None? || codec.hashing.ofHeader(header.value) != c.hashKey {
        return;
      }
      var awaiting := false;
      if header.value.number == accumulator.CurrentHeight() + 1 {
        if |accumulator.currentEpoch| == 0 {
          return;
        }
        if header.value.parentHash == accumulator.currentEpoch[|accumulator.currentEpoch| - 1].blockHash {
          awaiting := AppendHeader(header.value, c.hasPeers);
        }
      }
      db := db[KeyFor(BlockHeaderType, c.hashKey) := c.value];
      var alsoAwaiting := Announce(c);
      // The resets run when the awaited gossip calls return, the inner one first.
      if awaiting {
        gossipQueue := [];
      }
      if alsoAwaiting {
        gossipQueue := [];
      }
    }

    method ReceiveSnapshot(value: bytes)
      requires Valid()
      modifies this`accumulator, this`db
      ensures Valid() && (accumulator == old(accumulator) || fresh(accumulator))
      ensures View() == Adopt(codec, old(View()), value)
    {
      var received := codec.decodeAccumulator(value);
      if received.None? {
        return;
      }
      var newAccumulator := new HeaderAccumulator.Stored(codec.hashing, received.value);
      if accumulator.CurrentHeight() < newAccumulator.CurrentHeight() {
        accumulator := newAccumulator;
        db := db[ACCUMULATOR_KEY := value];
      }
    }

    method AddContentToHistory(c: Call)
      requires Valid()
      modifies this, accumulator
      ensures Valid() && (accumulator == old(accumulator) || fresh(accumulator))
      ensures View() == AddContent(codec, old(View()), c)
    {
      match c.contentType {
        case BlockHeaderType =>
          AddBlockHeader(c);
        case BlockBodyType =>
          if !c.bodyValid {
            return;
          }
          db := db[KeyFor(BlockBodyType, c.hashKey) := c.value];
          FinishCall(c);
        case ReceiptType =>
          db := db[KeyFor(ReceiptType, c.hashKey) := c.value];
          FinishCall(c);
        case EpochType =>
          db := db[KeyFor(EpochType, c.hashKey) := c.value];
          FinishCall(c);
        case AccumulatorType =>
          ReceiveSnapshot(c.value);
          FinishCall(c);
      }
    }

    /** The 'Stream' event: an epoch's hash is recomputed from its content; unreadable epochs throw. */
    method OnStream(c: Call)
      requires Valid()
      modifies this, accumulator
      ensures Valid() && (accumulator == old(accumulator) || fresh(accumulator))
      ensures View() == (if Streamed(codec, c).Some?
                         then AddContent(codec, old(View()), Streamed(codec, c).value) else old(View()))
    {
      var streamed := Streamed(codec, c);
      if streamed.Some? {
        AddContentToHistory(streamed.value);
      }
    }

    /** `network` is what a content lookup finds for an epoch that is not in the database, `fetch` what
        `getBlockByHash` returns (its header). Also tells which hash was asked for. */
    method GetBlockByNumber(blockNumber: nat, network: Hash -> Option<bytes>, fetch: Hash -> Option<BlockHeader>)
      returns (asked: Option<Hash>, block: Option<BlockHeader>)
      ensures asked == ResolvedHash(codec, View(), blockNumber, network)
      ensures block.Some? <==> Answered(View(), blockNumber, asked, fetch)
      ensures block.Some? ==> block == fetch(asked.value)
    {
      asked, block := None, None;
      if blockNumber > accumulator.CurrentHeight() {
        return;
      }
      var blockIndex := blockNumber % EPOCH_SIZE;
      if blockNumber > 8192 * |accumulator.historicalEpochs| {
        if blockIndex < |accumulator.currentEpoch| {
          asked := Some(accumulator.currentEpoch[blockIndex].blockHash);
          block := fetch(asked.value);
        }
        return;
      }
      var historicalEpochIndex := blockNumber / EPOCH_SIZE;
      if historicalEpochIndex >= |accumulator.historicalEpochs| {
        return;
      }
      var result := Lookup(db, network, accumulator.historicalEpochs[historicalEpochIndex]);
      if result.None? {
        return;
      }
      var epoch := codec.decodeEpoch(result.value);
      if epoch.None? || blockIndex >= |epoch.value| {
        return;
      }
      asked := Some(epoch.value[blockIndex].blockHash);
      var found := fetch(asked.value);
      if found.Some? && found.value.number == blockNumber {
        block := found;
      }
    }
  }
}
