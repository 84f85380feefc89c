/** The header accumulator (subprotocols/history/headerAccumulator.ts): a chain's headers in epochs
    of 8192, completed epochs kept only as roots. */
module HeaderAccumulators {
  import opened Bytes

  const EPOCH_SIZE: nat := 8192

  type Hash = bytes

  /** The fields the accumulator looks at, and the rest of the header. */
  datatype BlockHeader = BlockHeader(number: nat, parentHash: Hash, difficulty: nat, rest: bytes)

  datatype HeaderRecord = HeaderRecord(blockHash: Hash, totalDifficulty: nat)

  /** Hashing is not part of this model: any functions will do. */
  datatype Hashing = Hashing(ofHeader: BlockHeader -> Hash, ofEpoch: seq<HeaderRecord> -> Hash)

  datatype Accumulator = Accumulator(historicalEpochs: seq<Hash>, currentEpoch: seq<HeaderRecord>)

  function Height(a: Accumulator): int {
    |a.historicalEpochs| * EPOCH_SIZE + |a.currentEpoch| - 1
  }

  function LastDifficulty(a: Accumulator): nat {
    if a.currentEpoch == [] then 0 else a.currentEpoch[|a.currentEpoch| - 1].totalDifficulty
  }

  /** An accumulator after one more header. */
  function Append(a: Accumulator, header: BlockHeader, h: Hashing): Accumulator {
    var record := HeaderRecord(h.ofHeader(header), LastDifficulty(a) + header.difficulty);
    if |a.currentEpoch| == EPOCH_SIZE
    then Accumulator(a.historicalEpochs + [h.ofEpoch(a.currentEpoch)], [record])
    else a.(currentEpoch := a.currentEpoch + [record])
  }

  class HeaderAccumulator {
    const hashing: Hashing
    var currentEpoch: seq<HeaderRecord>
    var historicalEpochs: seq<Hash>

    function View(): Accumulator
      reads this
    {
      Accumulator(historicalEpochs, currentEpoch)
    }

    constructor Stored(hashing: Hashing, stored: Accumulator)
      ensures this.hashing == hashing && View() == stored
    {
      this.hashing := hashing;
      currentEpoch, historicalEpochs := stored.currentEpoch, stored.historicalEpochs;
    }

    constructor FromGenesis(hashing: Hashing, genesis: BlockHeader)
      ensures this.hashing == hashing && View() == AccumulatorOf([genesis], hashing)
    {
      this.hashing := hashing;
      currentEpoch, historicalEpochs := [], [];
      new;
      var position := UpdateAccumulator(genesis);
      AppendRefines([], genesis, hashing);
    }

    /** Returns the header's position in its epoch. */
    method UpdateAccumulator(newHeader: BlockHeader) returns (position: nat)
      modifies this
      ensures View() == Append(old(View()), newHeader, hashing)
      ensures position == |currentEpoch| - 1
    {
      var lastTd := if |currentEpoch| == 0 then 0 else currentEpoch[|currentEpoch| - 1].totalDifficulty;
      if |currentEpoch| == EPOCH_SIZE {
        var currentEpochHash := hashing.ofEpoch(currentEpoch);
        historicalEpochs := historicalEpochs + [currentEpochHash];
        currentEpoch := [];
      }
      var headerRecord := HeaderRecord(hashing.ofHeader(newHeader), lastTd + newHeader.difficulty);
      currentEpoch := currentEpoch + [headerRecord];
      position := |currentEpoch| - 1;
    }

    function CurrentHeight(): (height: int)
      reads this
      ensures height == Height(View())
    {
      |historicalEpochs| * EPOCH_SIZE + |currentEpoch| - 1
    }

    /** However many epochs were closed, the height is the number of headers appended, less the
        genesis. */
    lemma HeightCountsHeaders(headers: seq<BlockHeader>)
      requires View() == Built(headers, hashing)
      ensures CurrentHeight() == |headers| - 1
    {
      BuiltShape(headers, hashing);
    }
  }

  // ---------- The plain list of headers ----------

  function TotalDifficulty(headers: seq<BlockHeader>): nat {
    if headers == [] then 0
    else TotalDifficulty(headers[..|headers| - 1]) + headers[|headers| - 1].difficulty
  }

  /** It is a sum: of one header its own, of two stretches both. */
  lemma {:induction false} DifficultySums(a: seq<BlockHeader>, b: seq<BlockHeader>)
    ensures TotalDifficulty(a + b) == TotalDifficulty(a) + TotalDifficulty(b)
    ensures |b| == 1 ==> TotalDifficulty(b) == b[0].difficulty
  {
    if b == [] {
      assert a + b == a;
    } else {
      DifficultySums(a, b[..|b| - 1]);
      assert (a + b)[..|a + b| - 1] == a + b[..|b| - 1];
    }
  }

  /** Record i: the hash of header i and the difficulty of the chain up to it. */
  function Records(headers: seq<BlockHeader>, h: Hashing): (r: seq<HeaderRecord>)
    ensures |r| == |headers|
  {
    if headers == [] then []
    else
      Records(headers[..|headers| - 1], h)
      + [HeaderRecord(h.ofHeader(headers[|headers| - 1]), TotalDifficulty(headers))]
  }

  lemma {:induction false} RecordAt(headers: seq<BlockHeader>, h: Hashing, i: nat)
    requires i < |headers|
    ensures Records(headers, h)[i] == HeaderRecord(h.ofHeader(headers[i]), TotalDifficulty(headers[..i + 1]))
  {
    var init := headers[..|headers| - 1];
    if i == |headers| - 1 {
      assert headers[..i + 1] == headers;
    } else {
      RecordAt(init, h, i);
      assert init[..i + 1] == headers[..i + 1];
    }
  }

  /** How many epochs are closed: the last one is closed only by the header after it. */
  function ClosedEpochs(count: nat): nat {
    if count == 0 then 0 else (count - 1) / EPOCH_SIZE
  }

  /** Records 8192 i to 8192 i + 8191. */
  function Epoch(headers: seq<BlockHeader>, h: Hashing, i: nat): seq<HeaderRecord>
    requires EPOCH_SIZE * (i + 1) <= |headers|
  {
    Records(headers, h)[EPOCH_SIZE * i..EPOCH_SIZE * (i + 1)]
  }

  /** Record j of epoch i is that of header 8192 i + j. */
  lemma EpochShape(headers: seq<BlockHeader>, h: Hashing, i: nat, j: nat)
    requires 8192 * (i + 1) <= |headers| && j < 8192
    ensures |Epoch(headers, h, i)| == 8192
    ensures Epoch(headers, h, i)[j] ==
              HeaderRecord(h.ofHeader(headers[8192 * i + j]), TotalDifficulty(headers[..8192 * i + j + 1]))
  {
    RecordAt(headers, h, 8192 * i + j);
  }

  /** The roots of the first `count` epochs. */
  function Roots(headers: seq<BlockHeader>, h: Hashing, count: nat): (r: seq<Hash>)
    requires EPOCH_SIZE * count <= |headers|
    ensures |r| == count
  {
    if count == 0 then []
    else Roots(headers, h, count - 1) + [h.ofEpoch(Epoch(headers, h, count - 1))]
  }

  /** The accumulator of a list of headers: a root for each closed epoch, the records after them. */
  function AccumulatorOf(headers: seq<BlockHeader>, h: Hashing): Accumulator {
    var closed := ClosedEpochs(|headers|);
    Accumulator(Roots(headers, h, closed), Records(headers, h)[EPOCH_SIZE * closed..])
  }

  lemma {:induction false} RootAt(headers: seq<BlockHeader>, h: Hashing, count: nat, i: nat)
    requires i < count && EPOCH_SIZE * count <= |headers|
    ensures Roots(headers, h, count)[i] == h.ofEpoch(Epoch(headers, h, i))
  {
    if i < count - 1 {
      RootAt(headers, h, count - 1, i);
    }
  }

  lemma RecordsGrow(headers: seq<BlockHeader>, header: BlockHeader, h: Hashing)
    ensures Records(headers + [header], h) == Records(headers, h) +
              [HeaderRecord(h.ofHeader(header), TotalDifficulty(headers) + header.difficulty)]
  {
    var longer := headers + [header];
    assert longer[..|longer| - 1] == headers;
  }

  lemma {:induction false} RootsKept(headers: seq<BlockHeader>, header: BlockHeader, h: Hashing, count: nat)
    requires EPOCH_SIZE * count <= |headers|
    ensures Roots(headers + [header], h, count) == Roots(headers, h, count)
  {
    if count > 0 {
      RootsKept(headers, header, h, count - 1);
      RecordsGrow(headers, header, h);
      assert Epoch(headers + [header], h, count - 1) == Epoch(headers, h, count - 1);
    }
  }

  /** The last total difficulty survives the closing of an epoch. */
  lemma LastIsTotal(headers: seq<BlockHeader>, h: Hashing)
    ensures LastDifficulty(AccumulatorOf(headers, h)) == TotalDifficulty(headers)
  {
    var n := |headers|;
    if n > 0 {
      var closed := ClosedEpochs(n);
      assert EPOCH_SIZE * closed < n;
      assert Records(headers, h)[n - 1].totalDifficulty == TotalDifficulty(headers);
    }
  }

  lemma AppendWithinEpoch(headers: seq<BlockHeader>, header: BlockHeader, h: Hashing)
    requires |AccumulatorOf(headers, h).currentEpoch| < EPOCH_SIZE
    ensures Append(AccumulatorOf(headers, h), header, h) == AccumulatorOf(headers + [header], h)
  {
    var closed := ClosedEpochs(|headers|);
    assert ClosedEpochs(|headers| + 1) == closed;
    LastIsTotal(headers, h);
    RecordsGrow(headers, header, h);
    RootsKept(headers, header, h, closed);
  }

  lemma AppendAfterEpoch(headers: seq<BlockHeader>, header: BlockHeader, h: Hashing)
    requires |AccumulatorOf(headers, h).currentEpoch| == EPOCH_SIZE
    ensures Append(AccumulatorOf(headers, h), header, h) == AccumulatorOf(headers + [header], h)
  {
    var n := |headers|;
    var closed := ClosedEpochs(n);
    assert n == EPOCH_SIZE * (closed + 1) && ClosedEpochs(n + 1) == closed + 1;
    LastIsTotal(headers, h);
    RecordsGrow(headers, header, h);
    RootsKept(headers, header, h, closed + 1);
    assert Epoch(headers, h, closed) == AccumulatorOf(headers, h).currentEpoch;
  }

  /** Appending to the accumulator is appending to the list, across every epoch boundary. */
  lemma AppendRefines(headers: seq<BlockHeader>, header: BlockHeader, h: Hashing)
    ensures Append(AccumulatorOf(headers, h), header, h) == AccumulatorOf(headers + [header], h)
  {
    if |AccumulatorOf(headers, h).currentEpoch| == EPOCH_SIZE {
      AppendAfterEpoch(headers, header, h);
    } else {
      AppendWithinEpoch(headers, header, h);
    }
  }

  /** The accumulator the constructor and `updateAccumulator` build from nothing. */
  function Built(headers: seq<BlockHeader>, h: Hashing): Accumulator {
    if headers == [] then Accumulator([], [])
    else Append(Built(headers[..|headers| - 1], h), headers[|headers| - 1], h)
  }

  /** Every accumulator so built is that of the plain list of its headers. */
  lemma {:induction false} BuiltRefinesList(headers: seq<BlockHeader>, h: Hashing)
    ensures Built(headers, h) == AccumulatorOf(headers, h)
  {
    if headers != [] {
      var init := headers[..|headers| - 1];
      BuiltRefinesList(init, h);
      AppendRefines(init, headers[|headers| - 1], h);
      assert init + [headers[|headers| - 1]] == headers;
    }
  }

  /** What that is: historical root i is the root of records 8192 i to 8192 i + 8191, the current
      epoch is the rest and never empty once there is a header, and every record's total difficulty
      is the sum from the first header on, across epoch boundaries. */
  lemma BuiltShape(headers: seq<BlockHeader>, h: Hashing)
    ensures var a := Built(headers, h);
            var closed := |a.historicalEpochs|;
            && Height(a) == |headers| - 1
            && (headers != [] ==> 1 <= |a.currentEpoch| <= 8192)
            && (forall i: nat :: i < closed ==>
                  && 8192 * (i + 1) <= |headers|
                  && a.historicalEpochs[i] == h.ofEpoch(Epoch(headers, h, i)))
            && (forall j: nat :: j < |a.currentEpoch| ==>
                  && 8192 * closed + j < |headers|
                  && a.currentEpoch[j] ==
                       HeaderRecord(h.ofHeader(headers[8192 * closed + j]),
                                    TotalDifficulty(headers[..8192 * closed + j + 1])))
  {
    BuiltRefinesList(headers, h);
    var closed := ClosedEpochs(|headers|);
    forall i: nat | i < closed
      ensures Roots(headers, h, closed)[i] == h.ofEpoch(Epoch(headers, h, i))
    {
      RootAt(headers, h, closed, i);
    }
    forall i: nat | i < |headers|
      ensures Records(headers, h)[i] ==
                HeaderRecord(h.ofHeader(headers[i]), TotalDifficulty(headers[..i + 1]))
    {
      RecordAt(headers, h, i);
    }
  }
}
