/** The 2048-bit Bloom filter (subprotocols/types.ts) and the bloom of a receipt's logs
    (subprotocols/history/receiptManager.ts). */
module Blooms {
  import opened Bytes
  import Packets

  const BYTE_SIZE := 256

  /** Any hash of at least six bytes will do. */
  ghost predicate IsHash(keccak256: bytes -> bytes) {
    forall e: bytes :: |keccak256(e)| >= 6
  }

  /** The position taken from bytes 2i and 2i + 1: their low eleven bits. */
  function Location(hash: bytes, i: nat): nat
    requires 2 * i + 1 < |hash|
  {
    (256 * (hash[2 * i] as int) + hash[2 * i + 1] as int) % 2048
  }

  /** The low eleven bits: three of the first byte, all of the second. The rest of the big-endian number
      is a multiple of 2048. */
  lemma LocationIs(hash: bytes, i: nat)
    requires 2 * i + 1 < |hash|
    ensures Location(hash, i) < 2048
    ensures Packets.FromBigEndian(hash[2 * i..2 * i + 2]) == 2048 * (hash[2 * i] / 8) + Location(hash, i)
    ensures Location(hash, i) == 256 * (hash[2 * i] as int % 8) + hash[2 * i + 1]
  {
    var two := hash[2 * i..2 * i + 2];
    assert two[..1] == [hash[2 * i]];
    assert Packets.FromBigEndian(two[..1]) == 256 * Packets.FromBigEndian([]) + hash[2 * i];
  }

  /** The first n positions of a hash. */
  function FirstLocations(hash: bytes, n: nat): set<nat>
    requires |hash| >= 6 && n <= 3
  {
    if n == 0 then {} else FirstLocations(hash, n - 1) + {Location(hash, n - 1)}
  }

  /** The three positions of a hash. */
  function Locations(hash: bytes): (r: set<nat>)
    requires |hash| >= 6
    ensures r == {Location(hash, 0), Location(hash, 1), Location(hash, 2)}
  {
    assert FirstLocations(hash, 0) == {};
    assert FirstLocations(hash, 1) == {Location(hash, 0)};
    assert FirstLocations(hash, 2) == {Location(hash, 0), Location(hash, 1)};
    FirstLocations(hash, 3)
  }

  lemma LocationsAre(h: bytes)
    requires |h| >= 6
    ensures Locations(h) ==
              {256 * (h[0] as int % 8) + h[1], 256 * (h[2] as int % 8) + h[3], 256 * (h[4] as int % 8) + h[5]}
  {
    hide Location;
    LocationIs(h, 0);
    LocationIs(h, 1);
    LocationIs(h, 2);
  }

  /** 1 << i */
  function BitAt(i: nat): bv8
    requires i < 8
  {
    if i == 0 then 1 else if i == 1 then 2 else if i == 2 then 4 else if i == 3 then 8
    else if i == 4 then 16 else if i == 5 then 32 else if i == 6 then 64 else 128
  }

  /** Positions count up from the last byte and, inside a byte, from its lowest bit. */
  lemma PositionIsBit(v: BitVector, j: nat, m: nat)
    requires j < 256 && m < 8
    ensures 8 * j + m in Positions(v) <==> v[255 - j] & ((1 as bv8) << m) != 0
  {
    assert (8 * j + m) / 8 == j && (8 * j + m) % 8 == m;
    ShiftedOne(m);
  }

  lemma ShiftedOne(m: nat)
    requires m < 8
    ensures BitAt(m) == (1 as bv8) << m
  {
  }

  lemma OrSetsOneBit(b: bv8, i: nat, j: nat)
    requires i < 8 && j < 8
    ensures (b | BitAt(i)) & BitAt(j) != 0 <==> i == j || b & BitAt(j) != 0
  {
    if i == 0 {} else if i == 1 {} else if i == 2 {} else if i == 3 {}
    else if i == 4 {} else if i == 5 {} else if i == 6 {} else {}
  }

  lemma OrIsUnion(a: bv8, b: bv8, j: nat)
    requires j < 8
    ensures (a | b) & BitAt(j) != 0 <==> a & BitAt(j) != 0 || b & BitAt(j) != 0
  {
  }

  type BitVector = v: seq<bv8> | |v| == BYTE_SIZE witness seq(BYTE_SIZE, _ => 0)

  /** Position `loc` is set; positions count from the last byte. */
  predicate IsSet(v: BitVector, loc: nat)
    requires loc < 2048
  {
    v[BYTE_SIZE - loc / 8 - 1] & BitAt(loc % 8) != 0
  }

  /** The positions set in a bit vector. */
  ghost function Positions(v: BitVector): (r: set<nat>) {
    set loc: nat | loc < 2048 && IsSet(v, loc)
  }

  lemma OneBitSet(v: BitVector, loc: nat, m: nat)
    requires loc < 2048 && m < 2048
    ensures var at := BYTE_SIZE - loc / 8 - 1;
            IsSet(v[at := v[at] | BitAt(loc % 8)], m) <==> IsSet(v, m) || m == loc
  {
    if m / 8 == loc / 8 {
      OrSetsOneBit(v[BYTE_SIZE - loc / 8 - 1], loc % 8, m % 8);
    }
  }

  /** Or-ing one bit in adds one position. */
  lemma PositionAdded(v: BitVector, loc: nat)
    requires loc < 2048
    ensures var at := BYTE_SIZE - loc / 8 - 1;
            Positions(v[at := v[at] | BitAt(loc % 8)]) == Positions(v) + {loc}
  {
    forall m: nat | m < 2048
      ensures var at := BYTE_SIZE - loc / 8 - 1;
              IsSet(v[at := v[at] | BitAt(loc % 8)], m) <==> IsSet(v, m) || m == loc
    {
      OneBitSet(v, loc, m);
    }
  }

  /** Or-ing byte by byte joins the positions. */
  lemma PositionsJoined(v: BitVector, w: BitVector, u: BitVector)
    requires forall j :: 0 <= j < BYTE_SIZE ==> u[j] == v[j] | w[j]
    ensures Positions(u) == Positions(v) + Positions(w)
  {
    forall loc: nat | loc < 2048 ensures IsSet(u, loc) <==> IsSet(v, loc) || IsSet(w, loc) {
      var j := BYTE_SIZE - loc / 8 - 1;
      OrIsUnion(v[j], w[j], loc % 8);
    }
  }

  lemma NothingSet(v: BitVector)
    requires forall j :: 0 <= j < BYTE_SIZE ==> v[j] == 0
    ensures Positions(v) == {}
  {
    forall loc: nat | loc < 2048 ensures !IsSet(v, loc) {
      assert v[BYTE_SIZE - loc / 8 - 1] == 0;
    }
  }

  class Bloom {
    const bitvector: array<bv8>
    const keccak256: bytes -> bytes

    constructor (keccak256: bytes -> bytes)
      requires IsHash(keccak256)
      ensures Valid() && this.keccak256 == keccak256 && fresh(bitvector)
      ensures Contents() == {}
    {
      this.keccak256 := keccak256;
      bitvector := new bv8[BYTE_SIZE](_ => 0);
      new;
      NothingSet(bitvector[..]);
    }

    ghost predicate Valid() {
      bitvector.Length == BYTE_SIZE && IsHash(keccak256)
    }

    /** The positions set in this filter. */
    ghost function Contents(): (r: set<nat>)
      requires Valid()
      reads bitvector
    {
      Positions(bitvector[..])
    }

    method SetLocation(loc: nat)
      requires Valid() && loc < 2048
      modifies bitvector
      ensures Contents() == old(Contents()) + {loc}
    {
      var byteLoc := loc / 8;
      ghost var before := bitvector[..];
      bitvector[BYTE_SIZE - byteLoc - 1] := bitvector[BYTE_SIZE - byteLoc - 1] | BitAt(loc % 8);
      PositionAdded(before, loc);
      assert bitvector[..] == before[BYTE_SIZE - byteLoc - 1 := before[BYTE_SIZE - byteLoc - 1] | BitAt(loc % 8)];
    }

    method Add(e: bytes)
      requires Valid()
      modifies bitvector
      ensures Contents() == old(Contents()) + Locations(keccak256(e))
      ensures var h := keccak256(e);
              Contents() == old(Contents()) +
                {256 * (h[0] as int % 8) + h[1], 256 * (h[2] as int % 8) + h[3], 256 * (h[4] as int % 8) + h[5]}
    {
      hide Location, Positions, IsSet;
      var hash := keccak256(e);
      LocationsAre(hash);
      for i := 0 to 3
        invariant Contents() == old(Contents()) + FirstLocations(hash, i)
      {
        LocationIs(hash, i);
        SetLocation(Location(hash, i));
      }
    }

    /** No false negatives and no other answers: an element passes exactly when all three of its
        positions are set. */
    method Check(e: bytes) returns (match_: bool)
      requires Valid()
      ensures match_ <==> Locations(keccak256(e)) <= Contents()
    {
      var hash := keccak256(e);
      match_ := true;
      var i := 0;
      while i < 3 && match_
        invariant 0 <= i <= 3
        invariant match_ ==> forall j :: 0 <= j < i ==> Location(hash, j) in Contents()
        invariant !match_ ==> exists j :: 0 <= j < 3 && Location(hash, j) !in Contents()
      {
        var loc := Location(hash, i);
        match_ := bitvector[BYTE_SIZE - loc / 8 - 1] & BitAt(loc % 8) != 0;
        assert match_ <==> IsSet(bitvector[..], loc);
        i := i + 1;
      }
    }

    method MultiCheck(topics: seq<bytes>) returns (all: bool)
      requires Valid()
      ensures all <==> forall t :: t in topics ==> Locations(keccak256(t)) <= Contents()
    {
      all := true;
      var i := 0;
      while i < |topics| && all
        invariant 0 <= i <= |topics|
        invariant all ==> forall t :: t in topics[..i] ==> Locations(keccak256(t)) <= Contents()
        invariant !all ==> exists t :: t in topics && !(Locations(keccak256(t)) <= Contents())
      {
        assert topics[..i + 1] == topics[..i] + [topics[i]];
        all := Check(topics[i]);
        i := i + 1;
      }
      assert all ==> topics[..i] == topics;
    }

    /** The loop runs one step too far; writing past the end of a buffer does nothing. */
    method Or(bloom: Bloom)
      requires Valid() && bloom.Valid()
      modifies bitvector
      ensures Contents() == old(Contents()) + old(bloom.Contents())
    {
      ghost var mine, theirs := bitvector[..], bloom.bitvector[..];
      for i := 0 to BYTE_SIZE + 1
        invariant forall j :: 0 <= j < i && j < BYTE_SIZE ==> bitvector[j] == mine[j] | theirs[j]
        invariant forall j :: i <= j < BYTE_SIZE ==> bitvector[j] == mine[j] && bloom.bitvector[j] == theirs[j]
      {
        if i < BYTE_SIZE {
          bitvector[i] := bitvector[i] | bloom.bitvector[i];
        }
      }
      PositionsJoined(mine, theirs, bitvector[..]);
    }

    /** The address and the topics of one log. */
    method AddLog(log: Log)
      requires Valid()
      modifies bitvector
      ensures Contents() == old(Contents()) + LogLocations(log.address, log.topics, keccak256)
    {
      Add(log.address);
      for q := 0 to |log.topics|
        invariant Contents() == old(Contents()) + LogLocations(log.address, log.topics[..q], keccak256)
      {
        Add(log.topics[q]);
        OneMoreTopic(log.address, log.topics, q, keccak256);
      }
      assert log.topics[..|log.topics|] == log.topics;
    }
  }

  datatype Log = Log(address: bytes, topics: seq<bytes>, data: bytes)

  ghost function LogLocations(address: bytes, topics: seq<bytes>, keccak256: bytes -> bytes): set<nat>
    requires IsHash(keccak256)
  {
    if topics == [] then Locations(keccak256(address))
    else LogLocations(address, topics[..|topics| - 1], keccak256) + Locations(keccak256(topics[|topics| - 1]))
  }

  lemma OneMoreTopic(address: bytes, topics: seq<bytes>, q: nat, keccak256: bytes -> bytes)
    requires IsHash(keccak256) && q < |topics|
    ensures LogLocations(address, topics[..q + 1], keccak256)
            == LogLocations(address, topics[..q], keccak256) + Locations(keccak256(topics[q]))
  {
    assert topics[..q + 1][..q] == topics[..q];
  }

  ghost function AllLocations(logs: seq<Log>, keccak256: bytes -> bytes): set<nat>
    requires IsHash(keccak256)
  {
    if logs == [] then {}
    else AllLocations(logs[..|logs| - 1], keccak256)
         + LogLocations(logs[|logs| - 1].address, logs[|logs| - 1].topics, keccak256)
  }

  lemma OneMoreLog(logs: seq<Log>, i: nat, keccak256: bytes -> bytes)
    requires IsHash(keccak256) && i < |logs|
    ensures AllLocations(logs[..i + 1], keccak256)
            == AllLocations(logs[..i], keccak256) + LogLocations(logs[i].address, logs[i].topics, keccak256)
  {
    assert logs[..i + 1][..i] == logs[..i];
  }

  /** The filter of the logs holds what `PositionOfLogs` says. */
  method LogsBloom(logs: seq<Log>, keccak256: bytes -> bytes) returns (bloom: Bloom)
    requires IsHash(keccak256)
    ensures bloom.Valid() && bloom.keccak256 == keccak256 && fresh(bloom.bitvector)
    ensures bloom.Contents() == AllLocations(logs, keccak256)
  {
    bloom := new Bloom(keccak256);
    for i := 0 to |logs|
      invariant bloom.Valid() && bloom.keccak256 == keccak256 && fresh(bloom.bitvector)
      invariant bloom.Contents() == AllLocations(logs[..i], keccak256)
    {
      bloom.AddLog(logs[i]);
      OneMoreLog(logs, i, keccak256);
    }
    assert logs[..|logs|] == logs;
  }

  lemma {:induction false} PositionOfLog(address: bytes, topics: seq<bytes>, loc: nat, keccak256: bytes -> bytes)
    requires IsHash(keccak256)
    ensures loc in LogLocations(address, topics, keccak256)
            <==> exists e :: (e == address || e in topics) && loc in Locations(keccak256(e))
  {
    if topics != [] {
      var init, last := topics[..|topics| - 1], topics[|topics| - 1];
      PositionOfLog(address, init, loc, keccak256);
      assert topics == init + [last];
    }
  }

  /** A position is set in the filter of the logs exactly when it is one of an address or a topic of
      one of the logs; so each of those passes `Check`. */
  lemma {:induction false} PositionOfLogs(logs: seq<Log>, loc: nat, keccak256: bytes -> bytes)
    requires IsHash(keccak256)
    ensures loc in AllLocations(logs, keccak256)
            <==> exists l, e :: l in logs && (e == l.address || e in l.topics) && loc in Locations(keccak256(e))
  {
    if logs != [] {
      var init, last := logs[..|logs| - 1], logs[|logs| - 1];
      PositionOfLogs(init, loc, keccak256);
      PositionOfLog(last.address, last.topics, loc, keccak256);
      assert logs == init + [last];
    }
  }

  lemma LogsCovered(logs: seq<Log>, log: Log, e: bytes, keccak256: bytes -> bytes)
    requires IsHash(keccak256)
    requires log in logs && (e == log.address || e in log.topics)
    ensures Locations(keccak256(e)) <= AllLocations(logs, keccak256)
  {
    forall loc | loc in Locations(keccak256(e)) ensures loc in AllLocations(logs, keccak256) {
      PositionOfLogs(logs, loc, keccak256);
    }
  }

  // ---------- Over whole runs ----------

  /** `add` an element to filter i, or `or` filter j into filter i (which may be the same one). */
  datatype Step = Add(i: nat, e: bytes) | Or(i: nat, j: nat)

  predicate Within(steps: seq<Step>, count: nat) {
    forall s :: s in steps ==> s.i < count && (s.Or? ==> s.j < count)
  }

  /** Where the elements are after the steps: in the filter they were added to, and in every filter that
      one was or-ed into afterwards, and so on. */
  function Elements(count: nat, steps: seq<Step>): (r: seq<set<bytes>>)
    requires Within(steps, count)
    ensures |r| == count
  {
    if steps == [] then seq(count, _ => {})
    else
      var before, last := Elements(count, steps[..|steps| - 1]), steps[|steps| - 1];
      assert last in steps;
      match last
      case Add(i, e) => before[i := before[i] + {e}]
      case Or(i, j) => before[i := before[i] + before[j]]
  }

  ghost predicate Holds(bloom: Bloom, elements: set<bytes>)
    requires bloom.Valid()
    reads bloom.bitvector
  {
    forall e :: e in elements ==> Locations(bloom.keccak256(e)) <= bloom.Contents()
  }

  /** Filters of their own, with one hash function. */
  ghost predicate Apart(filters: seq<Bloom>, keccak256: bytes -> bytes) {
    && (forall k :: 0 <= k < |filters| ==> filters[k].Valid() && filters[k].keccak256 == keccak256)
    && (forall k, l :: 0 <= k < l < |filters| ==> filters[k].bitvector != filters[l].bitvector)
  }

  method Perform(filters: seq<Bloom>, step: Step, ghost before: seq<set<bytes>>, keccak256: bytes -> bytes)
    requires Apart(filters, keccak256) && |before| == |filters|
    requires step.i < |filters| && (step.Or? ==> step.j < |filters|)
    requires forall k :: 0 <= k < |filters| ==> Holds(filters[k], before[k])
    modifies filters[step.i].bitvector
    ensures match step
            case Add(i, e) => Holds(filters[i], before[i] + {e})
            case Or(i, j) => Holds(filters[i], before[i] + before[j])
    ensures forall k :: 0 <= k < |filters| && k != step.i ==> Holds(filters[k], before[k])
  {
    match step
    case Add(i, e) =>
      filters[i].Add(e);
    case Or(i, j) =>
      assert Holds(filters[j], before[j]);
      filters[i].Or(filters[j]);
  }

  /** No false negatives: start with `count` empty filters, perform any steps; every element added to a
      filter, or to one or-ed into it, passes `Check` there. */
  method NoFalseNegatives(count: nat, steps: seq<Step>, k: nat, e: bytes, keccak256: bytes -> bytes)
    returns (found: bool)
    requires IsHash(keccak256) && Within(steps, count) && k < count
    ensures e in Elements(count, steps)[k] ==> found
  {
    var filters: seq<Bloom> := [];
    for n := 0 to count
      invariant |filters| == n && Apart(filters, keccak256)
      invariant forall l :: 0 <= l < n ==> fresh(filters[l].bitvector) && Holds(filters[l], {})
    {
      var bloom := new Bloom(keccak256);
      filters := filters + [bloom];
    }
    for n := 0 to |steps|
      invariant Apart(filters, keccak256) && |filters| == count
      invariant forall l :: 0 <= l < count ==> fresh(filters[l].bitvector)
      invariant Within(steps[..n], count)
      invariant forall l :: 0 <= l < count ==> Holds(filters[l], Elements(count, steps[..n])[l])
    {
      assert steps[..n + 1][..n] == steps[..n];
      assert steps[n] in steps;
      Perform(filters, steps[n], Elements(count, steps[..n]), keccak256);
    }
    assert steps[..|steps|] == steps;
    assert Holds(filters[k], Elements(count, steps)[k]);
    found := filters[k].Check(e);
  }
}
