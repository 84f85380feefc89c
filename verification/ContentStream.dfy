/** How content is cut into numbered chunks and put together again: the facts about byte strings
    and orderings behind ContentWriter, ContentReader and `UtpSocket.compare`. */
module ContentStream {
  import opened Bytes

  const BUFFER_SIZE := 512

  /** Math.ceil(length / 512) */
  function ChunkCount(content: bytes): nat {
    (|content| + BUFFER_SIZE - 1) / BUFFER_SIZE
  }

  function Chunk(content: bytes, i: nat): bytes
    requires i < ChunkCount(content)
  {
    if |content| - BUFFER_SIZE * i > BUFFER_SIZE
    then content[BUFFER_SIZE * i..BUFFER_SIZE * i + BUFFER_SIZE]
    else content[BUFFER_SIZE * i..]
  }

  /** 512 bytes each, in place, the last one what is left: at least one byte. */
  lemma ChunkShape(content: bytes, i: nat)
    requires i < ChunkCount(content)
    ensures 512 * (ChunkCount(content) - 1) < |content| <= 512 * ChunkCount(content)
    ensures i < ChunkCount(content) - 1 ==> Chunk(content, i) == content[512 * i..512 * i + 512]
    ensures i == ChunkCount(content) - 1 ==> Chunk(content, i) == content[512 * i..]
  {
  }

  /** The chunks whose index is in `which`, in index order, from chunk `i` on. */
  function ChunksFrom(content: bytes, which: set<nat>, i: nat): bytes
    requires i <= ChunkCount(content)
    decreases ChunkCount(content) - i
  {
    if i == ChunkCount(content) then []
    else (if i in which then Chunk(content, i) else []) + ChunksFrom(content, which, i + 1)
  }

  /** The concatenation, in order, of the chunks whose index is in `which`. */
  function ChunksIn(content: bytes, which: set<nat>): bytes {
    ChunksFrom(content, which, 0)
  }

  ghost predicate AllChunks(content: bytes, which: set<nat>) {
    forall i: nat :: i < ChunkCount(content) ==> i in which
  }

  /** What is left after the first `i` chunks. */
  function Rest(content: bytes, i: nat): bytes {
    if BUFFER_SIZE * i <= |content| then content[BUFFER_SIZE * i..] else []
  }

  lemma FirstOfRest(content: bytes, i: nat)
    requires i < ChunkCount(content)
    ensures Rest(content, i) == Chunk(content, i) + Rest(content, i + 1)
    ensures Chunk(content, i) != []
  {
    assert BUFFER_SIZE * i < |content|;
  }

  lemma {:induction false} ChunksFromLength(content: bytes, which: set<nat>, i: nat)
    requires i <= ChunkCount(content)
    ensures |ChunksFrom(content, which, i)| <= |Rest(content, i)|
    ensures (forall j: nat :: i <= j < ChunkCount(content) ==> j in which) ==>
              ChunksFrom(content, which, i) == Rest(content, i)
    ensures |ChunksFrom(content, which, i)| == |Rest(content, i)| ==>
              forall j: nat :: i <= j < ChunkCount(content) ==> j in which
    decreases ChunkCount(content) - i
  {
    if i < ChunkCount(content) {
      ChunksFromLength(content, which, i + 1);
      FirstOfRest(content, i);
    }
  }

  /** Nothing but the full set of chunks gives the content back. */
  lemma ChunksInIsContent(content: bytes, which: set<nat>)
    ensures ChunksIn(content, which) == content <==> AllChunks(content, which)
  {
    ChunksFromLength(content, which, 0);
    assert Rest(content, 0) == content;
  }

  /** `compare` sorts its two lists of numbers in place. */
  function InsertNumber(x: int, s: seq<int>): seq<int> {
    if s == [] || x <= s[0] then [x] + s else [s[0]] + InsertNumber(x, s[1..])
  }

  function SortNumbers(s: seq<int>): seq<int> {
    if s == [] then [] else InsertNumber(s[0], SortNumbers(s[1..]))
  }

  ghost predicate Ascending(s: seq<int>) {
    |s| > 1 ==> s[0] <= s[1] && Ascending(s[1..])
  }

  lemma {:induction false} InsertNumberAscends(x: int, s: seq<int>)
    requires Ascending(s)
    ensures Ascending(InsertNumber(x, s))
    ensures InsertNumber(x, s)[0] == if s == [] || x <= s[0] then x else s[0]
  {
    if s != [] && x > s[0] {
      InsertNumberAscends(x, s[1..]);
      assert ([s[0]] + InsertNumber(x, s[1..]))[1..] == InsertNumber(x, s[1..]);
    } else {
      assert ([x] + s)[1..] == s;
    }
  }

  lemma {:induction false} InsertNumberPermutes(x: int, s: seq<int>)
    ensures multiset(InsertNumber(x, s)) == multiset(s) + multiset{x}
  {
    if s != [] && x > s[0] {
      InsertNumberPermutes(x, s[1..]);
      assert s == [s[0]] + s[1..];
    }
  }

  lemma {:induction false} SortNumbersSorts(s: seq<int>)
    ensures Ascending(SortNumbers(s))
    ensures multiset(SortNumbers(s)) == multiset(s)
  {
    hide InsertNumber, Ascending;
    if s == [] {
      EmptyAscends();
    } else {
      SortNumbersSorts(s[1..]);
      InsertNumberAscends(s[0], SortNumbers(s[1..]));
      InsertNumberPermutes(s[0], SortNumbers(s[1..]));
      assert s == [s[0]] + s[1..];
    }
  }

  lemma EmptyAscends()
    ensures Ascending([])
  {
  }

  lemma {:induction false} FirstIsLeast(s: seq<int>, x: int)
    requires Ascending(s) && x in multiset(s)
    ensures s[0] <= x
  {
    assert s == [s[0]] + s[1..];
    if x != s[0] {
      FirstIsLeast(s[1..], x);
    }
  }

  lemma TailBag(s: seq<int>)
    requires s != []
    ensures multiset(s[1..]) == multiset(s) - multiset{s[0]}
  {
    assert s == [s[0]] + s[1..];
  }

  lemma SameLeast(a: seq<int>, b: seq<int>)
    requires Ascending(a) && Ascending(b) && multiset(a) == multiset(b) && a != []
    ensures b != [] && a[0] == b[0]
  {
    assert a[0] in multiset(a);
    assert b[0] in multiset(b);
    FirstIsLeast(a, b[0]);
    FirstIsLeast(b, a[0]);
  }

  lemma {:induction false} AscendingIsUnique(a: seq<int>, b: seq<int>)
    requires Ascending(a) && Ascending(b) && multiset(a) == multiset(b)
    ensures a == b
  {
    if a == [] {
      assert |b| == |multiset(b)|;
    } else {
      SameLeast(a, b);
      TailBag(a);
      TailBag(b);
      AscendingIsUnique(a[1..], b[1..]);
    }
  }

  /** Comparing the sorted lists is comparing the lists as bags. */
  lemma SortedEqualIffSameBag(a: seq<int>, b: seq<int>)
    ensures SortNumbers(a) == SortNumbers(b) <==> multiset(a) == multiset(b)
  {
    SortNumbersSorts(a);
    SortNumbersSorts(b);
    if multiset(a) == multiset(b) {
      AscendingIsUnique(SortNumbers(a), SortNumbers(b));
    }
  }

  ghost predicate NoDuplicates(s: seq<int>) {
    forall i, j :: 0 <= i < j < |s| ==> s[i] != s[j]
  }

  /** Without repetitions, the same bag is the same set. */
  lemma SameBagIffSameSet(a: seq<int>, b: seq<int>)
    requires NoDuplicates(a) && NoDuplicates(b)
    ensures multiset(a) == multiset(b) <==> (forall x :: x in a <==> x in b)
  {
    CountsAtMostOne(a);
    CountsAtMostOne(b);
    if multiset(a) == multiset(b) {
      forall x ensures x in a <==> x in b {
        assert x in a <==> x in multiset(a);
        assert x in b <==> x in multiset(b);
      }
    }
    if forall x :: x in a <==> x in b {
      forall x ensures multiset(a)[x] == multiset(b)[x] {
        assert x in a <==> x in multiset(a);
        assert x in b <==> x in multiset(b);
      }
    }
  }

  lemma {:induction false} CountsAtMostOne(s: seq<int>)
    requires NoDuplicates(s)
    ensures forall x :: multiset(s)[x] <= 1
  {
    if s != [] {
      CountsAtMostOne(s[1..]);
      assert s == [s[0]] + s[1..];
      assert s[0] !in s[1..];
      assert s[0] !in multiset(s[1..]);
    }
  }

  /** Sorting keeps the numbers, and their being distinct. */
  lemma SortNumbersKeeps(s: seq<int>)
    ensures forall x :: x in SortNumbers(s) <==> x in s
    ensures NoDuplicates(s) ==> NoDuplicates(SortNumbers(s))
  {
    SortNumbersSorts(s);
    var r := SortNumbers(s);
    forall x ensures x in r <==> x in s {
      assert x in r <==> x in multiset(r);
      assert x in s <==> x in multiset(s);
    }
    if NoDuplicates(s) {
      CountsAtMostOne(s);
      forall i, j | 0 <= i < j < |r| ensures r[i] != r[j] {
        TwiceCounted(r, i, j);
      }
    }
  }

  lemma TwiceCounted(s: seq<int>, i: nat, j: nat)
    requires i < j < |s|
    ensures s[i] == s[j] ==> multiset(s)[s[i]] >= 2
  {
    assert s == s[..j] + s[j..];
    assert s[i] in s[..j] && s[j] in s[j..];
    assert multiset(s) == multiset(s[..j]) + multiset(s[j..]);
  }

  /** A received DATA packet: its number and its payload. */
  datatype Numbered = Numbered(seqNr: int, payload: bytes)

  function InsertPacket(p: Numbered, s: seq<Numbered>): seq<Numbered> {
    if s == [] || p.seqNr < s[0].seqNr then [p] + s else [s[0]] + InsertPacket(p, s[1..])
  }

  /** The reader's stable sort by sequence number. */
  function SortPackets(s: seq<Numbered>): seq<Numbered> {
    if s == [] then [] else InsertPacket(s[|s| - 1], SortPackets(s[..|s| - 1]))
  }

  function Payloads(s: seq<Numbered>): seq<bytes> {
    if s == [] then [] else [s[0].payload] + Payloads(s[1..])
  }

  /** `ContentReader.run` without its side effect: sort by number, keep the payloads, join them. */
  function Compiled(packets: seq<Numbered>): bytes {
    Concat(Payloads(SortPackets(packets)))
  }

  /** Packet carrying chunk `i` when numbering starts at `base`. */
  function ChunkPacket(content: bytes, base: int, i: nat): Numbered
    requires i < ChunkCount(content)
  {
    Numbered(base + i, Chunk(content, i))
  }

  /** The chunk packets with index in `which`, in index order, from `i` on. */
  function PacketsFrom(content: bytes, base: int, which: set<nat>, i: nat): seq<Numbered>
    requires i <= ChunkCount(content)
    decreases ChunkCount(content) - i
  {
    if i == ChunkCount(content) then []
    else
      (if i in which then [ChunkPacket(content, base, i)] else [])
      + PacketsFrom(content, base, which, i + 1)
  }

  lemma {:induction false} PacketsFromPayloads(content: bytes, base: int, which: set<nat>, i: nat)
    requires i <= ChunkCount(content)
    ensures Concat(Payloads(PacketsFrom(content, base, which, i))) == ChunksFrom(content, which, i)
    decreases ChunkCount(content) - i
  {
    hide ChunkCount, Chunk;
    if i < ChunkCount(content) {
      PacketsFromPayloads(content, base, which, i + 1);
      var rest := PacketsFrom(content, base, which, i + 1);
      if i in which {
        var all := [ChunkPacket(content, base, i)] + rest;
        assert all[1..] == rest;
        assert Payloads(all) == [Chunk(content, i)] + Payloads(rest);
        assert Payloads(all)[1..] == Payloads(rest);
      } else {
        assert PacketsFrom(content, base, which, i) == rest;
      }
    }
  }

  lemma {:induction false} PacketsFromNumbers(content: bytes, base: int, which: set<nat>, i: nat)
    requires i <= ChunkCount(content)
    ensures forall k :: 0 <= k < |PacketsFrom(content, base, which, i)| ==>
              PacketsFrom(content, base, which, i)[k].seqNr >= base + i
    decreases ChunkCount(content) - i
  {
    if i < ChunkCount(content) {
      PacketsFromNumbers(content, base, which, i + 1);
    }
  }

  lemma InsertFirst(p: Numbered, s: seq<Numbered>)
    requires forall k :: 0 <= k < |s| ==> p.seqNr < s[k].seqNr
    ensures InsertPacket(p, s) == [p] + s
  {
  }

  lemma InsertPast(p: Numbered, first: Numbered, s: seq<Numbered>)
    requires first.seqNr <= p.seqNr
    ensures InsertPacket(p, [first] + s) == [first] + InsertPacket(p, s)
  {
    assert ([first] + s)[1..] == s;
  }

  /** Sorting one more chunk packet in adds exactly that chunk. */
  lemma {:induction false} InsertChunk(content: bytes, base: int, which: set<nat>, c: nat, i: nat)
    requires i <= c < ChunkCount(content) && c !in which
    ensures InsertPacket(ChunkPacket(content, base, c), PacketsFrom(content, base, which, i))
            == PacketsFrom(content, base, which + {c}, i)
    decreases ChunkCount(content) - i
  {
    hide ChunkCount, Chunk, InsertPacket;
    var p := ChunkPacket(content, base, c);
    var tail := PacketsFrom(content, base, which, i + 1);
    if i == c {
      PacketsFromNumbers(content, base, which, i + 1);
      SameFrom(content, base, which, which + {c}, i + 1);
      InsertFirst(p, tail);
      assert PacketsFrom(content, base, which, i) == tail;
    } else {
      InsertChunk(content, base, which, c, i + 1);
      if i in which {
        InsertPast(p, ChunkPacket(content, base, i), tail);
      } else {
        assert PacketsFrom(content, base, which, i) == tail;
        assert PacketsFrom(content, base, which + {c}, i) == PacketsFrom(content, base, which + {c}, i + 1);
      }
    }
  }

  lemma {:induction false} SameFrom(content: bytes, base: int, a: set<nat>, b: set<nat>, i: nat)
    requires i <= ChunkCount(content)
    requires forall j: nat :: i <= j < ChunkCount(content) ==> (j in a <==> j in b)
    ensures PacketsFrom(content, base, a, i) == PacketsFrom(content, base, b, i)
    decreases ChunkCount(content) - i
  {
    if i < ChunkCount(content) {
      SameFrom(content, base, a, b, i + 1);
    }
  }

  /** Whatever the order of arrival, sorting `packets` gives the chunk packets with index in `which`,
      each once, in index order. */
  ghost predicate Holds(packets: seq<Numbered>, content: bytes, base: int, which: set<nat>) {
    && (forall c: nat :: c in which ==> c < ChunkCount(content))
    && SortPackets(packets) == PacketsFrom(content, base, which, 0)
  }

  lemma HoldsNothing(content: bytes, base: int)
    ensures Holds([], content, base, {})
  {
    NothingFrom(content, base, 0);
  }

  lemma {:induction false} NothingFrom(content: bytes, base: int, i: nat)
    requires i <= ChunkCount(content)
    ensures PacketsFrom(content, base, {}, i) == []
    decreases ChunkCount(content) - i
  {
    if i < ChunkCount(content) {
      NothingFrom(content, base, i + 1);
    }
  }

  lemma HoldsOneMore(packets: seq<Numbered>, content: bytes, base: int, which: set<nat>, c: nat)
    requires Holds(packets, content, base, which)
    requires c < ChunkCount(content) && c !in which
    ensures Holds(packets + [ChunkPacket(content, base, c)], content, base, which + {c})
  {
    var longer := packets + [ChunkPacket(content, base, c)];
    assert longer[..|longer| - 1] == packets;
    InsertChunk(content, base, which, c, 0);
  }

  ghost predicate StrictlyAscending(s: seq<Numbered>) {
    forall i, j :: 0 <= i < j < |s| ==> s[i].seqNr < s[j].seqNr
  }

  lemma {:induction false} PacketsFromAscend(content: bytes, base: int, which: set<nat>, i: nat)
    requires i <= ChunkCount(content)
    ensures StrictlyAscending(PacketsFrom(content, base, which, i))
    decreases ChunkCount(content) - i
  {
    if i < ChunkCount(content) {
      PacketsFromAscend(content, base, which, i + 1);
      PacketsFromNumbers(content, base, which, i + 1);
    }
  }

  lemma {:induction false} InsertLast(p: Numbered, s: seq<Numbered>)
    requires forall i :: 0 <= i < |s| ==> s[i].seqNr < p.seqNr
    ensures InsertPacket(p, s) == s + [p]
  {
    if s != [] {
      InsertLast(p, s[1..]);
      assert s + [p] == [s[0]] + (s[1..] + [p]);
    }
  }

  lemma {:induction false} SortedStaysSorted(s: seq<Numbered>)
    requires StrictlyAscending(s)
    ensures SortPackets(s) == s
  {
    if s != [] {
      var init := s[..|s| - 1];
      SortedStaysSorted(init);
      InsertLast(s[|s| - 1], init);
      assert s == init + [s[|s| - 1]];
    }
  }

  /** Sorting the reader's list in place loses nothing. */
  lemma HoldsSorted(packets: seq<Numbered>, content: bytes, base: int, which: set<nat>)
    requires Holds(packets, content, base, which)
    ensures Holds(SortPackets(packets), content, base, which)
  {
    PacketsFromAscend(content, base, which, 0);
    SortedStaysSorted(PacketsFrom(content, base, which, 0));
  }

  lemma CompiledChunks(packets: seq<Numbered>, content: bytes, base: int, which: set<nat>)
    requires Holds(packets, content, base, which)
    ensures Compiled(packets) == ChunksIn(content, which)
    ensures Compiled(packets) == content <==> AllChunks(content, which)
  {
    PacketsFromPayloads(content, base, which, 0);
    ChunksInIsContent(content, which);
  }

  /** Each of the first `count` numbers once, in any order. */
  predicate IsOrder(order: seq<nat>, count: nat) {
    && |order| == count
    && (forall i :: 0 <= i < count ==> order[i] < count)
    && (forall i, j :: 0 <= i < j < count ==> order[i] != order[j])
  }

  /** An order leaves nothing out. */
  lemma OrderIsComplete(order: seq<nat>, count: nat, x: nat)
    requires IsOrder(order, count) && x < count
    ensures x in order
  {
    SetOfOrder(order);
    var all := Elements(order);
    forall y | y in all ensures y < count {
      ElementsAreMembers(order, y);
    }
    if x !in order {
      ElementsAreMembers(order, x);
      AllButOne(all, count, x);
    }
  }

  lemma {:induction false} SetOfOrder(order: seq<nat>)
    requires forall i, j :: 0 <= i < j < |order| ==> order[i] != order[j]
    ensures |Elements(order)| == |order|
  {
    if order != [] {
      var init, last := order[..|order| - 1], order[|order| - 1];
      SetOfOrder(init);
      ElementsAreMembers(init, last);
    }
  }

  lemma AllButOne(a: set<nat>, n: nat, x: nat)
    requires x < n && x !in a && forall y :: y in a ==> y < n
    ensures |a| < n
  {
    SizeBelow(a + {x}, n);
  }

  /** The chunk packets in the order in which they arrived. */
  function Arrived(content: bytes, base: int, order: seq<nat>): seq<Numbered>
    requires forall i :: 0 <= i < |order| ==> order[i] < ChunkCount(content)
  {
    seq(|order|, i requires 0 <= i < |order| => ChunkPacket(content, base, order[i]))
  }

  function Elements(order: seq<nat>): set<nat> {
    if order == [] then {} else Elements(order[..|order| - 1]) + {order[|order| - 1]}
  }

  lemma {:induction false} ElementsAreMembers(order: seq<nat>, c: nat)
    ensures c in Elements(order) <==> c in order
  {
    if order != [] {
      var init, last := order[..|order| - 1], order[|order| - 1];
      ElementsAreMembers(init, c);
      assert order == init + [last];
    }
  }

  lemma {:induction false} ArrivedHolds(content: bytes, base: int, order: seq<nat>)
    requires forall i :: 0 <= i < |order| ==> order[i] < ChunkCount(content)
    requires forall i, j :: 0 <= i < j < |order| ==> order[i] != order[j]
    ensures Holds(Arrived(content, base, order), content, base, Elements(order))
  {
    if order == [] {
      HoldsNothing(content, base);
    } else {
      var init, last := order[..|order| - 1], order[|order| - 1];
      ArrivedHolds(content, base, init);
      ElementsAreMembers(init, last);
      HoldsOneMore(Arrived(content, base, init), content, base, Elements(init), last);
      assert Arrived(content, base, order)
          == Arrived(content, base, init) + [ChunkPacket(content, base, last)];
    }
  }

  /** For any subset of the chunk packets, delivered in any order, the compiled stream is the
      in-order concatenation of the delivered chunks, and it is the content if and only if none is
      missing. */
  lemma CompiledInAnyOrder(content: bytes, base: int, order: seq<nat>)
    requires forall i :: 0 <= i < |order| ==> order[i] < ChunkCount(content)
    requires forall i, j :: 0 <= i < j < |order| ==> order[i] != order[j]
    ensures Compiled(Arrived(content, base, order)) == ChunksIn(content, Elements(order))
    ensures Compiled(Arrived(content, base, order)) == content <==>
              forall c: nat :: c < ChunkCount(content) ==> c in order
  {
    ArrivedHolds(content, base, order);
    CompiledChunks(Arrived(content, base, order), content, base, Elements(order));
    forall c: nat | c < ChunkCount(content) ensures c in Elements(order) <==> c in order {
      ElementsAreMembers(order, c);
    }
  }

  lemma {:induction false} SizeBelow(a: set<nat>, n: nat)
    requires forall x :: x in a ==> x < n
    ensures |a| <= n
  {
    if n == 0 {
      assert a == {};
    } else {
      SizeBelow(a - {n - 1}, n - 1);
    }
  }

  lemma {:induction false} AllBelow(a: set<nat>, n: nat)
    requires forall x: nat :: x in a <==> x < n
    ensures |a| == n
  {
    if n == 0 {
      assert a == {};
    } else {
      AllBelow(a - {n - 1}, n - 1);
    }
  }
}
