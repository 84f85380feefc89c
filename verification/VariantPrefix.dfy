/** The length prefixes of a multi-item uTP stream (Utils/variantPrefix.ts). */
module VariantPrefix {
  import opened Bytes

  /** Unsigned LEB128, section 7.6 of the DWARF Debugging Information Format, Version 5. */
  function EncodeULEB128(n: nat): bytes {
    if n < 128 then [n] else [n % 128 + 128] + EncodeULEB128(n / 128)
  }

  /** The number a byte string spells, low seven bits of each byte, least significant first. */
  function ULEB128Value(s: bytes): nat {
    if s == [] then 0 else s[0] % 128 + 128 * ULEB128Value(s[1..])
  }

  /** n without its lowest 7 j bits. */
  function Shifted(n: nat, j: nat): nat {
    if j == 0 then n else Shifted(n / 128, j - 1)
  }

  /** Seven bits a byte, the lowest first; the top bit is set on all but the last; no more bytes than the
      number needs. */
  lemma {:induction false} EncodedBytes(n: nat, j: nat)
    requires j < |EncodeULEB128(n)|
    ensures EncodeULEB128(n)[j] % 128 == Shifted(n, j) % 128
    ensures EncodeULEB128(n)[j] >= 128 <==> j < |EncodeULEB128(n)| - 1
    ensures Shifted(n, |EncodeULEB128(n)|) == 0
    ensures |EncodeULEB128(n)| > 1 ==> Shifted(n, |EncodeULEB128(n)| - 1) > 0
  {
    if n >= 128 {
      EncodedBytes(n / 128, if j == 0 then 0 else j - 1);
    }
  }

  /** The examples the standard gives. */
  lemma StandardExamples()
    ensures EncodeULEB128(2) == [2] && EncodeULEB128(127) == [127]
    ensures EncodeULEB128(128) == [0x80, 1] && EncodeULEB128(129) == [0x81, 1]
    ensures EncodeULEB128(12857) == [0xb9, 0x64]
    ensures ULEB128Value([0xb9, 0x64]) == 12857
  {
    assert ULEB128Value([0x64]) == 0x64 % 128 + 128 * ULEB128Value([]);
    assert [0xb9, 0x64][1..] == [0x64];
  }

  function Power128(j: nat): nat {
    if j == 0 then 1 else 128 * Power128(j - 1)
  }

  /** One more byte at the end adds its seven bits on top. */
  lemma {:induction false} ValueOfOneMore(s: bytes, b: byte)
    ensures ULEB128Value(s + [b]) == ULEB128Value(s) + Power128(|s|) * (b as int % 128)
  {
    if s == [] {
      assert ([] + [b])[1..] == [];
      assert ULEB128Value([b]) == b % 128 + 128 * ULEB128Value([]);
    } else {
      ValueOfOneMore(s[1..], b);
      assert (s + [b])[1..] == s[1..] + [b];
      assert Power128(|s|) == 128 * Power128(|s| - 1);
    }
  }

  /** Value and byte count read from a buffer: bytes are counted up to the first whose top bit is clear.
      A buffer that stops inside a number counts as one byte longer than it is. */
  function DecodeULEB128(buffer: bytes): (nat, nat) {
    if buffer == [] then (0, 1)
    else if buffer[0] < 128 then (buffer[0], 1)
    else
      var rest := DecodeULEB128(buffer[1..]);
      (buffer[0] - 128 + 128 * rest.0, rest.1 + 1)
  }

  /** `count` bytes of `content` are exactly one number: only the last has its top bit clear. */
  ghost predicate PrefixAt(content: bytes, count: nat) {
    && 0 < count <= |content|
    && content[count - 1] < 128
    && forall j :: 0 <= j < count - 1 ==> content[j] >= 128
  }

  ghost predicate HasPrefix(content: bytes) {
    exists count: nat :: PrefixAt(content, count)
  }

  lemma {:induction false} DecodePrefix(buffer: bytes, count: nat)
    requires PrefixAt(buffer, count)
    ensures DecodeULEB128(buffer) == (ULEB128Value(buffer[..count]), count)
  {
    if count == 1 {
      assert buffer[..1] == [buffer[0]];
      assert ULEB128Value(buffer[..1]) == buffer[0] % 128 + 128 * ULEB128Value([]);
    } else {
      DecodePrefix(buffer[1..], count - 1);
      assert buffer[..count][1..] == buffer[1..][..count - 1];
    }
  }

  lemma {:induction false} DecodeStops(content: bytes)
    requires DecodeULEB128(content).1 <= |content|
    ensures PrefixAt(content, DecodeULEB128(content).1)
  {
    if content != [] && content[0] >= 128 {
      DecodeStops(content[1..]);
    }
  }

  lemma {:induction false} DecodeCutShort(buffer: bytes)
    ensures DecodeULEB128(buffer).1 <= |buffer| + 1
    ensures !HasPrefix(buffer) ==> DecodeULEB128(buffer).1 == |buffer| + 1
    ensures (forall j :: 0 <= j < |buffer| ==> buffer[j] >= 128) ==> DecodeULEB128(buffer).1 == |buffer| + 1
  {
    if buffer != [] && buffer[0] >= 128 {
      DecodeCutShort(buffer[1..]);
    }
    if DecodeULEB128(buffer).1 <= |buffer| {
      DecodeStops(buffer);
    }
  }

  lemma {:induction false} EncodedIsPrefix(n: nat, rest: bytes)
    ensures PrefixAt(EncodeULEB128(n) + rest, |EncodeULEB128(n)|)
    ensures ULEB128Value(EncodeULEB128(n)) == n
  {
    if n < 128 {
      assert ULEB128Value([n]) == n % 128 + 128 * ULEB128Value([]);
    } else {
      EncodedIsPrefix(n / 128, rest);
      var tail := EncodeULEB128(n / 128);
      assert EncodeULEB128(n)[1..] == tail;
      assert EncodeULEB128(n) + rest == [n % 128 + 128] + (tail + rest);
      forall j | 0 <= j < |EncodeULEB128(n)| - 1
        ensures (EncodeULEB128(n) + rest)[j] >= 128
      {
        if j > 0 {
          assert (EncodeULEB128(n) + rest)[j] == (tail + rest)[j - 1];
        }
      }
      assert (EncodeULEB128(n) + rest)[|tail|] == (tail + rest)[|tail| - 1];
    }
  }

  function AttatchPrefix(content: bytes): bytes {
    EncodeULEB128(|content|) + content
  }

  function EncodeWithVariantPrefix(contents: seq<bytes>): bytes {
    Concat(seq(|contents|, i requires 0 <= i < |contents| => AttatchPrefix(contents[i])))
  }

  /** The decoder is an unseen library that may read past the buffer it is shown: what it finds there in
      round `i` on `content` is `beyond(content, i)`. */
  type Beyond = (bytes, nat) -> bytes

  /** What the decoder reads in round `i`; `subarray(0, i)` stops at the end of the buffer. */
  function Window(content: bytes, beyond: Beyond, i: nat): bytes {
    Slice(content, 0, i) + beyond(content, i)
  }

  /** Round `i` is the last if reached: as many bytes were counted as were asked for. */
  predicate Stops(content: bytes, beyond: Beyond, i: nat) {
    DecodeULEB128(Window(content, beyond, i)).1 == i
  }

  /** The value of `working` after `rounds` rounds. */
  predicate StillWorking(content: bytes, beyond: Beyond, rounds: nat) {
    rounds == 0 || (StillWorking(content, beyond, rounds - 1) && !Stops(content, beyond, rounds))
  }

  /** `parsePrefix` comes to an end. */
  ghost predicate Ends(content: bytes, beyond: Beyond) {
    exists rounds: nat :: !StillWorking(content, beyond, rounds)
  }

  ghost predicate FirstStop(content: bytes, beyond: Beyond, i: nat) {
    && 1 <= i && Stops(content, beyond, i)
    && forall j :: 1 <= j < i ==> !Stops(content, beyond, j)
  }

  /** Inside the buffer a round is the last exactly where a number ends, whatever lies beyond. */
  lemma StopsInside(content: bytes, beyond: Beyond, i: nat)
    requires 1 <= i <= |content|
    ensures Stops(content, beyond, i) <==> PrefixAt(content, i)
  {
    var seen := Window(content, beyond, i);
    assert seen[..i] == content[..i];
    if PrefixAt(content, i) {
      assert PrefixAt(seen, i);
      DecodePrefix(seen, i);
    }
    if Stops(content, beyond, i) {
      DecodeStops(seen);
      assert content[i - 1] == seen[i - 1];
      assert forall j :: 0 <= j < i - 1 ==> content[j] == seen[j];
    }
  }

  lemma {:induction false} WorkingUntilStop(content: bytes, beyond: Beyond, rounds: nat)
    ensures StillWorking(content, beyond, rounds) <==>
              forall j: nat :: 1 <= j <= rounds ==> !Stops(content, beyond, j)
  {
    if rounds > 0 {
      WorkingUntilStop(content, beyond, rounds - 1);
    }
  }

  lemma {:induction false} FirstOf(content: bytes, beyond: Beyond, i: nat) returns (first: nat)
    requires 1 <= i && Stops(content, beyond, i)
    ensures first <= i && FirstStop(content, beyond, first)
  {
    if j: nat :| 1 <= j < i && Stops(content, beyond, j) {
      first := FirstOf(content, beyond, j);
    } else {
      first := i;
    }
  }

  /** `parsePrefix` ends if and only if the buffer begins with a complete number or, when the buffer is
      used up, what the decoder reads after it happens to make the counts agree. */
  lemma ParseEnds(content: bytes, beyond: Beyond)
    ensures Ends(content, beyond) <==>
              HasPrefix(content) || exists i: nat :: i > |content| && Stops(content, beyond, i)
    ensures Ends(content, beyond) <==> exists i: nat :: FirstStop(content, beyond, i)
  {
    if rounds: nat :| !StillWorking(content, beyond, rounds) {
      WorkingUntilStop(content, beyond, rounds);
      var i: nat :| 1 <= i <= rounds && Stops(content, beyond, i);
      var first := FirstOf(content, beyond, i);
      if i <= |content| {
        StopsInside(content, beyond, i);
      }
    }
    if i: nat :| FirstStop(content, beyond, i) {
      WorkingUntilStop(content, beyond, i);
      assert !StillWorking(content, beyond, i);
    }
    if HasPrefix(content) {
      PrefixStops(content, beyond);
    }
    if i: nat :| i > |content| && Stops(content, beyond, i) {
      var first := FirstOf(content, beyond, i);
      WorkingUntilStop(content, beyond, first);
      assert !StillWorking(content, beyond, first);
    }
  }

  /** A complete number is found where it ends. */
  lemma PrefixStops(content: bytes, beyond: Beyond)
    requires HasPrefix(content)
    ensures exists count: nat :: PrefixAt(content, count) && FirstStop(content, beyond, count)
    ensures Ends(content, beyond)
  {
    var count: nat :| PrefixAt(content, count);
    StopsInside(content, beyond, count);
    forall j | 1 <= j < count ensures !Stops(content, beyond, j) {
      StopsInside(content, beyond, j);
    }
    assert FirstStop(content, beyond, count);
    WorkingUntilStop(content, beyond, count);
    assert !StillWorking(content, beyond, count);
  }

  /** In a buffer that stops inside a number no round before its end is the last, and the one after it
      is if and only if the decoder finds nothing there, or a byte with a clear top bit. */
  lemma CutShortStops(content: bytes, beyond: Beyond)
    requires !HasPrefix(content)
    ensures forall j :: 1 <= j <= |content| ==> !Stops(content, beyond, j)
    ensures var after := beyond(content, |content| + 1);
            Stops(content, beyond, |content| + 1) <==> after == [] || after[0] < 128
  {
    forall j | 1 <= j <= |content| ensures !Stops(content, beyond, j) {
      StopsInside(content, beyond, j);
    }
    var n := |content| + 1;
    var after := beyond(content, n);
    var seen := Window(content, beyond, n);
    assert seen == content + after;
    AllHigh(content);
    if after == [] {
      assert seen == content;
      DecodeCutShort(seen);
    } else if after[0] < 128 {
      assert PrefixAt(seen, n);
      DecodePrefix(seen, n);
    } else if Stops(content, beyond, n) {
      DecodeStops(seen);
      assert seen[n - 1] == after[0];
    }
  }

  lemma {:induction false} AllHigh(content: bytes)
    ensures HasPrefix(content) || forall j :: 0 <= j < |content| ==> content[j] >= 128
  {
    if content != [] {
      var init := content[..|content| - 1];
      AllHigh(init);
      if HasPrefix(init) {
        var count: nat :| PrefixAt(init, count);
        assert PrefixAt(content, count);
      } else if content[|content| - 1] < 128 {
        assert PrefixAt(content, |content|);
      }
    }
  }

  /** A decoder that stays inside its buffer, or finds a clear top bit after it. */
  ghost predicate Bounded(beyond: Beyond) {
    forall c: bytes :: beyond(c, |c| + 1) == [] || beyond(c, |c| + 1)[0] < 128
  }

  /** With such a decoder `parsePrefix` ends on every buffer: one that stops inside a number counts as
      one byte longer than it is. */
  lemma BoundedEnds(content: bytes, beyond: Beyond)
    requires Bounded(beyond)
    ensures Ends(content, beyond)
    ensures !HasPrefix(content) ==> FirstStop(content, beyond, |content| + 1)
  {
    ParseEnds(content, beyond);
    if !HasPrefix(content) {
      CutShortStops(content, beyond);
    }
  }

  const HIGH_BYTES: Beyond := (content: bytes, i: nat) => seq(i, j => 128)

  /** A decoder that always finds one more byte with its top bit set keeps the loop going. */
  lemma NeverEnds()
    ensures !Ends([128], HIGH_BYTES)
  {
    forall i: nat | i > 1 ensures !Stops([128], HIGH_BYTES, i) {
      var seen := Window([128], HIGH_BYTES, i);
      assert |seen| == 1 + i && forall j :: 0 <= j < |seen| ==> seen[j] >= 128;
      DecodeCutShort(seen);
    }
    assert !HasPrefix([128]);
    ParseEnds([128], HIGH_BYTES);
  }

  /** Ends whenever the source does; `offset` is the round it ends in. A complete number gives its
      value and its byte count. */
  method ParsePrefix(content: bytes, beyond: Beyond) returns (length: nat, offset: nat)
    requires Ends(content, beyond)
    ensures FirstStop(content, beyond, offset)
    ensures length == DecodeULEB128(Window(content, beyond, offset)).0
    ensures HasPrefix(content) ==> PrefixAt(content, offset) && length == ULEB128Value(content[..offset])
  {
    ParseEnds(content, beyond);
    ghost var last: nat :| FirstStop(content, beyond, last);
    var i: nat := 1;
    var working := true;
    length, offset := 0, 0;
    while working
      invariant 1 <= i <= last
      invariant working ==> forall j :: 1 <= j < i ==> !Stops(content, beyond, j)
      invariant !working ==> i == offset == last && length == DecodeULEB128(Window(content, beyond, last)).0
      decreases working, last - i
    {
      var d := DecodeULEB128(Slice(content, 0, i) + beyond(content, i));
      length, offset := d.0, d.1;
      assert offset == i <==> Stops(content, beyond, i);
      if offset == i {
        working := false;
      } else {
        i := i + 1;
      }
    }
    if HasPrefix(content) {
      PrefixParsed(content, beyond, offset);
    }
  }

  lemma PrefixParsed(content: bytes, beyond: Beyond, offset: nat)
    requires HasPrefix(content) && FirstStop(content, beyond, offset)
    ensures PrefixAt(content, offset)
    ensures DecodeULEB128(Window(content, beyond, offset)).0 == ULEB128Value(content[..offset])
  {
    PrefixStops(content, beyond);
    var count: nat :| PrefixAt(content, count) && FirstStop(content, beyond, count);
    assert offset == count;
    var seen := Window(content, beyond, offset);
    assert seen[..offset] == content[..offset];
    assert PrefixAt(seen, offset);
    DecodePrefix(seen, offset);
  }

  /** Length and offset `parsePrefix` returns. */
  ghost function Parsed(content: bytes, beyond: Beyond): (r: (nat, nat))
    requires Ends(content, beyond)
    ensures FirstStop(content, beyond, r.1)
    ensures r.0 == DecodeULEB128(Window(content, beyond, r.1)).0
  {
    ParseEnds(content, beyond);
    var offset: nat :| FirstStop(content, beyond, offset);
    (DecodeULEB128(Window(content, beyond, offset)).0, offset)
  }

  /** `dropPrefixes` comes to an end: `parsePrefix` does on whatever is left each time. */
  ghost predicate Separable(content: bytes, beyond: Beyond)
    decreases |content|
  {
    && Ends(content, beyond)
    && var (length, offset) := Parsed(content, beyond);
       |content| > offset + length ==> Separable(content[length + offset..], beyond)
  }

  /** The items of a stream, prefixes removed; the last one may be cut short. */
  ghost function Items(content: bytes, beyond: Beyond): seq<bytes>
    requires Separable(content, beyond)
    decreases |content|
  {
    var (length, offset) := Parsed(content, beyond);
    [Slice(content, offset, offset + length)]
    + if |content| > offset + length then Items(content[length + offset..], beyond) else []
  }

  /** With a bounded decoder `dropPrefixes` ends on every stream, cut short or not. */
  lemma {:induction false} AlwaysSeparable(content: bytes, beyond: Beyond)
    requires Bounded(beyond)
    ensures Separable(content, beyond)
    decreases |content|
  {
    BoundedEnds(content, beyond);
    var (length, offset) := Parsed(content, beyond);
    if |content| > offset + length {
      AlwaysSeparable(content[length + offset..], beyond);
    }
  }

  /** What `EncodeWithVariantPrefix` puts first. */
  lemma EncodeSplit(xs: seq<bytes>)
    requires xs != []
    ensures EncodeWithVariantPrefix(xs) ==
            EncodeULEB128(|xs[0]|) + (xs[0] + EncodeWithVariantPrefix(xs[1..]))
    ensures xs[1..] == [] ==> EncodeWithVariantPrefix(xs[1..]) == []
    ensures xs[1..] != [] ==> EncodeWithVariantPrefix(xs[1..]) != []
  {
    var packed := seq(|xs|, i requires 0 <= i < |xs| => AttatchPrefix(xs[i]));
    assert packed[1..] ==
           seq(|xs[1..]|, i requires 0 <= i < |xs[1..]| => AttatchPrefix(xs[1..][i]));
    if xs[1..] != [] {
      EncodedIsPrefix(|xs[1]|, []);
      assert packed[1] == AttatchPrefix(xs[1]);
      assert Concat(packed[1..]) == packed[1] + Concat(packed[1..][1..]);
    }
  }

  lemma FirstLength(first: bytes, rest: bytes, beyond: Beyond)
    ensures var prefix := EncodeULEB128(|first|);
            var stream := prefix + (first + rest);
            Ends(stream, beyond) && Parsed(stream, beyond) == (|first|, |prefix|)
  {
    hide EncodeULEB128, DecodeULEB128, ULEB128Value, Ends;
    var prefix := EncodeULEB128(|first|);
    var stream := prefix + (first + rest);
    EncodedIsPrefix(|first|, first + rest);
    PrefixStops(stream, beyond);
    var offset := Parsed(stream, beyond).1;
    PrefixParsed(stream, beyond, offset);
    OnePrefix(stream, offset, |prefix|);
    assert stream[..offset] == prefix;
  }

  /** A stream that begins with the length of its first item. */
  lemma ItemsOfEncoded(first: bytes, rest: bytes, beyond: Beyond)
    requires rest != [] ==> Separable(rest, beyond)
    ensures var stream := EncodeULEB128(|first|) + (first + rest);
            && Separable(stream, beyond)
            && Items(stream, beyond) == [first] + if rest == [] then [] else Items(rest, beyond)
  {
    hide EncodeULEB128, DecodeULEB128, ULEB128Value, FirstStop, Ends;
    var prefix := EncodeULEB128(|first|);
    var stream := prefix + (first + rest);
    FirstLength(first, rest, beyond);
    var length, offset := |first|, |prefix|;
    assert stream[length + offset..] == rest;
    assert Slice(stream, offset, offset + length) == first;
  }

  lemma OnePrefix(content: bytes, a: nat, b: nat)
    requires PrefixAt(content, a) && PrefixAt(content, b)
    ensures a == b
  {
  }

  /** Round trip: whatever the decoder reads beyond its buffer, the stream of a non-empty list (empty
      items included) comes apart into that very list. */
  lemma {:induction false} RoundTrip(xs: seq<bytes>, beyond: Beyond)
    requires xs != []
    ensures Separable(EncodeWithVariantPrefix(xs), beyond)
    ensures Items(EncodeWithVariantPrefix(xs), beyond) == xs
  {
    EncodeSplit(xs);
    if xs[1..] == [] {
      assert xs == [xs[0]];
    } else {
      RoundTrip(xs[1..], beyond);
      assert xs == [xs[0]] + xs[1..];
    }
    ItemsOfEncoded(xs[0], EncodeWithVariantPrefix(xs[1..]), beyond);
  }

  lemma SameParse(content: bytes, beyond: Beyond, offset: nat)
    requires Ends(content, beyond) && FirstStop(content, beyond, offset)
    ensures Parsed(content, beyond) == (DecodeULEB128(Window(content, beyond, offset)).0, offset)
  {
    assert Parsed(content, beyond).1 == offset;
  }

  method DropPrefixes(stream: bytes, beyond: Beyond) returns (contents: seq<bytes>)
    requires Separable(stream, beyond)
    ensures contents == Items(stream, beyond)
  {
    hide DecodeULEB128, ULEB128Value, Ends, FirstStop;
    var content := Some(stream);
    contents := [];
    while content.Some?
      invariant content.Some? ==>
          Separable(content.value, beyond) && contents + Items(content.value, beyond) == Items(stream, beyond)
      invariant content.None? ==> contents == Items(stream, beyond)
      decreases if content.None? then 0 else 1 + |content.value|
    {
      var current := content.value;
      var length, offset := ParsePrefix(current, beyond);
      SameParse(current, beyond, offset);
      contents := contents + [Slice(current, offset, length + offset)];
      if |current| > offset + length {
        content := Some(current[length + offset..]);
      } else {
        content := None;
      }
    }
  }
}
