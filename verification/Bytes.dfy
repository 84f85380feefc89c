/** Byte strings, and the two wrappers the other modules share. */
module Bytes {

  type byte = n: int | 0 <= n < 256
  type bytes = seq<byte>

  datatype Option<+T> = None | Some(value: T)

  datatype Result<+T> = Ok(value: T) | Err(error: string)

  /** `subarray(from, to)`: bounds beyond the end are the end. */
  function Slice(b: bytes, from: nat, to: nat): bytes
    requires from <= to
  {
    if |b| <= from then [] else if |b| <= to then b[from..] else b[from..to]
  }

  /** The parts joined in order, as `Buffer.concat` does. */
  function Concat(parts: seq<bytes>): bytes {
    if parts == [] then [] else parts[0] + Concat(parts[1..])
  }

  lemma {:induction false} ConcatSplit(a: seq<bytes>, b: seq<bytes>)
    ensures Concat(a + b) == Concat(a) + Concat(b)
  {
    if a == [] {
      assert a + b == b;
    } else {
      assert (a + b)[1..] == a[1..] + b;
      calc {
        Concat(a + b);
        a[0] + Concat(a[1..] + b);
        { ConcatSplit(a[1..], b); }
        a[0] + (Concat(a[1..]) + Concat(b));
        Concat(a) + Concat(b);
      }
    }
  }

  lemma ConcatAppend(a: seq<bytes>, last: bytes)
    ensures Concat(a + [last]) == Concat(a) + last
  {
    ConcatSplit(a, [last]);
    assert Concat([last]) == last + Concat([]);
  }
}
