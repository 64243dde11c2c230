/** Bytes as Python's `bytes` holds them: integers from 0 to 255. */
module Bytes {

  type Byte = x: int | 0 <= x < 256

  /** The concatenation of a sequence of chunks, in order. */
  function Flatten(chunks: seq<seq<Byte>>): (r: seq<Byte>)
  {
    if |chunks| == 0 then [] else chunks[0] + Flatten(chunks[1..])
  }

  lemma {:induction false} FlattenAppend(chunks: seq<seq<Byte>>, c: seq<Byte>)
    ensures Flatten(chunks + [c]) == Flatten(chunks) + c
  {
    if |chunks| == 0 {
      assert chunks + [c] == [c];
    } else {
      assert (chunks + [c])[1..] == chunks[1..] + [c];
      FlattenAppend(chunks[1..], c);
    }
  }
}
