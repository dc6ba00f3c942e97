/** Byte chunks laid end to end. */
module Chunks {
  import opened Prelude

  function Flatten(chunks: seq<seq<byte>>): seq<byte> {
    if chunks == [] then [] else chunks[0] + Flatten(chunks[1..])
  }

  lemma {:induction false} FlattenAppend(chunks: seq<seq<byte>>, chunk: seq<byte>)
    ensures Flatten(chunks + [chunk]) == Flatten(chunks) + chunk
  {
    if chunks == [] {
      assert chunks + [chunk] == [chunk];
      assert [chunk][1..] == [];
    } else {
      assert (chunks + [chunk])[1..] == chunks[1..] + [chunk];
      FlattenAppend(chunks[1..], chunk);
    }
  }

  lemma {:induction false} FlattenConcat(a: seq<seq<byte>>, b: seq<seq<byte>>)
    ensures Flatten(a + b) == Flatten(a) + Flatten(b)
  {
    if a == [] {
      assert a + b == b;
    } else {
      assert (a + b)[1..] == a[1..] + b;
      FlattenConcat(a[1..], b);
    }
  }

  lemma FlattenSplit(chunks: seq<seq<byte>>, k: nat)
    requires k <= |chunks|
    ensures Flatten(chunks) == Flatten(chunks[..k]) + Flatten(chunks[k..])
  {
    FlattenConcat(chunks[..k], chunks[k..]);
    assert chunks == chunks[..k] + chunks[k..];
  }

  lemma FlattenSnoc(chunks: seq<seq<byte>>, k: nat)
    requires k < |chunks|
    ensures Flatten(chunks[..k + 1]) == Flatten(chunks[..k]) + chunks[k]
  {
    assert chunks[..k + 1] == chunks[..k] + [chunks[k]];
    FlattenAppend(chunks[..k], chunks[k]);
  }
}
