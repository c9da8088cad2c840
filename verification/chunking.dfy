/** Fixed-width chunking of file contents before they are stored in the vector index. */
module Chunking {
  import opened Text

  /** Characters per chunk. */
  const ChunkSize: nat := 2000

  function Min(a: int, b: int): int {
    if a <= b then a else b
  }

  /** `[content[i:i+2000] for i in range(0, len(content), 2000)]`: one slice per start
      offset, the last one clamped at the end of the content. There are just enough chunks
      to cover the content (none for empty content); each is non-empty and at most 2000
      characters, and all but the last are exactly 2000. */
  function Chunks(content: string): (chunks: seq<string>)
    ensures |chunks| * ChunkSize >= |content|
    ensures |content| > 0 ==> (|chunks| - 1) * ChunkSize < |content|
    ensures |chunks| == 0 <==> |content| == 0
    ensures forall k | 0 <= k < |chunks| :: 0 < |chunks[k]| <= ChunkSize
    ensures forall k | 0 <= k < |chunks| - 1 :: |chunks[k]| == ChunkSize
  {
    var n := (|content| + ChunkSize - 1) / ChunkSize;
    seq(n, k requires 0 <= k < n => content[k * ChunkSize .. Min((k + 1) * ChunkSize, |content|)])
  }

  /** A content longer than one chunk splits into its first 2000 characters followed by
      the chunks of the remainder. */
  lemma ChunksUnfold(content: string)
    requires |content| > ChunkSize
    ensures Chunks(content) == [content[..ChunkSize]] + Chunks(content[ChunkSize..])
  {
    var c := Chunks(content);
    var rest := content[ChunkSize..];
    var cr := Chunks(rest);
    assert |c| == |cr| + 1;
    forall k | 1 <= k < |c| ensures c[k] == cr[k - 1] {
      var lo := (k - 1) * ChunkSize;
      var hi := Min(k * ChunkSize, |rest|);
      assert k * ChunkSize == lo + ChunkSize;
      assert Min((k + 1) * ChunkSize, |content|) == hi + ChunkSize;
      assert rest[lo..hi] == content[lo + ChunkSize .. hi + ChunkSize];
    }
  }

  /** The chunks concatenate back to the content exactly. */
  lemma {:induction false} ChunksConcat(content: string)
    ensures Join(Chunks(content), "") == content
    decreases |content|
  {
    if |content| == 0 {
      assert Chunks(content) == [];
    } else if |content| <= ChunkSize {
      assert (|content| + ChunkSize - 1) / ChunkSize == 1;
      assert |Chunks(content)| == 1;
      assert Chunks(content)[0] == content[0..Min(ChunkSize, |content|)] == content;
      assert Chunks(content) == [content];
    } else {
      ChunksUnfold(content);
      ChunksConcat(content[ChunkSize..]);
      var c := Chunks(content);
      assert c[1..] == Chunks(content[ChunkSize..]);
      assert |c| >= 2;
      assert Join(c, "") == c[0] + "" + Join(c[1..], "");
      assert content == content[..ChunkSize] + content[ChunkSize..];
    }
  }
}
