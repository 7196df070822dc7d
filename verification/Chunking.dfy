/** Cutting a byte stream into blocks: the sender's re-chunker and the buffer in front of the application. */
module Chunking {
  import opened Prelude

  const CHUNK_SIZE: nat := 16 * 1024

  const BUFFER_SIZE: nat := 1024 * 1024

  /** The canonical cut of `s`: blocks of exactly `size` bytes, then whatever is left. */
  function Chunks(s: Bytes, size: nat): seq<Bytes>
    requires size > 0
    decreases |s|
  {
    if |s| == 0 then []
    else if |s| < size then [s]
    else [s[..size]] + Chunks(s[size..], size)
  }

  /** Every block but the last is full, and the last one is neither empty nor too long. */
  ghost predicate WellCut(blocks: seq<Bytes>, size: nat) {
    && (forall i :: 0 <= i < |blocks| ==> 0 < |blocks[i]| <= size)
    && (forall i :: 0 <= i < |blocks| - 1 ==> |blocks[i]| == size)
  }

  /** The cut preserves the bytes, is well cut, and uses the least number of blocks: |s| divided by size, rounded up. */
  lemma {:induction false} ChunksAreWellCut(s: Bytes, size: nat)
    requires size > 0
    ensures Flatten(Chunks(s, size)) == s
    ensures WellCut(Chunks(s, size), size)
    ensures var n := |Chunks(s, size)|; (n - 1) * size < |s| <= n * size || n == |s| == 0
  {
    CutPreserves(s, size);
    CutCount(s, size);
  }

  lemma {:induction false} CutPreserves(s: Bytes, size: nat)
    requires size > 0
    ensures Flatten(Chunks(s, size)) == s
    ensures WellCut(Chunks(s, size), size)
    decreases |s|
  {
    if |s| >= size {
      CutPreserves(s[size..], size);
      assert s[..size] + s[size..] == s;
    } else if |s| > 0 {
      assert Flatten([s]) == s + Flatten([]);
    }
  }

  lemma {:induction false} CutCount(s: Bytes, size: nat)
    requires size > 0
    ensures var n := |Chunks(s, size)|; (n - 1) * size < |s| <= n * size || n == |s| == 0
    decreases |s|
  {
    if |s| >= size {
      CutCount(s[size..], size);
      var n := |Chunks(s[size..], size)|;
      assert |Chunks(s, size)| == n + 1;
      Distribute(n, size);
    } else if |s| > 0 {
      assert |Chunks(s, size)| == 1;
    }
  }

  lemma Distribute(n: nat, size: nat)
    ensures (n + 1) * size == n * size + size
    ensures (n - 1) * size == n * size - size
  {
  }

  /** Only one list of blocks is well cut and concatenates to `s`. */
  lemma {:induction false} WellCutIsUnique(blocks: seq<Bytes>, size: nat)
    requires size > 0 && WellCut(blocks, size)
    ensures blocks == Chunks(Flatten(blocks), size)
  {
    if blocks != [] {
      var s := Flatten(blocks);
      WellCutIsUnique(blocks[1..], size);
      if |blocks| == 1 {
        assert blocks[1..] == [] && s == blocks[0];
        if |s| == size {
          assert s[..size] == s && s[size..] == [];
        }
      } else {
        assert s[..size] == blocks[0] && s[size..] == Flatten(blocks[1..]);
      }
      assert blocks == [blocks[0]] + blocks[1..];
    }
  }

  lemma ChunksPeel(b: Bytes, rest: Bytes, size: nat)
    requires 0 < size <= |b|
    ensures Chunks(b + rest, size) == [b[..size]] + Chunks(b[size..] + rest, size)
  {
    assert (b + rest)[..size] == b[..size];
    assert (b + rest)[size..] == b[size..] + rest;
  }

  /**
   * `process_in_chunks`: blocks arrive with arbitrary boundaries, the emitted chunks do not depend on them.
   * The callback that sends a chunk is modelled by appending to `chunks`.
   */
  method ProcessInChunks(blocks: seq<Bytes>) returns (chunks: seq<Bytes>)
    ensures chunks == Chunks(Flatten(blocks), 16384)
  {
    hide Chunks, Flatten;
    var buffer: Bytes := [];
    chunks := [];
    var i := 0;
    assert blocks[0..] == blocks && buffer + Flatten(blocks) == Flatten(blocks);
    while i < |blocks|
      invariant 0 <= i <= |blocks|
      invariant |buffer| < CHUNK_SIZE
      invariant chunks + Chunks(buffer + Flatten(blocks[i..]), CHUNK_SIZE) == Chunks(Flatten(blocks), CHUNK_SIZE)
    {
      ghost var rest := Flatten(blocks[i + 1..]);
      FlattenPeel(blocks, i);
      assert buffer + (blocks[i] + rest) == (buffer + blocks[i]) + rest;
      buffer := buffer + blocks[i];
      while |buffer| >= CHUNK_SIZE
        invariant chunks + Chunks(buffer + rest, CHUNK_SIZE) == Chunks(Flatten(blocks), CHUNK_SIZE)
        decreases |buffer|
      {
        ChunksPeel(buffer, rest, CHUNK_SIZE);
        ghost var more := Chunks(buffer[CHUNK_SIZE..] + rest, CHUNK_SIZE);
        assert chunks + ([buffer[..CHUNK_SIZE]] + more) == chunks + [buffer[..CHUNK_SIZE]] + more;
        chunks := chunks + [buffer[..CHUNK_SIZE]];
        buffer := buffer[CHUNK_SIZE..];
      }
      i := i + 1;
    }
    LastChunk(buffer, CHUNK_SIZE);
    FlattenNothing(blocks);
    assert buffer + [] == buffer && chunks + [] == chunks;
    if buffer != [] {
      chunks := chunks + [buffer];
    }
  }

  lemma FlattenPeel(blocks: seq<Bytes>, i: nat)
    requires i < |blocks|
    ensures Flatten(blocks[i..]) == blocks[i] + Flatten(blocks[i + 1..])
  {
    assert blocks[i..][1..] == blocks[i + 1..];
  }

  lemma FlattenNothing(blocks: seq<Bytes>)
    ensures Flatten(blocks[|blocks|..]) == []
  {
  }

  lemma LastChunk(b: Bytes, size: nat)
    requires |b| < size
    ensures Chunks(b, size) == if b == [] then [] else [b]
  {
  }

  /** What `buffer_receiver` hands to the application, given what is buffered and what is still to come. */
  function Batches(buffer: Bytes, blocks: seq<Bytes>): seq<Bytes>
    decreases |blocks|
  {
    if blocks == [] then if buffer == [] then [] else [buffer]
    else
      var b := buffer + blocks[0];
      if |b| >= BUFFER_SIZE then [b] + Batches([], blocks[1..]) else Batches(b, blocks[1..])
  }

  method BufferReceiver(blocks: seq<Bytes>) returns (batches: seq<Bytes>)
    ensures batches == Batches([], blocks)
  {
    var buffer: Bytes := [];
    batches := [];
    var i := 0;
    while i < |blocks|
      invariant 0 <= i <= |blocks|
      invariant batches + Batches(buffer, blocks[i..]) == Batches([], blocks)
    {
      assert blocks[i..][1..] == blocks[i + 1..];
      buffer := buffer + blocks[i];
      if |buffer| >= BUFFER_SIZE {
        batches := batches + [buffer];
        buffer := [];
      }
      i := i + 1;
    }
    if buffer != [] {
      batches := batches + [buffer];
    }
  }

  /** Every batch is non-empty and overshoots the buffer by less than `largest`; only the last may be short. */
  ghost predicate WellBatched(batches: seq<Bytes>, largest: nat) {
    && (forall i :: 0 <= i < |batches| ==> 0 < |batches[i]| < 1048576 + largest)
    && (forall i :: 0 <= i < |batches| - 1 ==> 1048576 <= |batches[i]|)
  }

  /** For blocks of any sizes: nothing is lost and the batches are well formed. */
  lemma {:induction false} BatchesOfAnyBlocks(buffer: Bytes, blocks: seq<Bytes>, largest: nat)
    requires |buffer| < BUFFER_SIZE
    requires forall i :: 0 <= i < |blocks| ==> |blocks[i]| <= largest
    ensures Flatten(Batches(buffer, blocks)) == buffer + Flatten(blocks)
    ensures WellBatched(Batches(buffer, blocks), largest)
    decreases |blocks|
  {
    if blocks == [] {
      if buffer != [] {
        assert Flatten([buffer]) == buffer + Flatten([]);
      }
    } else {
      var b := buffer + blocks[0];
      var rest := blocks[1..];
      if |b| >= BUFFER_SIZE {
        BatchesOfAnyBlocks([], rest, largest);
        WellBatchedCons(b, Batches([], rest), largest);
        assert b + ([] + Flatten(rest)) == buffer + Flatten(blocks);
      } else {
        BatchesOfAnyBlocks(b, rest, largest);
      }
    }
  }

  lemma WellBatchedCons(b: Bytes, batches: seq<Bytes>, largest: nat)
    requires WellBatched(batches, largest)
    requires BUFFER_SIZE <= |b| < BUFFER_SIZE + largest
    ensures WellBatched([b] + batches, largest)
    ensures Flatten([b] + batches) == b + Flatten(batches)
  {
    assert ([b] + batches)[1..] == batches;
  }

  /**
   * Chunks of 16 KiB fill the 1 MiB buffer exactly, so on the output of the re-chunker the batches are
   * the canonical cut of the whole stream into blocks of 1 MiB.
   */
  lemma {:induction false} BatchesOfChunks(buffer: Bytes, blocks: seq<Bytes>)
    requires |buffer| < BUFFER_SIZE && |buffer| % CHUNK_SIZE == 0
    requires WellCut(blocks, CHUNK_SIZE)
    ensures Batches(buffer, blocks) == Chunks(buffer + Flatten(blocks), BUFFER_SIZE)
    decreases |blocks|
  {
    if blocks == [] {
      assert buffer + Flatten(blocks) == buffer;
    } else {
      var b := buffer + blocks[0];
      var rest := Flatten(blocks[1..]);
      assert buffer + Flatten(blocks) == b + rest;
      if |b| >= BUFFER_SIZE {
        assert |b| == BUFFER_SIZE;
        BatchesOfChunks([], blocks[1..]);
        ChunksPeel(b, rest, BUFFER_SIZE);
        assert b[..BUFFER_SIZE] == b && b[BUFFER_SIZE..] + rest == rest == [] + rest;
      } else if |blocks| == 1 {
        assert blocks[1..] == [] && b + rest == b;
      } else {
        BatchesOfChunks(b, blocks[1..]);
      }
    }
  }

  /** The byte path of one file: source blocks of any shape arrive as the canonical 1 MiB cut of their content. */
  lemma BytePath(blocks: seq<Bytes>)
    ensures Batches([], Chunks(Flatten(blocks), CHUNK_SIZE)) == Chunks(Flatten(blocks), BUFFER_SIZE)
    ensures Flatten(Batches([], Chunks(Flatten(blocks), CHUNK_SIZE))) == Flatten(blocks)
  {
    var s := Flatten(blocks);
    ChunksAreWellCut(s, CHUNK_SIZE);
    BatchesOfChunks([], Chunks(s, CHUNK_SIZE));
    assert [] + s == s;
    ChunksAreWellCut(s, BUFFER_SIZE);
  }
}
