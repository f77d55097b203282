/**
 * File contents under the chunked upload protocol.  A file is a byte
 * sequence; writing a chunk seeks to an offset and copies the chunk there,
 * which overwrites, extends the file past its end, and zero-fills any gap
 * between the old end and the offset.
 */
module ChunkedFiles {
  import UploadRules

  type byte = x: int | 0 <= x < 256

  function Zeros(n: nat): (z: seq<byte>)
    ensures |z| == n
    ensures forall i :: 0 <= i < n ==> z[i] == 0
  {
    seq(n, i => 0)
  }

  function Max(a: int, b: int): int {
    if a < b then b else a
  }

  /** The file after `Seek(offset, SeekOrigin.Begin)` and copying `data`.
      Seeking alone does not lengthen the file, so an empty copy changes
      nothing. */
  function WriteAt(file: seq<byte>, offset: nat, data: seq<byte>): (r: seq<byte>)
    ensures data == [] ==> r == file
    ensures data != [] ==> |r| == Max(|file|, offset + |data|)
    ensures |r| >= |file|
    ensures forall i :: offset <= i < offset + |data| ==> r[i] == data[i - offset]
    ensures forall i :: 0 <= i < |file| && !(offset <= i < offset + |data|) ==> r[i] == file[i]
    ensures forall i :: |file| <= i < |r| && !(offset <= i < offset + |data|) ==> r[i] == 0
  {
    if data == [] then file
    else
      var padded := if offset <= |file| then file else file + Zeros(offset - |file|);
      var tail := if offset + |data| < |padded| then padded[offset + |data|..] else [];
      padded[..offset] + data + tail
  }

  /** One chunk PUT: chunk `chunkIndex` carrying `data`. */
  datatype ChunkWrite = ChunkWrite(chunkIndex: UploadRules.Int32, data: seq<byte>)

  /** Where the chunk is written: `chunkIndex * ChunkSize` in 32-bit
      arithmetic, so it may be negative or wrap around. */
  function ChunkStart(w: ChunkWrite): UploadRules.Int32 {
    UploadRules.ChunkOffset(w.chunkIndex)
  }

  /** The file after one chunk write to an existing file: a negative offset
      makes the seek throw and leaves the file as it was. */
  function ChunkStep(file: seq<byte>, w: ChunkWrite): (r: seq<byte>)
    ensures ChunkStart(w) < 0 ==> r == file
    ensures ChunkStart(w) >= 0 ==> r == WriteAt(file, ChunkStart(w), w.data)
  {
    if ChunkStart(w) < 0 then file else WriteAt(file, ChunkStart(w), w.data)
  }

  /** Byte `i` is written by `w`. */
  predicate Covers(w: ChunkWrite, i: int) {
    0 <= ChunkStart(w) <= i < ChunkStart(w) + |w.data|
  }

  /** The file after the chunk writes, in the order given. */
  function ApplyChunks(file: seq<byte>, ws: seq<ChunkWrite>): seq<byte> {
    if ws == [] then file
    else ChunkStep(ApplyChunks(file, ws[..|ws| - 1]), ws[|ws| - 1])
  }

  /** The chunk's offset is its exact position (chunks 0 to 2147), or the
      write is rejected; it never wraps around into the file. */
  predicate OffsetExactOrRejected(w: ChunkWrite) {
    ChunkStart(w) < 0 || 0 <= w.chunkIndex <= 2147
  }

  /** Every chunk is at most ChunkSize bytes, lies inside the file, and is
      written at its exact offset or not at all. */
  ghost predicate FitInFile(file: seq<byte>, ws: seq<ChunkWrite>) {
    forall j :: 0 <= j < |ws| ==>
      && |ws[j].data| <= UploadRules.ChunkSize
      && ChunkStart(ws[j]) + |ws[j].data| <= |file|
      && OffsetExactOrRejected(ws[j])
  }

  /** Each chunk index is written once. */
  ghost predicate DistinctChunks(ws: seq<ChunkWrite>) {
    forall j, k :: 0 <= j < k < |ws| ==> ws[j].chunkIndex != ws[k].chunkIndex
  }

  /** Chunks with different indices occupy disjoint byte ranges. */
  lemma DistinctChunksDisjoint(v: ChunkWrite, w: ChunkWrite, i: int)
    requires |v.data| <= UploadRules.ChunkSize && |w.data| <= UploadRules.ChunkSize
    requires OffsetExactOrRejected(v) && OffsetExactOrRejected(w)
    requires v.chunkIndex != w.chunkIndex
    ensures !(Covers(v, i) && Covers(w, i))
  {
    if Covers(v, i) && Covers(w, i) {
      UploadRules.ChunkOffsetExact(v.chunkIndex);
      UploadRules.ChunkOffsetExact(w.chunkIndex);
    }
  }

  /** Chunks that fit leave the file's length alone. */
  lemma {:induction false} ApplyChunksLength(file: seq<byte>, ws: seq<ChunkWrite>)
    requires FitInFile(file, ws)
    ensures |ApplyChunks(file, ws)| == |file|
  {
    if ws != [] {
      assert FitInFile(file, ws[..|ws| - 1]);
      ApplyChunksLength(file, ws[..|ws| - 1]);
    }
  }

  /** Byte `i` of the assembled file comes from the chunk covering it, or
      from the original file when no chunk covers it. */
  lemma {:induction false} ApplyChunksAt(file: seq<byte>, ws: seq<ChunkWrite>, i: int)
    requires FitInFile(file, ws) && DistinctChunks(ws)
    requires 0 <= i < |file|
    ensures |ApplyChunks(file, ws)| == |file|
    ensures forall j :: 0 <= j < |ws| && Covers(ws[j], i) ==>
      ApplyChunks(file, ws)[i] == ws[j].data[i - ChunkStart(ws[j])]
    ensures (forall j :: 0 <= j < |ws| ==> !Covers(ws[j], i)) ==> ApplyChunks(file, ws)[i] == file[i]
  {
    ApplyChunksLength(file, ws);
    if ws != [] {
      var init, last := ws[..|ws| - 1], ws[|ws| - 1];
      assert FitInFile(file, init);
      assert DistinctChunks(init);
      ApplyChunksLength(file, init);
      ApplyChunksAt(file, init, i);
      forall j | 0 <= j < |init| ensures !(Covers(init[j], i) && Covers(last, i)) {
        DistinctChunksDisjoint(init[j], last, i);
      }
    }
  }

  /** Two orders of the same distinct chunks agree on byte `i`. */
  lemma SameByteAt(file: seq<byte>, ws: seq<ChunkWrite>, ws': seq<ChunkWrite>, i: int)
    requires forall w :: w in ws <==> w in ws'
    requires FitInFile(file, ws) && FitInFile(file, ws')
    requires DistinctChunks(ws) && DistinctChunks(ws')
    requires 0 <= i < |file|
    ensures |ApplyChunks(file, ws)| == |ApplyChunks(file, ws')| == |file|
    ensures ApplyChunks(file, ws)[i] == ApplyChunks(file, ws')[i]
  {
    ApplyChunksAt(file, ws, i);
    ApplyChunksAt(file, ws', i);
    if exists j :: 0 <= j < |ws| && Covers(ws[j], i) {
      var j :| 0 <= j < |ws| && Covers(ws[j], i);
      assert ws[j] in ws';
      var k :| 0 <= k < |ws'| && ws'[k] == ws[j];
      assert ApplyChunks(file, ws')[i] == ws'[k].data[i - ChunkStart(ws'[k])];
    } else {
      forall k | 0 <= k < |ws'| ensures !Covers(ws'[k], i) {
        assert ws'[k] in ws;
      }
    }
  }

  /** Chunks written in any order give the same file as in-order writes. */
  lemma ChunkOrderIrrelevant(file: seq<byte>, ws: seq<ChunkWrite>, ws': seq<ChunkWrite>)
    requires multiset(ws) == multiset(ws')
    requires FitInFile(file, ws) && DistinctChunks(ws) && DistinctChunks(ws')
    ensures ApplyChunks(file, ws) == ApplyChunks(file, ws')
  {
    forall w ensures w in ws <==> w in ws' {
      assert w in ws <==> w in multiset(ws);
      assert w in ws' <==> w in multiset(ws');
    }
    forall j | 0 <= j < |ws'|
      ensures |ws'[j].data| <= UploadRules.ChunkSize && ChunkStart(ws'[j]) + |ws'[j].data| <= |file|
      ensures OffsetExactOrRejected(ws'[j])
    {
      assert ws'[j] in ws;
      var k :| 0 <= k < |ws| && ws[k] == ws'[j];
    }
    ApplyChunksLength(file, ws);
    ApplyChunksLength(file, ws');
    forall i | 0 <= i < |file| ensures ApplyChunks(file, ws)[i] == ApplyChunks(file, ws')[i] {
      SameByteAt(file, ws, ws', i);
    }
  }

  /** One more chunk PUT is one more step: the file after successive
      chunk writes to an existing file is ApplyChunks of them in order. */
  lemma ApplyChunksExtend(file: seq<byte>, ws: seq<ChunkWrite>, w: ChunkWrite)
    ensures ApplyChunks(file, ws + [w]) == ChunkStep(ApplyChunks(file, ws), w)
  {
    assert (ws + [w])[..|ws|] == ws;
  }

  /** Without the exact-offset condition order does matter: chunk 4295
      wraps around to byte 32,704, inside chunk 0, so whichever of the two
      is written last decides that byte. */
  lemma WrappedChunkOrderMatters()
    ensures
      var file := Zeros(32_705);
      var first := ChunkWrite(0, seq(32_705, _ => 7));
      var wrapped := ChunkWrite(4295, [1]);
      && FitInFile(file, [first]) && !OffsetExactOrRejected(wrapped)
      && DistinctChunks([first, wrapped])
      && ApplyChunks(file, [first, wrapped])[32_704] == 1
      && ApplyChunks(file, [wrapped, first])[32_704] == 7
  {
    var file := Zeros(32_705);
    var first := ChunkWrite(0, seq(32_705, _ => 7));
    var wrapped := ChunkWrite(4295, [1]);
    UploadRules.ChunkOffsetWrapsIntoFirstChunk();
    assert ChunkStart(first) == 0;
    assert [first, wrapped][..1] == [first];
    assert [wrapped, first][..1] == [wrapped];
    var a := WriteAt(file, 0, first.data);
    assert ApplyChunks(file, [first]) == a;
    assert a[32_704] == 7;
    var b := WriteAt(file, 32_704, [1]);
    assert ApplyChunks(file, [wrapped]) == b;
    assert |b| == 32_705;
    assert WriteAt(b, 0, first.data)[32_704] == 7;
  }
}
