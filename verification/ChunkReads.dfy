/** Reading an object back: which chunks a byte range needs, and the bytes that streaming them yields. */
module ChunkReads {
  import opened Bytes
  import opened Sequences
  import opened Ranges

  datatype ChunkRef = ChunkRef(part: int, fileId: Str, offset: int, size: int)

  datatype SelectedChunk = SelectedChunk(chunk: ChunkRef, skip: int, take: int)

  /** The part of a chunk a range needs, in 64-bit arithmetic; nothing for an empty or a distant chunk. */
  function SelectChunk(chunk: ChunkRef, r: ByteRange): seq<SelectedChunk> {
    var chunkEnd := Wrap64(chunk.offset + chunk.size - 1);
    if chunk.size <= 0 || chunkEnd < r.start || chunk.offset > r.end then [] else
      var overlapStart := if chunk.offset > r.start then chunk.offset else r.start;
      var overlapEnd := if chunkEnd < r.end then chunkEnd else r.end;
      [SelectedChunk(chunk, Wrap64(overlapStart - chunk.offset), Wrap64(overlapEnd - overlapStart + 1))]
  }

  function SelectChunks(chunks: seq<ChunkRef>, r: ByteRange): seq<SelectedChunk> {
    if |chunks| == 0 then [] else SelectChunks(chunks[..|chunks| - 1], r) + SelectChunk(chunks[|chunks| - 1], r)
  }

  /** SelectChunksForRange. */
  method SelectChunksForRange(chunks: seq<ChunkRef>, r: ByteRange) returns (selected: seq<SelectedChunk>)
    ensures selected == SelectChunks(chunks, r)
  {
    selected := [];
    for i := 0 to |chunks|
      invariant selected == SelectChunks(chunks[..i], r)
    {
      assert chunks[..i + 1][..i] == chunks[..i];
      var chunk := chunks[i];
      var chunkStart, chunkEnd := chunk.offset, Wrap64(chunk.offset + chunk.size - 1);
      if !(chunk.size <= 0 || chunkEnd < r.start || chunkStart > r.end) {
        var overlapStart := if chunkStart > r.start then chunkStart else r.start;
        var overlapEnd := if chunkEnd < r.end then chunkEnd else r.end;
        selected := selected +
          [SelectedChunk(chunk, Wrap64(overlapStart - chunkStart), Wrap64(overlapEnd - overlapStart + 1))];
      }
    }
    assert chunks[..|chunks|] == chunks;
  }

  // ---------------------------------------------------------------------------------------------
  // Chunks laid end to end
  // ---------------------------------------------------------------------------------------------

  function TotalSize(chunks: seq<ChunkRef>): int {
    if |chunks| == 0 then 0 else TotalSize(chunks[..|chunks| - 1]) + chunks[|chunks| - 1].size
  }

  ghost predicate LaidOut(chunks: seq<ChunkRef>) {
    && (forall i | 0 <= i < |chunks| :: chunks[i].size >= 0 && chunks[i].offset == TotalSize(chunks[..i]))
    && TotalSize(chunks) <= MAX_INT64
  }

  lemma LaidOutPrefix(chunks: seq<ChunkRef>)
    requires LaidOut(chunks) && |chunks| > 0
    ensures var init, last := chunks[..|chunks| - 1], chunks[|chunks| - 1];
      LaidOut(init) && last.offset == TotalSize(init) && last.size >= 0 &&
        TotalSize(chunks) == TotalSize(init) + last.size
  {
    var init := chunks[..|chunks| - 1];
    forall i | 0 <= i < |init| ensures init[i].offset == TotalSize(init[..i]) {
      assert chunks[..i] == init[..i];
      assert chunks[i] == init[i];
    }
  }

  lemma {:induction false} TotalNonNegative(chunks: seq<ChunkRef>)
    requires LaidOut(chunks)
    ensures TotalSize(chunks) >= 0
  {
    if |chunks| > 0 {
      LaidOutPrefix(chunks);
      TotalNonNegative(chunks[..|chunks| - 1]);
    }
  }

  predicate ValidRange(r: ByteRange) {
    0 <= r.start <= r.end <= MAX_INT64
  }

  predicate Overlaps(chunk: ChunkRef, r: ByteRange) {
    chunk.size > 0 && chunk.offset <= r.end && r.start < chunk.offset + chunk.size
  }

  function Overlapping(chunks: seq<ChunkRef>, r: ByteRange): seq<ChunkRef> {
    if |chunks| == 0 then [] else
      Overlapping(chunks[..|chunks| - 1], r) + if Overlaps(chunks[|chunks| - 1], r) then [chunks[|chunks| - 1]] else []
  }

  function TotalTake(selected: seq<SelectedChunk>): int {
    if |selected| == 0 then 0 else TotalTake(selected[..|selected| - 1]) + selected[|selected| - 1].take
  }

  function Min(a: int, b: int): int {
    if a < b then a else b
  }

  /** Exactly the bytes of the chunk that lie in the range, at least one and never more than it has. */
  ghost predicate TakesOverlap(s: SelectedChunk, r: ByteRange) {
    && 0 <= s.skip && s.take >= 1 && s.skip + s.take <= s.chunk.size
    && s.chunk.offset + s.skip == (if s.chunk.offset < r.start then r.start else s.chunk.offset)
    && s.chunk.offset + s.skip + s.take == Min(s.chunk.offset + s.chunk.size, r.end + 1)
  }

  /** No 64-bit operation wraps when the chunk ends within 64 bits. */
  lemma SelectChunkExact(chunk: ChunkRef, r: ByteRange)
    requires ValidRange(r) && chunk.offset >= 0 && chunk.size >= 0 && chunk.offset + chunk.size <= MAX_INT64
    ensures var s := SelectChunk(chunk, r);
      && (Overlaps(chunk, r) ==> |s| == 1 && s[0].chunk == chunk && TakesOverlap(s[0], r))
      && (!Overlaps(chunk, r) ==> s == [])
      && TotalTake(s) == Min(r.end + 1, chunk.offset + chunk.size) - Min(r.start, chunk.offset + chunk.size)
                         - (Min(r.end + 1, chunk.offset) - Min(r.start, chunk.offset))
  {
    var s := SelectChunk(chunk, r);
    if |s| == 1 {
      assert s[..0] == [];
    }
  }

  lemma {:induction false} TotalTakeConcat(a: seq<SelectedChunk>, b: seq<SelectedChunk>)
    ensures TotalTake(a + b) == TotalTake(a) + TotalTake(b)
  {
    if |b| == 0 {
      assert a + b == a;
    } else {
      assert (a + b)[..|a + b| - 1] == a + b[..|b| - 1];
      TotalTakeConcat(a, b[..|b| - 1]);
    }
  }

  ghost predicate SelectedFrom(selected: seq<SelectedChunk>, chunks: seq<ChunkRef>, r: ByteRange) {
    && |selected| == |chunks|
    && forall i | 0 <= i < |selected| :: selected[i].chunk == chunks[i] && TakesOverlap(selected[i], r)
  }

  lemma SelectedOneMore(a: seq<SelectedChunk>, refs: seq<ChunkRef>, b: seq<SelectedChunk>, chunk: ChunkRef,
                        r: ByteRange)
    requires SelectedFrom(a, refs, r)
    requires if Overlaps(chunk, r) then |b| == 1 && b[0].chunk == chunk && TakesOverlap(b[0], r) else b == []
    ensures SelectedFrom(a + b, refs + if Overlaps(chunk, r) then [chunk] else [], r)
  {
    hide TakesOverlap, Overlaps;
  }

  lemma {:induction false} SelectionSoFar(chunks: seq<ChunkRef>, r: ByteRange)
    requires LaidOut(chunks) && ValidRange(r)
    ensures SelectedFrom(SelectChunks(chunks, r), Overlapping(chunks, r), r)
    ensures TotalTake(SelectChunks(chunks, r)) == Min(r.end + 1, TotalSize(chunks)) - Min(r.start, TotalSize(chunks))
  {
    if |chunks| > 0 {
      hide TakesOverlap, SelectChunk, Overlaps, TotalTake, TotalSize, LaidOut, SelectedFrom;
      var init, last := chunks[..|chunks| - 1], chunks[|chunks| - 1];
      LaidOutPrefix(chunks);
      TotalNonNegative(init);
      SelectionSoFar(init, r);
      SelectChunkExact(last, r);
      SelectedOneMore(SelectChunks(init, r), Overlapping(init, r), SelectChunk(last, r), last, r);
      TotalTakeConcat(SelectChunks(init, r), SelectChunk(last, r));
    }
  }

  /**
   On a laid-out list a range within it selects exactly the overlapping non-empty chunks, in order, and takes exactly
   its length.
   */
  lemma SelectionExact(chunks: seq<ChunkRef>, r: ByteRange)
    requires LaidOut(chunks) && 0 <= r.start <= r.end < TotalSize(chunks)
    ensures SelectedFrom(SelectChunks(chunks, r), Overlapping(chunks, r), r)
    ensures TotalTake(SelectChunks(chunks, r)) == r.Length()
  {
    SelectionSoFar(chunks, r);
  }

  // ---------------------------------------------------------------------------------------------
  // The bytes
  // ---------------------------------------------------------------------------------------------

  type Files = map<Str, Str>

  /** What io.LimitReader lets through of a file after skipping; a negative `take` is no limit. */
  function Piece(data: Str, skip: int, take: int): Str {
    var rest := if skip <= 0 then data else if skip < |data| then data[skip..] else [];
    if 0 <= take < |rest| then rest[..take] else rest
  }

  ghost predicate Present(files: Files, selected: seq<SelectedChunk>) {
    forall i | 0 <= i < |selected| :: selected[i].chunk.fileId in files
  }

  function ReadPieces(files: Files, selected: seq<SelectedChunk>): Str
    requires Present(files, selected)
  {
    if |selected| == 0 then [] else
      var s := selected[|selected| - 1];
      ReadPieces(files, selected[..|selected| - 1]) + Piece(files[s.chunk.fileId], s.skip, s.take)
  }

  /**
   The streaming goroutine of GetObject: chunk after chunk, stopping at the first file that cannot be downloaded.
   `files` is what Telegram serves.
   */
  method Stream(files: Files, selected: seq<SelectedChunk>) returns (body: Str, complete: bool)
    ensures complete <==> Present(files, selected)
    ensures complete ==> body == ReadPieces(files, selected)
    ensures !complete ==> exists n: nat :: n < |selected| && selected[n].chunk.fileId !in files
                                        && Present(files, selected[..n]) && body == ReadPieces(files, selected[..n])
  {
    body := [];
    for i := 0 to |selected|
      invariant Present(files, selected[..i]) && body == ReadPieces(files, selected[..i])
    {
      if selected[i].chunk.fileId !in files {
        return body, false;
      }
      assert selected[..i + 1][..i] == selected[..i];
      assert forall m | 0 <= m < i + 1 :: m < i ==> selected[..i + 1][m] == selected[..i][m];
      var data := files[selected[i].chunk.fileId];
      if selected[i].skip > 0 {
        data := if selected[i].skip < |data| then data[selected[i].skip..] else [];
      }
      if selected[i].take >= 0 {
        data := if selected[i].take < |data| then data[..selected[i].take] else data;
      }
      body := body + data;
    }
    assert selected[..|selected|] == selected;
    complete := true;
  }

  /** Each chunk's file holds exactly the chunk's bytes. */
  ghost predicate Backed(files: Files, chunks: seq<ChunkRef>) {
    forall i | 0 <= i < |chunks| :: chunks[i].fileId in files && |files[chunks[i].fileId]| == chunks[i].size
  }

  /** The files of the chunks, end to end. */
  function Content(files: Files, chunks: seq<ChunkRef>): (content: Str)
    requires Backed(files, chunks)
    ensures |content| == TotalSize(chunks)
  {
    if |chunks| == 0 then [] else
      Content(files, chunks[..|chunks| - 1]) + files[chunks[|chunks| - 1].fileId]
  }

  function WholeChunk(chunk: ChunkRef): SelectedChunk {
    SelectedChunk(chunk, 0, chunk.size)
  }

  /** The selection of a read without a range. */
  function WholeChunks(chunks: seq<ChunkRef>): (selected: seq<SelectedChunk>)
    ensures |selected| == |chunks|
    ensures forall i | 0 <= i < |chunks| :: selected[i] == WholeChunk(chunks[i])
  {
    seq(|chunks|, i requires 0 <= i < |chunks| => WholeChunk(chunks[i]))
  }

  lemma ReadOneMore(files: Files, selected: seq<SelectedChunk>, s: SelectedChunk)
    requires Present(files, selected) && s.chunk.fileId in files
    ensures Present(files, selected + [s])
    ensures ReadPieces(files, selected + [s]) ==
      ReadPieces(files, selected) + Piece(files[s.chunk.fileId], s.skip, s.take)
  {
    assert (selected + [s])[..|selected|] == selected;
  }

  lemma {:induction false} ReadPiecesConcat(files: Files, a: seq<SelectedChunk>, b: seq<SelectedChunk>)
    requires Present(files, a) && Present(files, b)
    ensures Present(files, a + b)
    ensures ReadPieces(files, a + b) == ReadPieces(files, a) + ReadPieces(files, b)
  {
    if |b| == 0 {
      assert a + b == a;
    } else {
      var init, last := b[..|b| - 1], b[|b| - 1];
      assert Present(files, init) && last.chunk.fileId in files;
      hide Piece, ReadPieces, Present;
      LastApart(a, b);
      ReadPiecesConcat(files, a, init);
      ReadOneMore(files, a + init, last);
      ReadOneMore(files, init, last);
      Associative(ReadPieces(files, a), ReadPieces(files, init), Piece(files[last.chunk.fileId], last.skip, last.take));
    }
  }

  /** A read without a range yields the content. */
  lemma {:induction false} WholeRead(files: Files, chunks: seq<ChunkRef>)
    requires Backed(files, chunks)
    ensures Present(files, WholeChunks(chunks)) && ReadPieces(files, WholeChunks(chunks)) == Content(files, chunks)
  {
    if |chunks| > 0 {
      WholeRead(files, chunks[..|chunks| - 1]);
      assert WholeChunks(chunks)[..|chunks| - 1] == WholeChunks(chunks[..|chunks| - 1]);
    }
  }

  /** What one chunk contributes is the range's slice of its file. */
  lemma ChunkPiece(files: Files, chunk: ChunkRef, r: ByteRange)
    requires ValidRange(r) && chunk.offset >= 0 && chunk.offset + chunk.size <= MAX_INT64
    requires chunk.fileId in files && |files[chunk.fileId]| == chunk.size
    ensures Present(files, SelectChunk(chunk, r))
    ensures ReadPieces(files, SelectChunk(chunk, r)) ==
      SliceBehind(files[chunk.fileId], chunk.offset, r.start, r.end + 1)
  {
    hide SelectChunk;
    var s, data := SelectChunk(chunk, r), files[chunk.fileId];
    SelectChunkExact(chunk, r);
    if |s| == 1 {
      assert s == [] + [s[0]];
      ReadOneMore(files, [], s[0]);
      PieceIsSlice(data, s[0].skip, s[0].take);
    }
  }

  /** The bytes of `data`, placed behind `offset` others, whose positions lie in `lo..hi`. */
  function SliceBehind(data: Str, offset: int, lo: int, hi: int): Str
    requires lo <= hi
  {
    data[if lo < offset then 0 else Min(lo - offset, |data|)..if hi < offset then 0 else Min(hi - offset, |data|)]
  }

  /** One more chunk adds the bytes of the range that lie in it. */
  lemma PieceOfChunk(files: Files, before: Str, chunk: ChunkRef, r: ByteRange)
    requires ValidRange(r) && chunk.offset == |before| && chunk.offset + chunk.size <= MAX_INT64
    requires chunk.fileId in files && |files[chunk.fileId]| == chunk.size
    ensures var s := SelectChunk(chunk, r);
      var all := before + files[chunk.fileId];
      && Present(files, s)
      && before[Min(r.start, |before|)..Min(r.end + 1, |before|)] + ReadPieces(files, s)
           == all[Min(r.start, |all|)..Min(r.end + 1, |all|)]
  {
    hide SelectChunk, ReadPieces;
    ChunkPiece(files, chunk, r);
    SliceOfConcat(before, files[chunk.fileId], r.start, r.end + 1);
  }

  lemma PieceIsSlice(data: Str, skip: int, take: int)
    requires 0 <= skip && 0 < take && skip + take <= |data|
    ensures Piece(data, skip, take) == data[skip..skip + take]
  {
    assert data[skip..][..take] == data[skip..skip + take];
  }

  lemma SliceOfConcat(a: Str, b: Str, lo: int, hi: int)
    requires 0 <= lo <= hi
    ensures var all := a + b;
      all[Min(lo, |all|)..Min(hi, |all|)] == a[Min(lo, |a|)..Min(hi, |a|)] + SliceBehind(b, |a|, lo, hi)
  {
    var all := a + b;
    var left, right := a[Min(lo, |a|)..Min(hi, |a|)], SliceBehind(b, |a|, lo, hi);
    var whole := all[Min(lo, |all|)..Min(hi, |all|)];
    assert |whole| == |left| + |right|;
    forall k | 0 <= k < |whole| ensures whole[k] == (left + right)[k] {
      assert whole[k] == all[Min(lo, |all|) + k];
    }
  }

  lemma {:induction false} RangeReadSoFar(files: Files, chunks: seq<ChunkRef>, r: ByteRange)
    requires LaidOut(chunks) && Backed(files, chunks) && ValidRange(r)
    ensures Present(files, SelectChunks(chunks, r))
    ensures var content := Content(files, chunks);
      ReadPieces(files, SelectChunks(chunks, r)) == content[Min(r.start, |content|)..Min(r.end + 1, |content|)]
  {
    if |chunks| > 0 {
      hide SelectChunk;
      var init, last := chunks[..|chunks| - 1], chunks[|chunks| - 1];
      LaidOutPrefix(chunks);
      RangeReadSoFar(files, init, r);
      PieceOfChunk(files, Content(files, init), last, r);
      ReadPiecesConcat(files, SelectChunks(init, r), SelectChunk(last, r));
    }
  }

  /** A range read yields that slice of the content; the whole range yields all of it. */
  lemma RangeRead(files: Files, chunks: seq<ChunkRef>, r: ByteRange)
    requires LaidOut(chunks) && Backed(files, chunks) && 0 <= r.start <= r.end < TotalSize(chunks)
    ensures Present(files, SelectChunks(chunks, r))
    ensures ReadPieces(files, SelectChunks(chunks, r)) == Content(files, chunks)[r.start..r.end + 1]
    ensures r.start == 0 && r.end == TotalSize(chunks) - 1 ==>
      ReadPieces(files, SelectChunks(chunks, r)) == ReadPieces(files, WholeChunks(chunks))
  {
    assert ValidRange(r);
    hide SelectChunks, ReadPieces, Present, Backed, WholeChunks, Content, LaidOut;
    RangeReadSoFar(files, chunks, r);
    WholeRead(files, chunks);
  }
}
