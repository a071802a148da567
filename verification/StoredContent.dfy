/** Content over whole runs: whatever operations the store has gone through, every object reads back as one whole. */
module StoredContent {
  import opened Bytes
  import opened Results
  import opened Tables
  import opened Transactions
  import opened BucketRename
  import opened Integrity
  import opened Ranges
  import opened ChunkReads
  import opened ObjectLayout

  type Property = ChunkAttrs -> bool

  ghost predicate Every(t: Database, p: Property) {
    forall c | c in t.chunks :: p(t.chunks[c])
  }

  ghost predicate EveryIn(chunks: seq<Chunk>, p: Property) {
    forall i | 0 <= i < |chunks| :: p(chunks[i].attrs)
  }

  lemma PutKeepsEvery(t: Database, o: Object, chunks: seq<Chunk>, p: Property)
    requires Every(t, p) && EveryIn(chunks, p) && PutRows(t, o, chunks).Ok?
    ensures Every(PutRows(t, o, chunks).value, p)
  {
    var cleared := UpsertObjectRow(DeleteChunkRows(t, ObjectRow(o)), o);
    InsertChunkRowsEffect(cleared, chunks);
    var u := PutRows(t, o, chunks).value;
    forall ck | ck in u.chunks ensures p(u.chunks[ck]) {
      if ck !in cleared.chunks {
        var c :| c in chunks && ChunkRow(c) == ck;
        assert u.chunks[ck] == c.attrs;
      }
    }
  }

  lemma ListedHaveIt(t: Database, src: RowKey, dst: RowKey, p: Property)
    requires Every(t, p)
    ensures EveryIn(CopyChunksForKey(ListChunks(t, src), dst), p)
  {
    ListChunksMeaning(t, src);
    var list := ListChunks(t, src);
    forall i | 0 <= i < |list| ensures p(list[i].attrs) {
      assert list[i] in list;
    }
  }

  lemma CopyRowKeepsEvery(t: Database, src: Object, srcPrefix: Str, dstPrefix: Str, overwrite: bool, now: int,
                          p: Property)
    requires Every(t, p) && CopyRow(t, src, srcPrefix, dstPrefix, overwrite, now).Ok?
    ensures Every(CopyRow(t, src, srcPrefix, dstPrefix, overwrite, now).value.0, p)
  {
    hide Every, EveryIn, PutRows, ListChunks;
    var dst := RowKey(src.bucket, ImageKey(src.key, srcPrefix, dstPrefix));
    ListedHaveIt(t, ObjectRow(src), dst, p);
    var copied := Object(dst.bucket, dst.key, src.attrs.(lastModified := now));
    PutKeepsEvery(t, copied, CopyChunksForKey(ListChunks(t, ObjectRow(src)), dst), p);
  }

  lemma {:induction false} CopyRowsKeepEvery(
    t: Database, rows: seq<Object>, srcPrefix: Str, dstPrefix: Str, overwrite: bool, now: int, p: Property)
    requires Every(t, p) && CopyRows(t, rows, srcPrefix, dstPrefix, overwrite, now).Ok?
    ensures Every(CopyRows(t, rows, srcPrefix, dstPrefix, overwrite, now).value.0, p)
  {
    if |rows| > 0 {
      hide Every, CopyRow;
      var init, last := rows[..|rows| - 1], rows[|rows| - 1];
      CopyRowsKeepEvery(t, init, srcPrefix, dstPrefix, overwrite, now, p);
      CopyRowKeepsEvery(CopyRows(t, init, srcPrefix, dstPrefix, overwrite, now).value.0, last, srcPrefix, dstPrefix,
                        overwrite, now, p);
    }
  }

  lemma CopyObjectKeepsEvery(t: Database, bucket: Str, src: Str, dst: Str, overwrite: bool, now: int, p: Property)
    requires Every(t, p) && CopyObjectTx(t, bucket, src, dst, overwrite, now).Ok?
    ensures Every(CopyObjectTx(t, bucket, src, dst, overwrite, now).value.0, p)
  {
    hide Every, EveryIn, PutRows, ListChunks;
    var from, to := RowKey(bucket, src), RowKey(bucket, dst);
    ListedHaveIt(t, from, to, p);
    var copied := Object(bucket, dst, t.objects[from].(lastModified := now));
    PutKeepsEvery(t, copied, CopyChunksForKey(ListChunks(t, from), to), p);
  }

  lemma RenameKeepsEvery(t: Database, oldName: Str, newName: Str, p: Property)
    requires Every(t, p) && RenameBucketTx(t, oldName, newName).Ok?
    ensures Every(RenameBucketTx(t, oldName, newName).value.0, p)
  {
    var u := RenameBucketTx(t, oldName, newName).value.0;
    forall c | c in u.chunks ensures p(u.chunks[c]) {
      var before := ChunkKey(RowKey(oldName, c.row.key), c.partNumber);
      assert before in t.chunks || c in t.chunks;
    }
  }

  lemma DeletionsKeepEvery(t: Database, bucket: Str, key: Str, p: Property)
    requires Every(t, p)
    ensures Every(DeleteRows(t, RowKey(bucket, key)), p) && Every(DeletePrefixRows(t, bucket, key), p)
    ensures Every(DeleteBucketTx(t, bucket), p)
  {
  }

  lemma SameChunksKeepEvery(t: Database, u: Database, p: Property)
    requires Every(t, p) && u.chunks == t.chunks
    ensures Every(u, p)
  {
  }

  /**
   No operation invents chunk contents: what holds of all chunks, and of those a put brings, holds of all afterwards.
   */
  lemma EffectKeepsEvery(t: Database, op: Op, p: Property)
    requires Every(t, p) && Effect(t, op).Ok? && (op.PutObject? ==> EveryIn(op.chunks, p))
    ensures Every(Effect(t, op).value, p)
  {
    hide Every, EveryIn, CopyRows, SelectPrefix, PutRows, CopyObjectTx, DeleteRows, DeletePrefixRows, DeleteBucketTx;
    hide RenameBucketTx;
    match op {
      case UpsertBucket(name, row) =>
        SameChunksKeepEvery(t, Effect(t, op).value, p);
      case PutObject(obj, chunks) =>
        PutKeepsEvery(t, obj, chunks, p);
      case CopyObject(bucket, src, dst, overwrite, now) =>
        CopyObjectKeepsEvery(t, bucket, src, dst, overwrite, now, p);
      case MoveObject(bucket, src, dst, overwrite, now) =>
        CopyObjectKeepsEvery(t, bucket, src, dst, overwrite, now, p);
        DeletionsKeepEvery(CopyObjectTx(t, bucket, src, dst, overwrite, now).value.0, bucket, src, p);
      case CopyPrefix(bucket, src, dst, overwrite, now) =>
        CopyRowsKeepEvery(t, SelectPrefix(t, bucket, src), src, dst, overwrite, now, p);
      case MovePrefix(bucket, src, dst, overwrite, now) =>
        CopyRowsKeepEvery(t, SelectPrefix(t, bucket, src), src, dst, overwrite, now, p);
        DeletionsKeepEvery(CopyPrefixTx(t, bucket, src, dst, overwrite, now).value.0, bucket, src, p);
      case DeleteObject(bucket, key) =>
        DeletionsKeepEvery(t, bucket, key, p);
      case DeletePrefix(bucket, prefix) =>
        DeletionsKeepEvery(t, bucket, prefix, p);
      case DeleteBucket(bucket) =>
        DeletionsKeepEvery(t, bucket, [], p);
      case RenameBucket(oldName, newName) =>
        RenameKeepsEvery(t, oldName, newName, p);
    }
  }

  lemma {:induction false} RunsKeepEvery(calls: seq<Call>, p: Property)
    requires forall i | 0 <= i < |calls| && calls[i].op.PutObject? :: EveryIn(calls[i].op.chunks, p)
    ensures Every(Integrity.Run(EMPTY, calls), p)
  {
    if |calls| > 0 {
      var n := |calls| - 1;
      RunsKeepEvery(calls[..n], p);
      var t := Integrity.Run(EMPTY, calls[..n]);
      hide Effect, EveryIn;
      if Effect(t, calls[n].op).Ok? {
        EffectKeepsEvery(t, calls[n].op, p);
      }
    }
  }

  // ---------------------------------------------------------------------------------------------
  // Every object of every reachable state reads back
  // ---------------------------------------------------------------------------------------------

  /** Telegram serves the chunk's file, as long as the chunk says. */
  function HasFile(files: Files): Property {
    (a: ChunkAttrs) => a.telegramFileId in files && |files[a.telegramFileId]| == a.size
  }

  lemma ListedAreBacked(t: Database, row: RowKey, files: Files)
    requires Every(t, HasFile(files))
    ensures Backed(files, RefsOf(ListChunks(t, row)))
  {
    ListChunksMeaning(t, row);
    var list := ListChunks(t, row);
    forall i | 0 <= i < |list|
      ensures list[i].attrs.telegramFileId in files && |files[list[i].attrs.telegramFileId]| == list[i].attrs.size
    {
      assert list[i] in list;
      assert HasFile(files)(list[i].attrs);
    }
  }

  /** A caller's put brings tiling chunk rows of its own key whose files are there; prefix copies do not overlap. */
  ghost predicate SafeCall(t: Database, op: Op, files: Files) {
    WritesOwnChunks(op) && TilingSafe(t, op) && (op.PutObject? ==> EveryIn(op.chunks, HasFile(files)))
  }

  /**
   After any run of uploads, copies, moves, renames and deletions, committed or rolled back: a full read of any object
   delivers as many bytes as its size says, and every accepted range header delivers that slice of them.
   */
  lemma EveryObjectReads(calls: seq<Call>, files: Files, row: RowKey, header: Str)
    requires forall i | 0 <= i < |calls| :: SafeCall(Integrity.Run(EMPTY, calls[..i]), calls[i].op, files)
    requires var t := Integrity.Run(EMPTY, calls); row in t.objects && t.objects[row].size <= MAX_INT64
    ensures var t := Integrity.Run(EMPTY, calls);
      var whole := Selection(ListChunks(t, row), None);
      Present(files, whole) && ReadsAs(files, ListChunks(t, row), t.objects[row].size, ReadPieces(files, whole), header)
  {
    var t := Integrity.Run(EMPTY, calls);
    hide ListChunks, ReadPieces, Present, SelectChunks, ParseRange, Backed, Integrity.Run, Tiling, EveryIn, TilingSafe;
    hide WritesOwnChunks;
    RunsKeepEvery(calls, HasFile(files));
    RunsKeepTiling(calls);
    ListedAreBacked(t, row, files);
    assert TiledBy(ListChunks(t, row), t.objects[row]);
    TiledObjectReads(files, ListChunks(t, row), t.objects[row].size, header);
  }
}
