/**
 The public write operations of the metadata store, each as the state its transaction commits, and
 what they keep: referential integrity and chunk lists that tile their object.
 */
module Transactions {
  import opened Bytes
  import opened Like
  import opened Results
  import opened Tables

  // ---------------------------------------------------------------------------------------------
  // The transactions
  // ---------------------------------------------------------------------------------------------

  function CopyObjectTx(t: Database, bucket: Str, srcKey: Str, dstKey: Str, overwrite: bool, now: int)
    : Result<(Database, bool)>
  {
    var src, dst := RowKey(bucket, srcKey), RowKey(bucket, dstKey);
    if src !in t.objects then Err(NotFound)
    else if dst in t.objects && !overwrite then Err(DestinationExists)
    else
      match PutRows(t, Object(bucket, dstKey, t.objects[src].(lastModified := now)),
                    CopyChunksForKey(ListChunks(t, src), dst))
      case Err(e) => Err(e)
      case Ok(u) => Ok((u, dst !in t.objects))
  }

  function MoveObjectTx(t: Database, bucket: Str, srcKey: Str, dstKey: Str, overwrite: bool, now: int)
    : Result<(Database, bool)>
  {
    if srcKey == dstKey then Err(SameNames)
    else
      match CopyObjectTx(t, bucket, srcKey, dstKey, overwrite, now)
      case Err(e) => Err(e)
      case Ok((u, created)) => Ok((DeleteRows(u, RowKey(bucket, srcKey)), created))
  }

  /** The key a prefix copy writes for a source key. */
  function ImageKey(key: Str, srcPrefix: Str, dstPrefix: Str): Str {
    dstPrefix + TrimPrefix(key, srcPrefix)
  }

  /** One turn of copyPrefixInTx: the row was read before the loop, its chunks are read now. */
  function CopyRow(t: Database, src: Object, srcPrefix: Str, dstPrefix: Str, overwrite: bool, now: int)
    : Result<(Database, bool)>
  {
    var dst := RowKey(src.bucket, ImageKey(src.key, srcPrefix, dstPrefix));
    if dst in t.objects && !overwrite then Err(DestinationExists)
    else
      match PutRows(t, Object(dst.bucket, dst.key, src.attrs.(lastModified := now)),
                    CopyChunksForKey(ListChunks(t, ObjectRow(src)), dst))
      case Err(e) => Err(e)
      case Ok(u) => Ok((u, dst !in t.objects))
  }

  /** copyPrefixInTx, after its query returned `rows`. */
  function CopyRows(t: Database, rows: seq<Object>, srcPrefix: Str, dstPrefix: Str, overwrite: bool, now: int)
    : Result<(Database, bool)>
  {
    if |rows| == 0 then Ok((t, true)) else
      match CopyRows(t, rows[..|rows| - 1], srcPrefix, dstPrefix, overwrite, now)
      case Err(e) => Err(e)
      case Ok((u, created)) =>
        match CopyRow(u, rows[|rows| - 1], srcPrefix, dstPrefix, overwrite, now)
        case Err(e) => Err(e)
        case Ok((v, isNew)) => Ok((v, created && isNew))
  }

  function CopyPrefixTx(t: Database, bucket: Str, srcPrefix: Str, dstPrefix: Str, overwrite: bool, now: int)
    : Result<(Database, bool)>
  {
    CopyRows(t, SelectPrefix(t, bucket, srcPrefix), srcPrefix, dstPrefix, overwrite, now)
  }

  function MovePrefixTx(t: Database, bucket: Str, srcPrefix: Str, dstPrefix: Str, overwrite: bool, now: int)
    : Result<(Database, bool)>
  {
    if srcPrefix == dstPrefix then Err(SameNames)
    else
      match CopyPrefixTx(t, bucket, srcPrefix, dstPrefix, overwrite, now)
      case Err(e) => Err(e)
      case Ok((u, created)) => Ok((DeletePrefixRows(u, bucket, srcPrefix), created))
  }

  function DeleteBucketTx(t: Database, bucket: Str): Database {
    Database(
      map b | b in t.buckets && b != bucket :: t.buckets[b],
      map r | r in t.objects && r.bucket != bucket :: t.objects[r],
      map c | c in t.chunks && c.row.bucket != bucket :: t.chunks[c])
  }

  // ---------------------------------------------------------------------------------------------
  // Referential integrity and tiling
  // ---------------------------------------------------------------------------------------------

  ghost predicate ReferentialIntegrity(t: Database) {
    forall c | c in t.chunks :: c.row in t.objects
  }

  function SizeSum(chunks: seq<Chunk>): int {
    if |chunks| == 0 then 0 else SizeSum(chunks[..|chunks| - 1]) + chunks[|chunks| - 1].attrs.size
  }

  /** Chunks numbered 1..n, laid end to end from offset 0, whose sizes add up to `size`. */
  ghost predicate Tiling(chunks: seq<Chunk>, size: int) {
    && (forall i | 0 <= i < |chunks| ::
          && chunks[i].partNumber == i + 1
          && chunks[i].attrs.size >= 0
          && chunks[i].attrs.offset == SizeSum(chunks[..i]))
    && SizeSum(chunks) == size
  }

  ghost predicate TiledBy(chunks: seq<Chunk>, attrs: ObjectAttrs) {
    |chunks| == attrs.chunkCount && Tiling(chunks, attrs.size)
  }

  ghost predicate AllTiled(t: Database) {
    forall r | r in t.objects :: TiledBy(ListChunks(t, r), t.objects[r])
  }

  lemma IntegrityByList(t: Database)
    ensures ReferentialIntegrity(t) <==> forall r: RowKey | r !in t.objects :: ListChunks(t, r) == []
  {
    forall r: RowKey | r !in t.objects && ListChunks(t, r) != [] ensures !ReferentialIntegrity(t) {
      ListChunksMeaning(t, r);
      var c := ListChunks(t, r)[0];
      assert c in ListChunks(t, r);
      assert ChunkRow(c).row == r;
    }
    forall c | c in t.chunks && c.row !in t.objects ensures ListChunks(t, c.row) != [] {
      ListChunksMeaning(t, c.row);
    }
  }

  lemma {:induction false} SizeSumRelabel(chunks: seq<Chunk>, row: RowKey)
    ensures SizeSum(CopyChunksForKey(chunks, row)) == SizeSum(chunks)
  {
    if |chunks| > 0 {
      assert CopyChunksForKey(chunks, row)[..|chunks| - 1] == CopyChunksForKey(chunks[..|chunks| - 1], row);
      SizeSumRelabel(chunks[..|chunks| - 1], row);
    }
  }

  lemma TilingRelabel(chunks: seq<Chunk>, row: RowKey, size: int)
    requires Tiling(chunks, size)
    ensures Tiling(CopyChunksForKey(chunks, row), size)
  {
    var copied := CopyChunksForKey(chunks, row);
    forall i | 0 <= i < |chunks| ensures copied[i].attrs.offset == SizeSum(copied[..i]) {
      assert copied[..i] == CopyChunksForKey(chunks[..i], row);
      SizeSumRelabel(chunks[..i], row);
    }
    SizeSumRelabel(chunks, row);
  }

  lemma CopiedChunksShape(t: Database, src: RowKey, dst: RowKey)
    ensures AscendingParts(CopyChunksForKey(ListChunks(t, src), dst))
    ensures BelongTo(CopyChunksForKey(ListChunks(t, src), dst), dst)
  {
    ListChunksMeaning(t, src);
  }

  lemma ReplacedKeepsIntegrity(t: Database, t': Database, row: RowKey, attrs: ObjectAttrs, chunks: seq<Chunk>)
    requires ReferentialIntegrity(t) && RowReplaced(t, t', row, attrs, chunks)
    ensures ReferentialIntegrity(t')
  {
    IntegrityByList(t);
    IntegrityByList(t');
  }

  lemma ReplacedKeepsTiling(t: Database, t': Database, row: RowKey, attrs: ObjectAttrs, chunks: seq<Chunk>)
    requires AllTiled(t) && RowReplaced(t, t', row, attrs, chunks) && TiledBy(chunks, attrs)
    ensures AllTiled(t')
  {
    forall r | r in t'.objects ensures TiledBy(ListChunks(t', r), t'.objects[r]) {
      if r != row {
        assert r in t.objects;
      }
    }
  }

  /** Deleting keeps every unmatched object with its chunks and leaves nothing of the matched ones. */
  lemma DeletePrefixEffect(t: Database, bucket: Str, prefix: Str, r: RowKey)
    ensures var u := DeletePrefixRows(t, bucket, prefix);
      if r.bucket == bucket && Fold(prefix) <= Fold(r.key) then r !in u.objects && ListChunks(u, r) == []
      else (r in u.objects <==> r in t.objects) && (r in t.objects ==> u.objects[r] == t.objects[r])
           && ListChunks(u, r) == ListChunks(t, r)
  {
    KeyLikeIsFoldedPrefix(r.key, prefix);
    var u := DeletePrefixRows(t, bucket, prefix);
    if r.bucket == bucket && KeyLike(r.key, prefix) {
      ListChunksUnique(u, r, []);
    } else {
      ListChunksFrame(t, u, r);
    }
  }

  lemma DeleteRowsEffect(t: Database, row: RowKey, r: RowKey)
    ensures var u := DeleteRows(t, row);
      if r == row then r !in u.objects && ListChunks(u, r) == []
      else (r in u.objects <==> r in t.objects) && (r in t.objects ==> u.objects[r] == t.objects[r])
           && ListChunks(u, r) == ListChunks(t, r)
  {
    var u := DeleteRows(t, row);
    if r == row {
      ListChunksUnique(u, r, []);
    } else {
      ListChunksFrame(t, u, r);
    }
  }

  lemma DeleteBucketEffect(t: Database, bucket: Str, r: RowKey)
    ensures DeleteBucketTx(t, bucket).buckets == t.buckets - {bucket}
    ensures var u := DeleteBucketTx(t, bucket);
      if r.bucket == bucket then r !in u.objects && ListChunks(u, r) == []
      else (r in u.objects <==> r in t.objects) && (r in t.objects ==> u.objects[r] == t.objects[r])
           && ListChunks(u, r) == ListChunks(t, r)
  {
    var u := DeleteBucketTx(t, bucket);
    if r.bucket == bucket {
      ListChunksUnique(u, r, []);
    } else {
      ListChunksFrame(t, u, r);
    }
  }

  // ---------------------------------------------------------------------------------------------
  // What a copy or a move of one object promises
  // ---------------------------------------------------------------------------------------------

  ghost predicate RowUnchanged(t: Database, t': Database, row: RowKey) {
    && (row in t'.objects <==> row in t.objects)
    && (row in t.objects ==> t'.objects[row] == t.objects[row])
    && ListChunks(t', row) == ListChunks(t, row)
  }

  ghost predicate RowAbsent(t': Database, row: RowKey) {
    row !in t'.objects && ListChunks(t', row) == []
  }

  /** `row` carries the object and the chunks that `origin` had before. */
  ghost predicate RowCopied(t: Database, t': Database, origin: RowKey, row: RowKey, now: int) {
    && origin in t.objects && row in t'.objects
    && t'.objects[row] == t.objects[origin].(lastModified := now)
    && ListChunks(t', row) == CopyChunksForKey(ListChunks(t, origin), row)
  }

  /** The destination carries the source's object and chunks, and nothing else changed. */
  ghost predicate ObjectCopied(t: Database, t': Database, src: RowKey, dst: RowKey, now: int) {
    && t'.buckets == t.buckets
    && RowCopied(t, t', src, dst, now)
    && forall row: RowKey | row != dst :: RowUnchanged(t, t', row)
  }

  /** The destination carries the source's object and chunks, the source is gone, and nothing else changed. */
  ghost predicate ObjectMoved(t: Database, t': Database, src: RowKey, dst: RowKey, now: int) {
    && t'.buckets == t.buckets
    && RowCopied(t, t', src, dst, now)
    && RowAbsent(t', src)
    && forall row: RowKey | row != src && row != dst :: RowUnchanged(t, t', row)
  }

  // ---------------------------------------------------------------------------------------------
  // Copying one row
  // ---------------------------------------------------------------------------------------------

  lemma CopyRowEffect(t: Database, src: Object, srcPrefix: Str, dstPrefix: Str, overwrite: bool, now: int)
    ensures var dst := RowKey(src.bucket, ImageKey(src.key, srcPrefix, dstPrefix));
      var r := CopyRow(t, src, srcPrefix, dstPrefix, overwrite, now);
      && (r.Err? <==> dst in t.objects && !overwrite)
      && (r.Err? ==> r.error == DestinationExists)
      && (r.Ok? ==> && r.value.1 == (dst !in t.objects)
                    && RowReplaced(t, r.value.0, dst, src.attrs.(lastModified := now),
                                   CopyChunksForKey(ListChunks(t, ObjectRow(src)), dst)))
  {
    var dst := RowKey(src.bucket, ImageKey(src.key, srcPrefix, dstPrefix));
    CopiedChunksShape(t, ObjectRow(src), dst);
    PutRowsEffect(t, Object(dst.bucket, dst.key, src.attrs.(lastModified := now)),
                  CopyChunksForKey(ListChunks(t, ObjectRow(src)), dst));
  }

  lemma CopyObjectEffect(t: Database, bucket: Str, srcKey: Str, dstKey: Str, overwrite: bool, now: int)
    ensures var src, dst := RowKey(bucket, srcKey), RowKey(bucket, dstKey);
      var r := CopyObjectTx(t, bucket, srcKey, dstKey, overwrite, now);
      && (r == Err(NotFound) <==> src !in t.objects)
      && (r == Err(DestinationExists) <==> src in t.objects && dst in t.objects && !overwrite)
      && (r.Ok? <==> src in t.objects && (dst in t.objects ==> overwrite))
      && (r.Ok? ==> && r.value.1 == (dst !in t.objects)
                    && RowReplaced(t, r.value.0, dst, t.objects[src].(lastModified := now),
                                   CopyChunksForKey(ListChunks(t, src), dst))
                    && ObjectCopied(t, r.value.0, src, dst, now))
  {
    var src, dst := RowKey(bucket, srcKey), RowKey(bucket, dstKey);
    if src in t.objects {
      CopiedChunksShape(t, src, dst);
      PutRowsEffect(t, Object(bucket, dstKey, t.objects[src].(lastModified := now)),
                    CopyChunksForKey(ListChunks(t, src), dst));
      hide PutRows, ListChunks;
    }
  }

  /** A move succeeds exactly for different names, a source that is there and a destination it may write. */
  lemma MoveObjectEffect(t: Database, bucket: Str, srcKey: Str, dstKey: Str, overwrite: bool, now: int)
    ensures var src, dst := RowKey(bucket, srcKey), RowKey(bucket, dstKey);
      var r := MoveObjectTx(t, bucket, srcKey, dstKey, overwrite, now);
      && (r == Err(SameNames) <==> srcKey == dstKey)
      && (r == Err(NotFound) <==> srcKey != dstKey && src !in t.objects)
      && (r == Err(DestinationExists) <==> srcKey != dstKey && src in t.objects && dst in t.objects && !overwrite)
      && (r.Ok? <==> srcKey != dstKey && src in t.objects && (dst in t.objects ==> overwrite))
      && (r.Ok? ==> r.value.1 == (dst !in t.objects) && ObjectMoved(t, r.value.0, src, dst, now))
  {
    var src, dst := RowKey(bucket, srcKey), RowKey(bucket, dstKey);
    CopyObjectEffect(t, bucket, srcKey, dstKey, overwrite, now);
    hide CopyObjectTx, ListChunks;
    if srcKey != dstKey && CopyObjectTx(t, bucket, srcKey, dstKey, overwrite, now).Ok? {
      MovedAfterCopy(t, CopyObjectTx(t, bucket, srcKey, dstKey, overwrite, now).value.0, src, dst, now);
    }
  }

  /** Copying and then deleting the source moves. */
  lemma MovedAfterCopy(t: Database, u: Database, src: RowKey, dst: RowKey, now: int)
    requires ObjectCopied(t, u, src, dst, now) && src != dst
    ensures ObjectMoved(t, DeleteRows(u, src), src, dst, now)
  {
    var v := DeleteRows(u, src);
    DeleteRowsEffect(u, src, src);
    DeleteRowsEffect(u, src, dst);
    assert v.buckets == u.buckets;
    hide DeleteRows, ListChunks;
    forall row: RowKey | row != src && row != dst ensures RowUnchanged(t, v, row) {
      DeleteRowsEffect(u, src, row);
      assert RowUnchanged(t, u, row);
    }
  }
}
