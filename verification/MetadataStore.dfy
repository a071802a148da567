/**
 The SQLite-backed store as an object. Each write method builds its result on a copy of the tables and
 publishes the copy when its transaction commits; `durable` says whether the database accepts the commit.
 */
module MetadataStore {
  import opened Bytes
  import opened Results
  import opened Sequences
  import opened Tables
  import opened Transactions
  import opened BucketRename
  import opened Listing

  datatype ListQuery = ListQuery(bucket: Str, prefix: Str, afterKey: Str, limit: int)

  /** A call commits the state its transaction computes, or leaves the tables as they were. */
  ghost predicate Transacted<X>(before: Database, after: Database, result: Result<X>, tx: Result<(Database, X)>,
                                durable: bool)
  {
    match tx
    case Err(e) => after == before && result == Err(e)
    case Ok((u, x)) =>
      if durable then after == u && result == Ok(x) else after == before && result == Err(IoFailure)
  }

  /** putObjectInTx, and the same statements inside PutObject. */
  method PutObjectInTx(t: Database, obj: Object, chunks: seq<Chunk>) returns (r: Result<Database>)
    ensures r == PutRows(t, obj, chunks)
  {
    ghost var start := UpsertObjectRow(DeleteChunkRows(t, ObjectRow(obj)), obj);
    var tx := DeleteChunkRows(t, ObjectRow(obj));
    tx := UpsertObjectRow(tx, obj);
    for i := 0 to |chunks|
      invariant InsertChunkRows(start, chunks[..i]) == Ok(tx)
    {
      assert chunks[..i + 1][..i] == chunks[..i];
      var inserted := InsertChunkRow(tx, chunks[i]);
      if inserted.Err? {
        InsertChunkRowsFailed(start, chunks, i + 1);
        return Err(inserted.error);
      }
      tx := inserted.value;
    }
    assert chunks[..|chunks|] == chunks;
    return Ok(tx);
  }

  lemma {:induction false} CopyRowsFailed(
    t: Database, rows: seq<Object>, i: nat, srcPrefix: Str, dstPrefix: Str, overwrite: bool, now: int)
    requires i <= |rows| && CopyRows(t, rows[..i], srcPrefix, dstPrefix, overwrite, now).Err?
    ensures CopyRows(t, rows, srcPrefix, dstPrefix, overwrite, now)
         == CopyRows(t, rows[..i], srcPrefix, dstPrefix, overwrite, now)
  {
    if i < |rows| {
      assert rows[..|rows| - 1][..i] == rows[..i];
      CopyRowsFailed(t, rows[..|rows| - 1], i, srcPrefix, dstPrefix, overwrite, now);
    } else {
      assert rows[..i] == rows;
    }
  }

  /** The statements CopyObject and MoveObject share. */
  method CopyObjectInTx(t: Database, bucket: Str, srcKey: Str, dstKey: Str, overwrite: bool, now: int)
    returns (copied: Result<(Database, bool)>)
    ensures copied == CopyObjectTx(t, bucket, srcKey, dstKey, overwrite, now)
  {
    var src, dst := RowKey(bucket, srcKey), RowKey(bucket, dstKey);
    if src !in t.objects {
      return Err(NotFound);
    }
    var chunks := ListChunks(t, src);
    var dstExists := dst in t.objects;
    if dstExists && !overwrite {
      return Err(DestinationExists);
    }
    var row := Object(bucket, dstKey, t.objects[src].(lastModified := now));
    var put := PutObjectInTx(t, row, CopyChunksForKey(chunks, dst));
    if put.Err? {
      return Err(put.error);
    }
    return Ok((put.value, !dstExists));
  }

  /** One turn of the copy loop; `copied` is the error or the tables and whether the destination is new. */
  method CopyRowInTx(t: Database, src: Object, srcPrefix: Str, dstPrefix: Str, overwrite: bool, now: int)
    returns (copied: Result<(Database, bool)>)
    ensures copied == CopyRow(t, src, srcPrefix, dstPrefix, overwrite, now)
  {
    var dstKey := dstPrefix + TrimPrefix(src.key, srcPrefix);
    var dst := RowKey(src.bucket, dstKey);
    var dstExists := dst in t.objects;
    if dstExists && !overwrite {
      return Err(DestinationExists);
    }
    var chunks := ListChunks(t, ObjectRow(src));
    var row := Object(src.bucket, dstKey, src.attrs.(lastModified := now));
    var put := PutObjectInTx(t, row, CopyChunksForKey(chunks, dst));
    if put.Err? {
      return Err(put.error);
    }
    return Ok((put.value, !dstExists));
  }

  lemma CopyRowsStep(t: Database, u: Database, created: bool, rows: seq<Object>, i: nat,
                     srcPrefix: Str, dstPrefix: Str, overwrite: bool, now: int, copied: Result<(Database, bool)>)
    requires i < |rows| && CopyRows(t, rows[..i], srcPrefix, dstPrefix, overwrite, now) == Ok((u, created))
    requires copied == CopyRow(u, rows[i], srcPrefix, dstPrefix, overwrite, now)
    ensures copied.Err? ==> CopyRows(t, rows, srcPrefix, dstPrefix, overwrite, now) == Err(copied.error)
    ensures copied.Ok? ==>
      CopyRows(t, rows[..i + 1], srcPrefix, dstPrefix, overwrite, now) ==
        Ok((copied.value.0, created && copied.value.1))
  {
    assert rows[..i + 1][..i] == rows[..i];
    if copied.Err? {
      CopyRowsFailed(t, rows, i + 1, srcPrefix, dstPrefix, overwrite, now);
    }
  }

  /** copyPrefixInTx: the object rows are read once, each row's chunks when its turn comes. */
  method CopyPrefixInTx(t: Database, bucket: Str, srcPrefix: Str, dstPrefix: Str, overwrite: bool, now: int)
    returns (r: Result<(Database, bool)>)
    ensures r == CopyPrefixTx(t, bucket, srcPrefix, dstPrefix, overwrite, now)
  {
    var rows := SelectPrefix(t, bucket, srcPrefix);
    var tx, created := t, true;
    assert CopyRows(t, rows[..0], srcPrefix, dstPrefix, overwrite, now) == Ok((tx, created));
    hide CopyRows, CopyRow, SelectPrefix;
    for i := 0 to |rows|
      invariant CopyRows(t, rows[..i], srcPrefix, dstPrefix, overwrite, now) == Ok((tx, created))
    {
      var copied := CopyRowInTx(tx, rows[i], srcPrefix, dstPrefix, overwrite, now);
      CopyRowsStep(t, tx, created, rows, i, srcPrefix, dstPrefix, overwrite, now, copied);
      if copied.Err? {
        return Err(copied.error);
      }
      tx, created := copied.value.0, created && copied.value.1;
    }
    assert rows[..|rows|] == rows;
    return Ok((tx, created));
  }

  /** `all` are the first of `rows`, and the cursor stands behind them. */
  ghost predicate ReadSoFar(t: Database, bucket: Str, prefix: Str, rows: seq<Object>, all: seq<Object>, afterKey: Str) {
    && |all| <= |rows| && all == rows[..|all|]
    && SelectAfter(t, bucket, prefix, afterKey) == rows[|all|..]
  }

  lemma ReadOn(t: Database, bucket: Str, prefix: Str, rows: seq<Object>, all: seq<Object>, afterKey: Str,
               objects: seq<Object>)
    requires rows == SelectAfter(t, bucket, prefix, []) && ReadSoFar(t, bucket, prefix, rows, all, afterKey)
    requires |objects| > 0 && objects <= SelectAfter(t, bucket, prefix, afterKey)
    ensures ReadSoFar(t, bucket, prefix, rows, all + objects, objects[|objects| - 1].key)
  {
    hide SelectAfter;
    NextSlice(rows, |all|, objects);
    SelectAfterContinues(t, bucket, prefix, [], |all| + |objects|);
  }

  class SQLiteStore {
    var db: Database

    constructor ()
      ensures db == Database(map[], map[], map[])
    {
      db := Database(map[], map[], map[]);
    }

    method UpsertBucket(name: Str, row: BucketRow, durable: bool) returns (r: Result<()>)
      modifies this
      ensures Transacted(old(db), db, r, Ok((old(db).(buckets := old(db).buckets[name := row]), ())), durable)
    {
      if !durable {
        return Err(IoFailure);
      }
      db := db.(buckets := db.buckets[name := row]);
      return Ok(());
    }

    method PutObject(obj: Object, chunks: seq<Chunk>, durable: bool) returns (r: Result<()>)
      modifies this
      ensures match PutRows(old(db), obj, chunks)
        case Err(e) => db == old(db) && r == Err(e)
        case Ok(u) => if durable then db == u && r == Ok(()) else db == old(db) && r == Err(IoFailure)
    {
      var tx := PutObjectInTx(db, obj, chunks);
      if tx.Err? {
        return Err(tx.error);
      }
      if !durable {
        return Err(IoFailure);
      }
      db := tx.value;
      return Ok(());
    }

    method GetObject(bucket: Str, key: Str) returns (r: Result<(Object, seq<Chunk>)>)
      ensures RowKey(bucket, key) !in db.objects ==> r == Err(NotFound)
      ensures RowKey(bucket, key) in db.objects ==>
        r == Ok((Object(bucket, key, db.objects[RowKey(bucket, key)]), ListChunks(db, RowKey(bucket, key))))
    {
      var row := RowKey(bucket, key);
      if row !in db.objects {
        return Err(NotFound);
      }
      return Ok((Object(bucket, key, db.objects[row]), ListChunks(db, row)));
    }

    /** The first rows under the prefix and past the cursor, and fewer than the limit only when there are no more. */
    method ListObjects(query: ListQuery) returns (objects: seq<Object>)
      ensures objects <= SelectAfter(db, query.bucket, query.prefix, query.afterKey)
      ensures |objects| <= if query.limit <= 0 then 1000 else query.limit
      ensures |objects| < (if query.limit <= 0 then 1000 else query.limit) ==>
        objects == SelectAfter(db, query.bucket, query.prefix, query.afterKey)
    {
      objects := SelectAfter(db, query.bucket, query.prefix, query.afterKey);
      var limit := if query.limit <= 0 then 1000 else query.limit;
      if |objects| > limit {
        objects := objects[..limit];
      }
    }

    /** Pages of 1000 keys, each behind the last key read, until one is empty. */
    method ListAllObjects(bucket: Str, prefix: Str) returns (all: seq<Object>)
      ensures all == SelectAfter(db, bucket, prefix, [])
    {
      hide SelectAfter;
      ghost var rows := SelectAfter(db, bucket, prefix, []);
      var afterKey := [];
      all := [];
      while true
        invariant ReadSoFar(db, bucket, prefix, rows, all, afterKey)
        decreases |rows| - |all|
      {
        var objects := ListObjects(ListQuery(bucket, prefix, afterKey, 1000));
        if |objects| == 0 {
          return;
        }
        ReadOn(db, bucket, prefix, rows, all, afterKey, objects);
        all := all + objects;
        afterKey := objects[|objects| - 1].key;
      }
    }

    method CountObjects(bucket: Str, prefix: Str) returns (count: nat)
      ensures count == |MatchingKeys(db, bucket, prefix)|
    {
      count := |MatchingKeys(db, bucket, prefix)|;
    }

    method DeleteObject(bucket: Str, key: Str, durable: bool) returns (r: Result<()>)
      modifies this
      ensures Transacted(old(db), db, r, Ok((DeleteRows(old(db), RowKey(bucket, key)), ())), durable)
    {
      var tx := DeleteChunkRows(db, RowKey(bucket, key));
      tx := DeleteObjectRow(tx, RowKey(bucket, key));
      if !durable {
        return Err(IoFailure);
      }
      db := tx;
      return Ok(());
    }

    method CopyObject(bucket: Str, srcKey: Str, dstKey: Str, overwrite: bool, now: int, durable: bool)
      returns (r: Result<bool>)
      modifies this
      ensures Transacted(old(db), db, r, CopyObjectTx(old(db), bucket, srcKey, dstKey, overwrite, now), durable)
    {
      var tx := CopyObjectInTx(db, bucket, srcKey, dstKey, overwrite, now);
      if tx.Err? {
        return Err(tx.error);
      }
      if !durable {
        return Err(IoFailure);
      }
      db := tx.value.0;
      return Ok(tx.value.1);
    }

    method MoveObject(bucket: Str, srcKey: Str, dstKey: Str, overwrite: bool, now: int, durable: bool)
      returns (r: Result<bool>)
      modifies this
      ensures Transacted(old(db), db, r, MoveObjectTx(old(db), bucket, srcKey, dstKey, overwrite, now), durable)
    {
      if srcKey == dstKey {
        return Err(SameNames);
      }
      var tx := CopyObjectInTx(db, bucket, srcKey, dstKey, overwrite, now);
      if tx.Err? {
        return Err(tx.error);
      }
      var moved := DeleteRows(tx.value.0, RowKey(bucket, srcKey));
      if !durable {
        return Err(IoFailure);
      }
      db := moved;
      return Ok(tx.value.1);
    }

    method CopyPrefix(bucket: Str, srcPrefix: Str, dstPrefix: Str, overwrite: bool, now: int, durable: bool)
      returns (r: Result<bool>)
      modifies this
      ensures Transacted(old(db), db, r, CopyPrefixTx(old(db), bucket, srcPrefix, dstPrefix, overwrite, now), durable)
    {
      var tx := CopyPrefixInTx(db, bucket, srcPrefix, dstPrefix, overwrite, now);
      if tx.Err? {
        return Err(tx.error);
      }
      if !durable {
        return Err(IoFailure);
      }
      db := tx.value.0;
      return Ok(tx.value.1);
    }

    method MovePrefix(bucket: Str, srcPrefix: Str, dstPrefix: Str, overwrite: bool, now: int, durable: bool)
      returns (r: Result<bool>)
      modifies this
      ensures Transacted(old(db), db, r, MovePrefixTx(old(db), bucket, srcPrefix, dstPrefix, overwrite, now), durable)
    {
      if srcPrefix == dstPrefix {
        return Err(SameNames);
      }
      var tx := CopyPrefixInTx(db, bucket, srcPrefix, dstPrefix, overwrite, now);
      if tx.Err? {
        return Err(tx.error);
      }
      var moved := DeletePrefixRows(tx.value.0, bucket, srcPrefix);
      if !durable {
        return Err(IoFailure);
      }
      db := moved;
      return Ok(tx.value.1);
    }

    method DeletePrefix(bucket: Str, prefix: Str, durable: bool) returns (r: Result<()>)
      modifies this
      ensures Transacted(old(db), db, r, Ok((DeletePrefixRows(old(db), bucket, prefix), ())), durable)
    {
      var tx := DeletePrefixRows(db, bucket, prefix);
      if !durable {
        return Err(IoFailure);
      }
      db := tx;
      return Ok(());
    }

    method DeleteBucket(bucket: Str, durable: bool) returns (r: Result<()>)
      modifies this
      ensures Transacted(old(db), db, r, Ok((DeleteBucketTx(old(db), bucket), ())), durable)
    {
      var tx := DeleteBucketTx(db, bucket);
      if !durable {
        return Err(IoFailure);
      }
      db := tx;
      return Ok(());
    }

    method RenameBucket(oldName: Str, newName: Str, durable: bool) returns (r: Result<RenameCounts>)
      modifies this
      ensures Transacted(old(db), db, r, RenameBucketTx(old(db), oldName, newName), durable)
    {
      if oldName == newName {
        return Err(SameNames);
      }
      if oldName !in db.buckets {
        return Err(NotFound);
      }
      if newName in db.buckets {
        return Err(DestinationExists);
      }
      var counts := CountRows(db, oldName);
      var others := map b | b in db.buckets && b != oldName :: db.buckets[b];
      var tx := db.(buckets := others[newName := db.buckets[oldName]]);
      if ObjectCollision(tx, oldName, newName) {
        return Err(UniqueConstraint);
      }
      tx := tx.(objects := RelabelObjects(tx.objects, oldName, newName));
      if ChunkCollision(tx, oldName, newName) {
        return Err(UniqueConstraint);
      }
      tx := tx.(chunks := RelabelChunks(tx.chunks, oldName, newName));
      if !durable {
        return Err(IoFailure);
      }
      db := tx;
      return Ok(counts);
    }
  }
}
