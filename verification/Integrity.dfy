/** The metadata store as a state machine: what holds in every state that a run of operations reaches. */
module Integrity {
  import opened Bytes
  import opened Like
  import opened Results
  import opened Tables
  import opened Transactions
  import opened PrefixOps
  import opened BucketRename

  datatype Op =
    | UpsertBucket(name: Str, row: BucketRow)
    | PutObject(obj: Object, chunks: seq<Chunk>)
    | DeleteObject(bucket: Str, key: Str)
    | CopyObject(bucket: Str, srcKey: Str, dstKey: Str, overwrite: bool, now: int)
    | MoveObject(bucket: Str, srcKey: Str, dstKey: Str, overwrite: bool, now: int)
    | CopyPrefix(bucket: Str, srcPrefix: Str, dstPrefix: Str, overwrite: bool, now: int)
    | MovePrefix(bucket: Str, srcPrefix: Str, dstPrefix: Str, overwrite: bool, now: int)
    | DeletePrefix(bucket: Str, prefix: Str)
    | DeleteBucket(bucket: Str)
    | RenameBucket(oldName: Str, newName: Str)

  function First<X>(r: Result<(Database, X)>): Result<Database> {
    match r
    case Err(e) => Err(e)
    case Ok((u, _)) => Ok(u)
  }

  /** The state an operation's transaction would commit. */
  function Effect(t: Database, op: Op): Result<Database> {
    match op
    case UpsertBucket(name, row) => Ok(t.(buckets := t.buckets[name := row]))
    case PutObject(obj, chunks) => PutRows(t, obj, chunks)
    case DeleteObject(bucket, key) => Ok(DeleteRows(t, RowKey(bucket, key)))
    case CopyObject(bucket, src, dst, overwrite, now) => First(CopyObjectTx(t, bucket, src, dst, overwrite, now))
    case MoveObject(bucket, src, dst, overwrite, now) => First(MoveObjectTx(t, bucket, src, dst, overwrite, now))
    case CopyPrefix(bucket, src, dst, overwrite, now) => First(CopyPrefixTx(t, bucket, src, dst, overwrite, now))
    case MovePrefix(bucket, src, dst, overwrite, now) => First(MovePrefixTx(t, bucket, src, dst, overwrite, now))
    case DeletePrefix(bucket, prefix) => Ok(DeletePrefixRows(t, bucket, prefix))
    case DeleteBucket(bucket) => Ok(DeleteBucketTx(t, bucket))
    case RenameBucket(oldName, newName) => First(RenameBucketTx(t, oldName, newName))
  }

  /** One call, whose transaction either commits or (`durable` false, or an error) rolls back. */
  datatype Call = Call(op: Op, durable: bool)

  function Apply(t: Database, call: Call): Database {
    match Effect(t, call.op)
    case Err(_) => t
    case Ok(u) => if call.durable then u else t
  }

  function Run(t: Database, calls: seq<Call>): Database {
    if |calls| == 0 then t else Apply(Run(t, calls[..|calls| - 1]), calls[|calls| - 1])
  }

  const EMPTY := Database(map[], map[], map[])

  /** Every caller passes PutObject chunk rows of the object's own key, in part order. */
  ghost predicate WritesOwnChunks(op: Op) {
    op.PutObject? ==> AscendingParts(op.chunks) && BelongTo(op.chunks, ObjectRow(op.obj))
  }

  // ---------------------------------------------------------------------------------------------
  // Referential integrity
  // ---------------------------------------------------------------------------------------------

  /** PutObject keeps every chunk attached to an object exactly when its chunk rows are. */
  lemma PutKeepsIntegrityIff(t: Database, o: Object, chunks: seq<Chunk>)
    requires ReferentialIntegrity(t) && PutRows(t, o, chunks).Ok?
    ensures ReferentialIntegrity(PutRows(t, o, chunks).value) <==>
      forall c | c in chunks :: ChunkRow(c).row == ObjectRow(o) || ChunkRow(c).row in t.objects
  {
    var cleared := UpsertObjectRow(DeleteChunkRows(t, ObjectRow(o)), o);
    InsertChunkRowsEffect(cleared, chunks);
    var u := PutRows(t, o, chunks).value;
    if forall c | c in chunks :: ChunkRow(c).row == ObjectRow(o) || ChunkRow(c).row in t.objects {
      forall ck | ck in u.chunks ensures ck.row in u.objects {
        if ck !in cleared.chunks {
          var c :| c in chunks && ChunkRow(c) == ck;
        }
      }
    } else {
      var c :| c in chunks && ChunkRow(c).row != ObjectRow(o) && ChunkRow(c).row !in t.objects;
      assert ChunkRow(c) in u.chunks;
    }
  }

  lemma CopyRowKeepsIntegrity(t: Database, src: Object, srcPrefix: Str, dstPrefix: Str, overwrite: bool, now: int)
    requires ReferentialIntegrity(t)
    ensures var r := CopyRow(t, src, srcPrefix, dstPrefix, overwrite, now);
      r.Ok? ==> ReferentialIntegrity(r.value.0)
  {
    CopyRowEffect(t, src, srcPrefix, dstPrefix, overwrite, now);
    var r := CopyRow(t, src, srcPrefix, dstPrefix, overwrite, now);
    if r.Ok? {
      var dst := RowKey(src.bucket, ImageKey(src.key, srcPrefix, dstPrefix));
      ReplacedKeepsIntegrity(t, r.value.0, dst, src.attrs.(lastModified := now),
                             CopyChunksForKey(ListChunks(t, ObjectRow(src)), dst));
    }
  }

  /** However source and destination overlap, the copy loop leaves no orphan chunk. */
  lemma {:induction false} CopyRowsKeepIntegrity(
    t: Database, rows: seq<Object>, srcPrefix: Str, dstPrefix: Str, overwrite: bool, now: int)
    requires ReferentialIntegrity(t)
    ensures var r := CopyRows(t, rows, srcPrefix, dstPrefix, overwrite, now);
      r.Ok? ==> ReferentialIntegrity(r.value.0)
  {
    if |rows| > 0 {
      var n := |rows| - 1;
      CopyRowsKeepIntegrity(t, rows[..n], srcPrefix, dstPrefix, overwrite, now);
      var before := CopyRows(t, rows[..n], srcPrefix, dstPrefix, overwrite, now);
      if before.Ok? {
        CopyRowKeepsIntegrity(before.value.0, rows[n], srcPrefix, dstPrefix, overwrite, now);
      }
    }
  }

  lemma CopyObjectKeepsIntegrity(t: Database, bucket: Str, src: Str, dst: Str, overwrite: bool, now: int)
    requires ReferentialIntegrity(t) && CopyObjectTx(t, bucket, src, dst, overwrite, now).Ok?
    ensures ReferentialIntegrity(CopyObjectTx(t, bucket, src, dst, overwrite, now).value.0)
  {
    CopyObjectEffect(t, bucket, src, dst, overwrite, now);
    ReplacedKeepsIntegrity(t, CopyObjectTx(t, bucket, src, dst, overwrite, now).value.0, RowKey(bucket, dst),
                           t.objects[RowKey(bucket, src)].(lastModified := now),
                           CopyChunksForKey(ListChunks(t, RowKey(bucket, src)), RowKey(bucket, dst)));
  }

  lemma RenameKeepsIntegrity(t: Database, oldName: Str, newName: Str)
    requires ReferentialIntegrity(t) && RenameBucketTx(t, oldName, newName).Ok?
    ensures ReferentialIntegrity(RenameBucketTx(t, oldName, newName).value.0)
  {
    var t' := RenameBucketTx(t, oldName, newName).value.0;
    forall c | c in t'.chunks ensures c.row in t'.objects {
      RelabelledChunk(t, oldName, newName, c);
      RelabelledObject(t, oldName, newName, c.row);
      var from := ChunkKey(RowKey(oldName, c.row.key), c.partNumber);
      if c.row.bucket == newName && from in t.chunks {
        assert from.row in t.objects;
      }
    }
  }

  lemma EffectKeepsIntegrity(t: Database, op: Op)
    requires ReferentialIntegrity(t) && WritesOwnChunks(op) && Effect(t, op).Ok?
    ensures ReferentialIntegrity(Effect(t, op).value)
  {
    hide PutRows, CopyObjectTx, CopyRows, SelectPrefix, RenameBucketTx, RowReplaced, KeyLike, ListChunks;
    match op {
      case UpsertBucket(_, _) =>
      case PutObject(obj, chunks) =>
        PutRowsEffect(t, obj, chunks);
        ReplacedKeepsIntegrity(t, PutRows(t, obj, chunks).value, ObjectRow(obj), obj.attrs, chunks);
      case DeleteObject(bucket, key) =>
      case CopyObject(bucket, src, dst, overwrite, now) =>
        CopyObjectKeepsIntegrity(t, bucket, src, dst, overwrite, now);
      case MoveObject(bucket, src, dst, overwrite, now) =>
        CopyObjectKeepsIntegrity(t, bucket, src, dst, overwrite, now);
      case CopyPrefix(bucket, src, dst, overwrite, now) =>
        CopyRowsKeepIntegrity(t, SelectPrefix(t, bucket, src), src, dst, overwrite, now);
      case MovePrefix(bucket, src, dst, overwrite, now) =>
        CopyRowsKeepIntegrity(t, SelectPrefix(t, bucket, src), src, dst, overwrite, now);
      case DeletePrefix(bucket, prefix) =>
      case DeleteBucket(bucket) =>
      case RenameBucket(oldName, newName) =>
        RenameKeepsIntegrity(t, oldName, newName);
    }
  }

  /** In every reachable state each chunk row has its object row, whatever prefixes were copied or moved. */
  lemma {:induction false} RunsKeepIntegrity(calls: seq<Call>)
    requires forall i | 0 <= i < |calls| :: WritesOwnChunks(calls[i].op)
    ensures ReferentialIntegrity(Run(EMPTY, calls))
  {
    if |calls| > 0 {
      var n := |calls| - 1;
      RunsKeepIntegrity(calls[..n]);
      var t := Run(EMPTY, calls[..n]);
      if Effect(t, calls[n].op).Ok? {
        EffectKeepsIntegrity(t, calls[n].op);
      }
    }
  }

  // ---------------------------------------------------------------------------------------------
  // Tiling
  // ---------------------------------------------------------------------------------------------

  /** What an operation must respect for chunk lists to go on tiling their objects. */
  ghost predicate TilingSafe(t: Database, op: Op) {
    match op
    case PutObject(obj, chunks) => TiledBy(chunks, obj.attrs)
    case CopyPrefix(bucket, src, dst, _, _) => NoOverlap(t, bucket, src, dst)
    case MovePrefix(bucket, src, dst, _, _) => NoOverlap(t, bucket, src, dst)
    case _ => true
  }

  lemma CopyRowKeepsTiling(t: Database, src: Object, srcPrefix: Str, dstPrefix: Str, overwrite: bool, now: int)
    requires AllTiled(t) && TiledBy(ListChunks(t, ObjectRow(src)), src.attrs)
    ensures var r := CopyRow(t, src, srcPrefix, dstPrefix, overwrite, now);
      r.Ok? ==> AllTiled(r.value.0)
  {
    CopyRowEffect(t, src, srcPrefix, dstPrefix, overwrite, now);
    var r := CopyRow(t, src, srcPrefix, dstPrefix, overwrite, now);
    if r.Ok? {
      var dst := RowKey(src.bucket, ImageKey(src.key, srcPrefix, dstPrefix));
      var list := ListChunks(t, ObjectRow(src));
      TilingRelabel(list, dst, src.attrs.size);
      ReplacedKeepsTiling(t, r.value.0, dst, src.attrs.(lastModified := now), CopyChunksForKey(list, dst));
    }
  }

  /** After the first `n` turns everything still tiles, and the rows still to come have their chunks as first read. */
  lemma {:induction false} CopyRowsKeepTiling(
    t: Database, rows: seq<Object>, n: nat, srcPrefix: Str, dstPrefix: Str, overwrite: bool, now: int)
    requires n <= |rows| && AllTiled(t)
    requires forall i | 0 <= i < |rows| :: TiledBy(ListChunks(t, ObjectRow(rows[i])), rows[i].attrs)
    requires forall i, j | 0 <= i < |rows| && 0 <= j < |rows| ::
      RowKey(rows[i].bucket, ImageKey(rows[i].key, srcPrefix, dstPrefix)) == ObjectRow(rows[j]) ==> j <= i
    ensures var r := CopyRows(t, rows[..n], srcPrefix, dstPrefix, overwrite, now);
      r.Ok? ==>
        && AllTiled(r.value.0)
        && forall j | n <= j < |rows| :: ListChunks(r.value.0, ObjectRow(rows[j])) == ListChunks(t, ObjectRow(rows[j]))
  {
    if n > 0 {
      CopyRowsKeepTiling(t, rows, n - 1, srcPrefix, dstPrefix, overwrite, now);
      assert rows[..n][..n - 1] == rows[..n - 1];
      var before := CopyRows(t, rows[..n - 1], srcPrefix, dstPrefix, overwrite, now);
      if before.Ok? {
        var u := before.value.0;
        CopyRowKeepsTiling(u, rows[n - 1], srcPrefix, dstPrefix, overwrite, now);
        CopyRowEffect(u, rows[n - 1], srcPrefix, dstPrefix, overwrite, now);
      }
    }
  }

  lemma CopyPrefixKeepsTiling(t: Database, bucket: Str, srcPrefix: Str, dstPrefix: Str, overwrite: bool, now: int)
    requires AllTiled(t) && NoOverlap(t, bucket, srcPrefix, dstPrefix)
    ensures var r := CopyPrefixTx(t, bucket, srcPrefix, dstPrefix, overwrite, now);
      r.Ok? ==> AllTiled(r.value.0)
  {
    var rows := SelectPrefix(t, bucket, srcPrefix);
    SelectPrefixMeaning(t, bucket, srcPrefix);
    forall i, j | 0 <= i < |rows| && 0 <= j < |rows|
                  && RowKey(rows[i].bucket, ImageKey(rows[i].key, srcPrefix, dstPrefix)) == ObjectRow(rows[j])
      ensures j <= i
    {
      assert rows[j].key in MatchingKeys(t, bucket, srcPrefix) && rows[i].key in MatchingKeys(t, bucket, srcPrefix);
      assert AtMost(rows[j].key, rows[i].key);
      if i < j {
        LessAsymmetric(rows[i].key, rows[j].key);
      }
    }
    CopyRowsKeepTiling(t, rows, |rows|, srcPrefix, dstPrefix, overwrite, now);
    assert rows[..|rows|] == rows;
  }

  lemma CopyObjectKeepsTiling(t: Database, bucket: Str, src: Str, dst: Str, overwrite: bool, now: int)
    requires AllTiled(t) && CopyObjectTx(t, bucket, src, dst, overwrite, now).Ok?
    ensures AllTiled(CopyObjectTx(t, bucket, src, dst, overwrite, now).value.0)
  {
    CopyObjectEffect(t, bucket, src, dst, overwrite, now);
    var attrs := t.objects[RowKey(bucket, src)];
    TilingRelabel(ListChunks(t, RowKey(bucket, src)), RowKey(bucket, dst), attrs.size);
    ReplacedKeepsTiling(t, CopyObjectTx(t, bucket, src, dst, overwrite, now).value.0, RowKey(bucket, dst),
                        attrs.(lastModified := now),
                        CopyChunksForKey(ListChunks(t, RowKey(bucket, src)), RowKey(bucket, dst)));
  }

  lemma RenameKeepsTiling(t: Database, oldName: Str, newName: Str)
    requires ReferentialIntegrity(t) && AllTiled(t) && RenameBucketTx(t, oldName, newName).Ok?
    ensures AllTiled(RenameBucketTx(t, oldName, newName).value.0)
  {
    RenameExact(t, oldName, newName);
    var t' := RenameBucketTx(t, oldName, newName).value.0;
    forall r | r in t'.objects ensures TiledBy(ListChunks(t', r), t'.objects[r]) {
      var from := RowKey(oldName, r.key);
      if r.bucket == newName && from in t.objects {
        TilingRelabel(ListChunks(t, from), r, t.objects[from].size);
      }
    }
  }

  /** `u` has nothing but objects of `t`, with their chunks. */
  ghost predicate Shrunk(t: Database, u: Database) {
    forall r | r in u.objects :: r in t.objects && u.objects[r] == t.objects[r] && ListChunks(u, r) == ListChunks(t, r)
  }

  lemma DeletionsShrink(t: Database, bucket: Str, key: Str)
    ensures Shrunk(t, DeleteRows(t, RowKey(bucket, key)))
    ensures Shrunk(t, DeletePrefixRows(t, bucket, key))
    ensures Shrunk(t, DeleteBucketTx(t, bucket))
  {
    forall r: RowKey { DeleteRowsEffect(t, RowKey(bucket, key), r); }
    forall r: RowKey { DeletePrefixEffect(t, bucket, key, r); }
    forall r: RowKey { DeleteBucketEffect(t, bucket, r); }
  }

  lemma CopiesKeepTiling(t: Database, op: Op)
    requires AllTiled(t) && WritesOwnChunks(op) && TilingSafe(t, op) && Effect(t, op).Ok?
    requires op.PutObject? || op.CopyObject? || op.CopyPrefix?
    ensures AllTiled(Effect(t, op).value)
  {
    match op {
      case PutObject(obj, chunks) =>
        PutRowsEffect(t, obj, chunks);
        ReplacedKeepsTiling(t, PutRows(t, obj, chunks).value, ObjectRow(obj), obj.attrs, chunks);
      case CopyObject(bucket, src, dst, overwrite, now) =>
        CopyObjectKeepsTiling(t, bucket, src, dst, overwrite, now);
      case CopyPrefix(bucket, src, dst, overwrite, now) =>
        CopyPrefixKeepsTiling(t, bucket, src, dst, overwrite, now);
    }
  }

  lemma EffectKeepsTiling(t: Database, op: Op)
    requires ReferentialIntegrity(t) && AllTiled(t)
    requires WritesOwnChunks(op) && TilingSafe(t, op) && Effect(t, op).Ok?
    ensures AllTiled(Effect(t, op).value)
  {
    hide PutRows, CopyObjectTx, CopyRows, SelectPrefix, RenameBucketTx, KeyLike, ListChunks, TiledBy, DeleteRows;
    hide DeletePrefixRows, DeleteBucketTx;
    match op {
      case UpsertBucket(name, row) =>
        forall r { ListChunksFrame(t, Effect(t, op).value, r); }
      case DeleteObject(bucket, key) =>
        DeletionsShrink(t, bucket, key);
      case MoveObject(bucket, src, dst, overwrite, now) =>
        CopiesKeepTiling(t, CopyObject(bucket, src, dst, overwrite, now));
        DeletionsShrink(CopyObjectTx(t, bucket, src, dst, overwrite, now).value.0, bucket, src);
      case MovePrefix(bucket, src, dst, overwrite, now) =>
        CopiesKeepTiling(t, CopyPrefix(bucket, src, dst, overwrite, now));
        DeletionsShrink(CopyPrefixTx(t, bucket, src, dst, overwrite, now).value.0, bucket, src);
      case DeletePrefix(bucket, prefix) =>
        DeletionsShrink(t, bucket, prefix);
      case DeleteBucket(bucket) =>
        DeletionsShrink(t, bucket, []);
      case RenameBucket(oldName, newName) =>
        RenameKeepsTiling(t, oldName, newName);
      case _ =>
        CopiesKeepTiling(t, op);
    }
  }

  /**
   In every state reached by safe operations, each object's chunks are 1..ChunkCount, end to end, adding up to its
   size.
   */
  lemma {:induction false} RunsKeepTiling(calls: seq<Call>)
    requires forall i | 0 <= i < |calls| ::
      WritesOwnChunks(calls[i].op) && TilingSafe(Run(EMPTY, calls[..i]), calls[i].op)
    ensures AllTiled(Run(EMPTY, calls))
  {
    if |calls| > 0 {
      var n := |calls| - 1;
      assert Run(EMPTY, calls) == Apply(Run(EMPTY, calls[..n]), calls[n]);
      hide Run;
      forall i | 0 <= i < n
        ensures WritesOwnChunks(calls[..n][i].op) && TilingSafe(Run(EMPTY, calls[..n][..i]), calls[..n][i].op)
      {
        assert calls[..n][..i] == calls[..i];
      }
      RunsKeepTiling(calls[..n]);
      RunsKeepIntegrity(calls[..n]);
      hide Effect, AllTiled, ReferentialIntegrity, TilingSafe, WritesOwnChunks;
      var t := Run(EMPTY, calls[..n]);
      if Effect(t, calls[n].op).Ok? {
        EffectKeepsTiling(t, calls[n].op);
      }
    }
  }
}
