/**
 The runs whose invariants are proved are the runs of the store: each operation is its method, called on the object.
 */
module StoreRuns {
  import opened Results
  import opened Tables
  import opened MetadataStore
  import opened Integrity

  /** One call of the store. */
  method Perform(store: SQLiteStore, call: Call)
    modifies store
    ensures store.db == Apply(old(store.db), call)
  {
    hide PutRows, Transactions.CopyObjectTx, Transactions.MoveObjectTx, Transactions.CopyPrefixTx;
    hide Transactions.MovePrefixTx, DeletePrefixRows, DeleteRows, Transactions.DeleteBucketTx;
    hide BucketRename.RenameBucketTx;
    match call.op {
      case UpsertBucket(name, row) => var _ := store.UpsertBucket(name, row, call.durable);
      case PutObject(obj, chunks) => var _ := store.PutObject(obj, chunks, call.durable);
      case DeleteObject(bucket, key) => var _ := store.DeleteObject(bucket, key, call.durable);
      case CopyObject(bucket, src, dst, overwrite, now) =>
        var _ := store.CopyObject(bucket, src, dst, overwrite, now, call.durable);
      case MoveObject(bucket, src, dst, overwrite, now) =>
        var _ := store.MoveObject(bucket, src, dst, overwrite, now, call.durable);
      case CopyPrefix(bucket, src, dst, overwrite, now) =>
        var _ := store.CopyPrefix(bucket, src, dst, overwrite, now, call.durable);
      case MovePrefix(bucket, src, dst, overwrite, now) =>
        var _ := store.MovePrefix(bucket, src, dst, overwrite, now, call.durable);
      case DeletePrefix(bucket, prefix) => var _ := store.DeletePrefix(bucket, prefix, call.durable);
      case DeleteBucket(bucket) => var _ := store.DeleteBucket(bucket, call.durable);
      case RenameBucket(oldName, newName) => var _ := store.RenameBucket(oldName, newName, call.durable);
    }
  }

  /** A run of calls. */
  method PerformAll(store: SQLiteStore, calls: seq<Call>)
    modifies store
    ensures store.db == Run(old(store.db), calls)
  {
    hide Apply;
    for i := 0 to |calls|
      invariant store.db == Run(old(store.db), calls[..i])
    {
      assert calls[..i + 1][..i] == calls[..i];
      Perform(store, calls[i]);
    }
    assert calls[..|calls|] == calls;
  }
}
