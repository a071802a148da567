/** Renaming a bucket across the three tables. */
module BucketRename {
  import opened Bytes
  import opened Results
  import opened Tables
  import opened Transactions

  datatype RenameCounts = RenameCounts(buckets: nat, objects: nat, chunks: nat)

  function RelabelRow(r: RowKey, oldName: Str, newName: Str): RowKey {
    if r.bucket == oldName then RowKey(newName, r.key) else r
  }

  function RelabelChunk(c: ChunkKey, oldName: Str, newName: Str): ChunkKey {
    ChunkKey(RelabelRow(c.row, oldName, newName), c.partNumber)
  }

  /** CountBucketRenameRows. */
  function CountRows(t: Database, name: Str): RenameCounts {
    RenameCounts(
      if name in t.buckets then 1 else 0,
      |set r | r in t.objects && r.bucket == name|,
      |set c | c in t.chunks && c.row.bucket == name|)
  }

  predicate ObjectCollision(t: Database, oldName: Str, newName: Str) {
    exists r | r in t.objects :: r.bucket == oldName && RowKey(newName, r.key) in t.objects
  }

  predicate ChunkCollision(t: Database, oldName: Str, newName: Str) {
    exists c | c in t.chunks ::
      c.row.bucket == oldName && ChunkKey(RowKey(newName, c.row.key), c.partNumber) in t.chunks
  }

  /** UPDATE objects SET bucket = new WHERE bucket = old, when no primary key collides. */
  function RelabelObjects(objects: map<RowKey, ObjectAttrs>, oldName: Str, newName: Str): map<RowKey, ObjectAttrs> {
    var domain := set r | r in objects :: RelabelRow(r, oldName, newName);
    map r | r in domain ::
      if r.bucket == newName && RowKey(oldName, r.key) in objects then objects[RowKey(oldName, r.key)] else objects[r]
  }

  function RelabelChunks(chunks: map<ChunkKey, ChunkAttrs>, oldName: Str, newName: Str): map<ChunkKey, ChunkAttrs> {
    var domain := set c | c in chunks :: RelabelChunk(c, oldName, newName);
    map c | c in domain ::
      var before := ChunkKey(RowKey(oldName, c.row.key), c.partNumber);
      if c.row.bucket == newName && before in chunks then chunks[before] else chunks[c]
  }

  function RenameBucketTx(t: Database, oldName: Str, newName: Str): Result<(Database, RenameCounts)> {
    if oldName == newName then Err(SameNames)
    else if oldName !in t.buckets then Err(NotFound)
    else if newName in t.buckets then Err(DestinationExists)
    else if ObjectCollision(t, oldName, newName) || ChunkCollision(t, oldName, newName) then Err(UniqueConstraint)
    else Ok((Database(
               (map b | b in t.buckets && b != oldName :: t.buckets[b])[newName := t.buckets[oldName]],
               RelabelObjects(t.objects, oldName, newName),
               RelabelChunks(t.chunks, oldName, newName)),
             CountRows(t, oldName)))
  }

  /** When every chunk has its object, chunk keys collide only where object keys do. */
  lemma ChunkCollisionNeedsObjectCollision(t: Database, oldName: Str, newName: Str)
    requires ReferentialIntegrity(t) && ChunkCollision(t, oldName, newName)
    ensures ObjectCollision(t, oldName, newName)
  {
    var c :| c in t.chunks && c.row.bucket == oldName
             && ChunkKey(RowKey(newName, c.row.key), c.partNumber) in t.chunks;
    assert c.row in t.objects;
    assert ChunkKey(RowKey(newName, c.row.key), c.partNumber).row in t.objects;
  }

  /** A rename succeeds exactly when the names differ, only the old one exists, and no object key is taken. */
  lemma RenameSucceedsIff(t: Database, oldName: Str, newName: Str)
    requires ReferentialIntegrity(t)
    ensures RenameBucketTx(t, oldName, newName).Ok? <==>
      && oldName in t.buckets && newName !in t.buckets
      && forall k: Str :: !(RowKey(oldName, k) in t.objects && RowKey(newName, k) in t.objects)
    ensures var r := RenameBucketTx(t, oldName, newName);
      && (r == Err(SameNames) <==> oldName == newName)
      && (r == Err(NotFound) <==> oldName != newName && oldName !in t.buckets)
      && (r == Err(DestinationExists) <==> oldName != newName && oldName in t.buckets && newName in t.buckets)
  {
    if ChunkCollision(t, oldName, newName) {
      ChunkCollisionNeedsObjectCollision(t, oldName, newName);
    }
    if k: Str :| RowKey(oldName, k) in t.objects && RowKey(newName, k) in t.objects {
      assert RowKey(oldName, k).bucket == oldName;
      assert oldName == newName || ObjectCollision(t, oldName, newName);
    }
  }

  lemma RelabelledObject(t: Database, oldName: Str, newName: Str, r: RowKey)
    requires oldName != newName && !ObjectCollision(t, oldName, newName)
    ensures var objects := RelabelObjects(t.objects, oldName, newName);
      && (r.bucket == oldName ==> r !in objects)
      && (r.bucket != oldName && r in t.objects ==> r in objects && objects[r] == t.objects[r])
      && (r.bucket == newName && RowKey(oldName, r.key) in t.objects ==>
            r in objects && objects[r] == t.objects[RowKey(oldName, r.key)])
      && (r in objects ==> r in t.objects || (r.bucket == newName && RowKey(oldName, r.key) in t.objects))
  {
    var from := RowKey(oldName, r.key);
    if r.bucket == newName && from in t.objects {
      assert RelabelRow(from, oldName, newName) == r;
    }
    if r.bucket != oldName && r in t.objects {
      assert RelabelRow(r, oldName, newName) == r;
    }
  }

  lemma RelabelledChunk(t: Database, oldName: Str, newName: Str, c: ChunkKey)
    requires oldName != newName && !ChunkCollision(t, oldName, newName)
    ensures var chunks := RelabelChunks(t.chunks, oldName, newName);
      var from := ChunkKey(RowKey(oldName, c.row.key), c.partNumber);
      && (c.row.bucket == oldName ==> c !in chunks)
      && (c.row.bucket != oldName && c in t.chunks ==> c in chunks && chunks[c] == t.chunks[c])
      && (c.row.bucket == newName && from in t.chunks ==> c in chunks && chunks[c] == t.chunks[from])
      && (c in chunks ==> c in t.chunks || (c.row.bucket == newName && from in t.chunks))
  {
    var from := ChunkKey(RowKey(oldName, c.row.key), c.partNumber);
    if c.row.bucket == newName && from in t.chunks {
      assert RelabelChunk(from, oldName, newName) == c;
    }
    if c.row.bucket != oldName && c in t.chunks {
      assert RelabelChunk(c, oldName, newName) == c;
    }
  }

  /** `t'` is `t` with the bucket's rows carried over to the new name and every other row as it was. */
  ghost predicate Renamed(t: Database, t': Database, oldName: Str, newName: Str) {
    && oldName in t.buckets
    && t'.buckets.Keys == t.buckets.Keys - {oldName} + {newName}
    && t'.buckets[newName] == t.buckets[oldName]
    && (forall b | b in t.buckets && b != oldName :: t'.buckets[b] == t.buckets[b])
    && forall r: RowKey ::
         if r.bucket == oldName then r !in t'.objects && ListChunks(t', r) == []
         else if r.bucket == newName && RowKey(oldName, r.key) in t.objects then
           && r in t'.objects && t'.objects[r] == t.objects[RowKey(oldName, r.key)]
           && ListChunks(t', r) == CopyChunksForKey(ListChunks(t, RowKey(oldName, r.key)), r)
         else
           && (r in t'.objects <==> r in t.objects) && (r in t.objects ==> t'.objects[r] == t.objects[r])
           && ListChunks(t', r) == ListChunks(t, r)
  }

  lemma RenamedChunksThere(t: Database, t': Database, oldName: Str, newName: Str, r: RowKey, c: Chunk)
    requires oldName != newName && !ChunkCollision(t, oldName, newName) &&
      t'.chunks == RelabelChunks(t.chunks, oldName, newName)
    requires r.bucket == newName && c in CopyChunksForKey(ListChunks(t, RowKey(oldName, r.key)), r)
    ensures ChunkRow(c) in t'.chunks && t'.chunks[ChunkRow(c)] == c.attrs
  {
    hide ListChunks, RelabelChunks, ChunkCollision;
    var from := RowKey(oldName, r.key);
    var before := ListChunks(t, from);
    var after := CopyChunksForKey(before, r);
    ListChunksMeaning(t, from);
    var i :| 0 <= i < |after| && after[i] == c;
    assert before[i] in before;
    RelabelledChunk(t, oldName, newName, ChunkRow(c));
  }

  lemma RenamedChunksOnly(t: Database, t': Database, oldName: Str, newName: Str, r: RowKey, ck: ChunkKey)
    requires oldName != newName && !ChunkCollision(t, oldName, newName) &&
      t'.chunks == RelabelChunks(t.chunks, oldName, newName)
    requires r.bucket == newName && ck in t'.chunks && ck.row == r && ck !in t.chunks
    ensures exists c :: c in CopyChunksForKey(ListChunks(t, RowKey(oldName, r.key)), r) && ChunkRow(c) == ck
  {
    hide ListChunks, RelabelChunks, ChunkCollision;
    var from := RowKey(oldName, r.key);
    var before := ListChunks(t, from);
    var after := CopyChunksForKey(before, r);
    ListChunksMeaning(t, from);
    RelabelledChunk(t, oldName, newName, ck);
    var source := ChunkKey(from, ck.partNumber);
    var c := Chunk(from.bucket, from.key, ck.partNumber, t.chunks[source]);
    assert c in before;
    var i :| 0 <= i < |before| && before[i] == c;
    assert after[i] in after && ChunkRow(after[i]) == ck;
  }

  /** The list of a renamed object is its old list under the new key. */
  lemma RenamedList(t: Database, oldName: Str, newName: Str, r: RowKey)
    requires ReferentialIntegrity(t) && RenameBucketTx(t, oldName, newName).Ok?
    requires r.bucket == newName && RowKey(oldName, r.key) in t.objects
    ensures ListChunks(RenameBucketTx(t, oldName, newName).value.0, r)
         == CopyChunksForKey(ListChunks(t, RowKey(oldName, r.key)), r)
  {
    var t' := RenameBucketTx(t, oldName, newName).value.0;
    var from := RowKey(oldName, r.key);
    var after := CopyChunksForKey(ListChunks(t, from), r);
    ListChunksMeaning(t, from);
    RenameSucceedsIff(t, oldName, newName);
    assert r !in t.objects && t'.chunks == RelabelChunks(t.chunks, oldName, newName);
    hide ListChunks, RelabelChunks, ChunkCollision, RenameBucketTx;
    forall c | c in after ensures ChunkRow(c) in t'.chunks && t'.chunks[ChunkRow(c)] == c.attrs {
      RenamedChunksThere(t, t', oldName, newName, r, c);
    }
    forall ck | ck in t'.chunks && ck.row == r ensures exists c :: c in after && ChunkRow(c) == ck {
      RenamedChunksOnly(t, t', oldName, newName, r, ck);
    }
    ListChunksUnique(t', r, after);
  }

  /** A successful rename relabels exactly the old bucket's rows, and counts them as they were before. */
  lemma RenameExact(t: Database, oldName: Str, newName: Str)
    requires ReferentialIntegrity(t) && RenameBucketTx(t, oldName, newName).Ok?
    ensures Renamed(t, RenameBucketTx(t, oldName, newName).value.0, oldName, newName)
    ensures var counts := RenameBucketTx(t, oldName, newName).value.1;
      && counts.buckets == 1
      && counts.objects == |set r | r in t.objects && r.bucket == oldName|
      && counts.chunks == |set c | c in t.chunks && c.row.bucket == oldName|
  {
    var t' := RenameBucketTx(t, oldName, newName).value.0;
    forall r: RowKey
      ensures if r.bucket == oldName then r !in t'.objects && ListChunks(t', r) == []
              else if r.bucket == newName && RowKey(oldName, r.key) in t.objects then
                && r in t'.objects && t'.objects[r] == t.objects[RowKey(oldName, r.key)]
                && ListChunks(t', r) == CopyChunksForKey(ListChunks(t, RowKey(oldName, r.key)), r)
              else
                && (r in t'.objects <==> r in t.objects) && (r in t.objects ==> t'.objects[r] == t.objects[r])
                && ListChunks(t', r) == ListChunks(t, r)
    {
      RelabelledObject(t, oldName, newName, r);
      forall p: int {
        RelabelledChunk(t, oldName, newName, ChunkKey(r, p));
      }
      if r.bucket == oldName {
        assert forall c | c in t'.chunks && c.row == r :: c == ChunkKey(r, c.partNumber);
        ListChunksUnique(t', r, []);
      } else if r.bucket == newName && RowKey(oldName, r.key) in t.objects {
        RenamedList(t, oldName, newName, r);
      } else {
        assert forall p: int | ChunkKey(r, p) in t'.chunks :: ChunkKey(r, p) in t.chunks by {
          assert forall p: int | ChunkKey(RowKey(oldName, r.key), p) in t.chunks :: RowKey(oldName, r.key) in t.objects;
        }
        ListChunksFrame(t, t', r);
      }
    }
  }
}
