/**
 The metadata database: its three tables as maps from primary key to row, and the SQL statements of
 metadata/sqlite.go as functions on them.
 */
module Tables {
  import opened Bytes
  import opened Like
  import opened Results

  datatype BucketRow = BucketRow(chatId: Str, createdAt: int, enabled: bool)

  datatype ObjectAttrs = ObjectAttrs(
    size: int, contentType: Str, etag: Str, sha256: Str, lastModified: int,
    chunkCount: int, telegramType: Str, uploadStrategy: Str)

  datatype Object = Object(bucket: Str, key: Str, attrs: ObjectAttrs)

  datatype ChunkAttrs = ChunkAttrs(
    offset: int, size: int, telegramType: Str, telegramFileId: Str,
    telegramMessageId: int, telegramFileUniqueId: Str, sha256: Str)

  datatype Chunk = Chunk(bucket: Str, key: Str, partNumber: int, attrs: ChunkAttrs)

  datatype RowKey = RowKey(bucket: Str, key: Str)

  datatype ChunkKey = ChunkKey(row: RowKey, partNumber: int)

  datatype Database = Database(
    buckets: map<Str, BucketRow>,
    objects: map<RowKey, ObjectAttrs>,
    chunks: map<ChunkKey, ChunkAttrs>)

  function ObjectRow(o: Object): RowKey { RowKey(o.bucket, o.key) }

  function ChunkRow(c: Chunk): ChunkKey { ChunkKey(RowKey(c.bucket, c.key), c.partNumber) }

  // ---------------------------------------------------------------------------------------------
  // SELECT ... FROM object_chunks ... ORDER BY part_number
  // ---------------------------------------------------------------------------------------------

  ghost predicate AscendingInts(s: seq<int>) {
    forall i, j | 0 <= i < j < |s| :: s[i] < s[j]
  }

  predicate IsLeastInt(k: int, s: set<int>) {
    k in s && forall x | x in s :: k <= x
  }

  lemma LeastIntExists(s: set<int>)
    requires s != {}
    ensures exists k :: IsLeastInt(k, s)
  {
    if forall x: int :: x !in s {
      assert false;
    }
    var k: int :| k in s;
    var rest := s - {k};
    if rest == {} {
      assert s == {k};
      assert IsLeastInt(k, s);
    } else {
      LeastIntExists(rest);
      var m :| IsLeastInt(m, rest);
      assert forall x | x in s :: x == k || x in rest;
      assert IsLeastInt(if m < k then m else k, s);
    }
  }

  function SortInts(s: set<int>): (sorted: seq<int>)
    ensures AscendingInts(sorted)
    ensures forall k :: k in sorted <==> k in s
  {
    if s == {} then [] else
      LeastIntExists(s);
      var k :| IsLeastInt(k, s);
      var rest := SortInts(s - {k});
      assert forall x | x in rest :: k < x;
      [k] + rest
  }

  lemma {:induction false} AscendingIntsUnique(a: seq<int>, b: seq<int>)
    requires AscendingInts(a) && AscendingInts(b)
    requires forall k :: k in a <==> k in b
    ensures a == b
  {
    forall i | 0 <= i < |a| ensures a[i] in b { assert a[i] in a; }
    forall i | 0 <= i < |b| ensures b[i] in a { assert b[i] in b; }
    assert |a| > 0 ==> a[0] in b;
    assert |b| > 0 ==> b[0] in a;
    if |a| > 0 && |b| > 0 {
      assert a[0] == b[0];
      forall k ensures k in a[1..] <==> k in b[1..] {
        assert k in a <==> k == a[0] || k in a[1..];
        assert k in b <==> k == b[0] || k in b[1..];
        if k == a[0] {
          assert k !in a[1..] && k !in b[1..];
        }
      }
      AscendingIntsUnique(a[1..], b[1..]);
      assert a == [a[0]] + a[1..] && b == [b[0]] + b[1..];
    }
  }

  function PartNumbers(t: Database, row: RowKey): (parts: set<int>) {
    set c | c in t.chunks && c.row == row :: c.partNumber
  }

  lemma PartNumbersMember(t: Database, row: RowKey, part: int)
    ensures part in PartNumbers(t, row) <==> ChunkKey(row, part) in t.chunks
  {
    if ChunkKey(row, part) in t.chunks {
      assert ChunkKey(row, part).partNumber in PartNumbers(t, row);
    }
  }

  /** listChunksInTx: the chunk rows of one object, by part number. */
  function ListChunks(t: Database, row: RowKey): (chunks: seq<Chunk>) {
    var parts := SortInts(PartNumbers(t, row));
    seq(|parts|, i requires 0 <= i < |parts| =>
      PartNumbersMember(t, row, parts[i]);
      Chunk(row.bucket, row.key, parts[i], t.chunks[ChunkKey(row, parts[i])]))
  }

  ghost predicate AscendingParts(chunks: seq<Chunk>) {
    forall i, j | 0 <= i < j < |chunks| :: chunks[i].partNumber < chunks[j].partNumber
  }

  ghost predicate BelongTo(chunks: seq<Chunk>, row: RowKey) {
    forall i | 0 <= i < |chunks| :: RowKey(chunks[i].bucket, chunks[i].key) == row
  }

  lemma ListChunksMeaning(t: Database, row: RowKey)
    ensures AscendingParts(ListChunks(t, row)) && BelongTo(ListChunks(t, row), row)
    ensures forall c | c in ListChunks(t, row) :: ChunkRow(c) in t.chunks && t.chunks[ChunkRow(c)] == c.attrs
    ensures forall ck | ck in t.chunks && ck.row == row ::
      Chunk(row.bucket, row.key, ck.partNumber, t.chunks[ck]) in ListChunks(t, row)
  {
    var parts := SortInts(PartNumbers(t, row));
    forall ck | ck in t.chunks && ck.row == row
      ensures Chunk(row.bucket, row.key, ck.partNumber, t.chunks[ck]) in ListChunks(t, row)
    {
      assert ck == ChunkKey(row, ck.partNumber);
      PartNumbersMember(t, row, ck.partNumber);
      var i :| 0 <= i < |parts| && parts[i] == ck.partNumber;
      assert ListChunks(t, row)[i].partNumber == ck.partNumber;
    }
    forall c | c in ListChunks(t, row) ensures ChunkRow(c) in t.chunks && t.chunks[ChunkRow(c)] == c.attrs {
      var i :| 0 <= i < |parts| && ListChunks(t, row)[i] == c;
      PartNumbersMember(t, row, parts[i]);
    }
  }

  /** Any part-ordered list that holds exactly an object's chunk rows is the list the query returns. */
  lemma ListChunksUnique(t: Database, row: RowKey, chunks: seq<Chunk>)
    requires AscendingParts(chunks) && BelongTo(chunks, row)
    requires forall c | c in chunks :: ChunkRow(c) in t.chunks && t.chunks[ChunkRow(c)] == c.attrs
    requires forall ck | ck in t.chunks && ck.row == row :: exists c :: c in chunks && ChunkRow(c) == ck
    ensures ListChunks(t, row) == chunks
  {
    var parts := SortInts(PartNumbers(t, row));
    var given := seq(|chunks|, i requires 0 <= i < |chunks| => chunks[i].partNumber);
    forall p ensures p in parts <==> p in given {
      PartNumbersMember(t, row, p);
      if p in parts {
        var c :| c in chunks && ChunkRow(c) == ChunkKey(row, p);
        var i :| 0 <= i < |chunks| && chunks[i] == c;
        assert given[i] == p;
      }
      if p in given {
        var i :| 0 <= i < |given| && given[i] == p;
        assert chunks[i] in chunks;
        assert ChunkRow(chunks[i]) == ChunkKey(row, p);
      }
    }
    AscendingIntsUnique(parts, given);
    forall i | 0 <= i < |chunks| ensures ListChunks(t, row)[i] == chunks[i] {
      assert chunks[i] in chunks;
      assert ChunkRow(chunks[i]) == ChunkKey(row, parts[i]);
    }
  }

  /** Tables that agree on one object's chunk rows list the same chunks for it. */
  lemma ListChunksFrame(t: Database, t': Database, row: RowKey)
    requires forall p: int :: ChunkKey(row, p) in t.chunks <==> ChunkKey(row, p) in t'.chunks
    requires forall p: int | ChunkKey(row, p) in t.chunks :: t'.chunks[ChunkKey(row, p)] == t.chunks[ChunkKey(row, p)]
    ensures ListChunks(t', row) == ListChunks(t, row)
  {
    ListChunksMeaning(t, row);
    forall c | c in ListChunks(t, row) ensures ChunkRow(c) in t'.chunks && t'.chunks[ChunkRow(c)] == c.attrs {
      assert ChunkRow(c) == ChunkKey(row, c.partNumber);
    }
    forall ck | ck in t'.chunks && ck.row == row
      ensures exists c :: c in ListChunks(t, row) && ChunkRow(c) == ck
    {
      assert ck == ChunkKey(row, ck.partNumber);
      assert ck in t.chunks;
      assert ChunkRow(Chunk(row.bucket, row.key, ck.partNumber, t.chunks[ck])) == ck;
    }
    ListChunksUnique(t', row, ListChunks(t, row));
  }

  // ---------------------------------------------------------------------------------------------
  // SELECT ... FROM objects WHERE bucket = ? AND key LIKE ? [AND key > ?] ORDER BY key [LIMIT ?]
  // ---------------------------------------------------------------------------------------------

  function MatchingKeys(t: Database, bucket: Str, prefix: Str): (keys: set<Str>) {
    set r | r in t.objects && r.bucket == bucket && KeyLike(r.key, prefix) :: r.key
  }

  lemma MatchingKeysMember(t: Database, bucket: Str, prefix: Str, key: Str)
    ensures key in MatchingKeys(t, bucket, prefix) <==>
      RowKey(bucket, key) in t.objects && Fold(prefix) <= Fold(key)
  {
    KeyLikeIsFoldedPrefix(key, prefix);
    if RowKey(bucket, key) in t.objects && KeyLike(key, prefix) {
      assert RowKey(bucket, key).key in MatchingKeys(t, bucket, prefix);
    }
  }

  function KeysAfter(keys: set<Str>, afterKey: Str): (later: set<Str>) {
    set k | k in keys && Less(afterKey, k)
  }

  function RowsOf(t: Database, bucket: Str, keys: seq<Str>): (rows: seq<Object>)
    requires forall k | k in keys :: RowKey(bucket, k) in t.objects
    ensures |rows| == |keys|
    ensures forall i | 0 <= i < |rows| :: rows[i] == Object(bucket, keys[i], t.objects[RowKey(bucket, keys[i])])
  {
    seq(|keys|, i requires 0 <= i < |keys| => Object(bucket, keys[i], t.objects[RowKey(bucket, keys[i])]))
  }

  /** Every object row under a prefix, in key order (the query of copyPrefixInTx). */
  function SelectPrefix(t: Database, bucket: Str, prefix: Str): seq<Object>
  {
    var keys := SortKeys(MatchingKeys(t, bucket, prefix));
    assert forall i | 0 <= i < |keys| :: keys[i] in keys;
    RowsOf(t, bucket, keys)
  }

  /** Every object row under a prefix and past a cursor, in key order. */
  function SelectAfter(t: Database, bucket: Str, prefix: Str, afterKey: Str): seq<Object>
  {
    var keys := SortKeys(KeysAfter(MatchingKeys(t, bucket, prefix), afterKey));
    assert forall i | 0 <= i < |keys| :: keys[i] in keys;
    RowsOf(t, bucket, keys)
  }

  // ---------------------------------------------------------------------------------------------
  // DELETE, INSERT, UPSERT and UPDATE
  // ---------------------------------------------------------------------------------------------

  function DeleteChunkRows(t: Database, row: RowKey): Database {
    t.(chunks := map c | c in t.chunks && c.row != row :: t.chunks[c])
  }

  function DeleteObjectRow(t: Database, row: RowKey): Database {
    t.(objects := map r | r in t.objects && r != row :: t.objects[r])
  }

  function UpsertObjectRow(t: Database, o: Object): Database {
    t.(objects := t.objects[ObjectRow(o) := o.attrs])
  }

  function InsertChunkRow(t: Database, c: Chunk): Result<Database> {
    if ChunkRow(c) in t.chunks then Err(UniqueConstraint)
    else Ok(t.(chunks := t.chunks[ChunkRow(c) := c.attrs]))
  }

  function InsertChunkRows(t: Database, chunks: seq<Chunk>): Result<Database> {
    if |chunks| == 0 then Ok(t) else
      match InsertChunkRows(t, chunks[..|chunks| - 1])
      case Err(e) => Err(e)
      case Ok(u) => InsertChunkRow(u, chunks[|chunks| - 1])
  }

  /** The body shared by PutObject and putObjectInTx. */
  function PutRows(t: Database, o: Object, chunks: seq<Chunk>): Result<Database> {
    InsertChunkRows(UpsertObjectRow(DeleteChunkRows(t, ObjectRow(o)), o), chunks)
  }

  function DeleteRows(t: Database, row: RowKey): Database {
    DeleteObjectRow(DeleteChunkRows(t, row), row)
  }

  /** deletePrefixInTx. */
  function DeletePrefixRows(t: Database, bucket: Str, prefix: Str): Database {
    t.(chunks := map c | c in t.chunks && !(c.row.bucket == bucket && KeyLike(c.row.key, prefix)) :: t.chunks[c],
       objects := map r | r in t.objects && !(r.bucket == bucket && KeyLike(r.key, prefix)) :: t.objects[r])
  }

  /** copyChunksForKey. */
  function CopyChunksForKey(chunks: seq<Chunk>, row: RowKey): (copied: seq<Chunk>)
    ensures |copied| == |chunks|
    ensures forall i | 0 <= i < |copied| ::
      copied[i] == Chunk(row.bucket, row.key, chunks[i].partNumber, chunks[i].attrs)
  {
    seq(|chunks|, i requires 0 <= i < |chunks| =>
      Chunk(row.bucket, row.key, chunks[i].partNumber, chunks[i].attrs))
  }

  // ---------------------------------------------------------------------------------------------
  // What an upsert with its own chunk rows does
  // ---------------------------------------------------------------------------------------------

  ghost predicate DistinctRows(chunks: seq<Chunk>) {
    forall i, j | 0 <= i < j < |chunks| :: ChunkRow(chunks[i]) != ChunkRow(chunks[j])
  }

  /** `u` is `t` with exactly these chunk rows added. */
  ghost predicate Inserted(t: Database, u: Database, chunks: seq<Chunk>) {
    && u.buckets == t.buckets && u.objects == t.objects
    && (forall c | c in chunks :: ChunkRow(c) in u.chunks && u.chunks[ChunkRow(c)] == c.attrs)
    && (forall ck | ck in t.chunks :: ck in u.chunks && u.chunks[ck] == t.chunks[ck])
    && (forall ck | ck in u.chunks :: ck in t.chunks || exists c :: c in chunks && ChunkRow(c) == ck)
  }

  ghost predicate Insertable(t: Database, chunks: seq<Chunk>) {
    DistinctRows(chunks) && forall i | 0 <= i < |chunks| :: ChunkRow(chunks[i]) !in t.chunks
  }

  /** Inserting succeeds exactly when no primary key repeats, and then adds exactly those rows. */
  lemma {:induction false} InsertChunkRowsEffect(t: Database, chunks: seq<Chunk>)
    ensures InsertChunkRows(t, chunks) == Err(UniqueConstraint) || InsertChunkRows(t, chunks).Ok?
    ensures InsertChunkRows(t, chunks).Ok? <==> Insertable(t, chunks)
    ensures InsertChunkRows(t, chunks).Ok? ==> Inserted(t, InsertChunkRows(t, chunks).value, chunks)
  {
    if |chunks| > 0 {
      var n := |chunks| - 1;
      var init, last := chunks[..n], chunks[n];
      InsertChunkRowsEffect(t, init);
      assert Insertable(t, chunks) ==> Insertable(t, init) by {
        if Insertable(t, chunks) {
          assert forall i | 0 <= i < n :: init[i] == chunks[i];
        }
      }
      assert chunks == init + [last];
      if InsertChunkRows(t, init).Ok? {
        var u := InsertChunkRows(t, init).value;
        InsertLastAllowed(t, u, init, last);
        if ChunkRow(last) !in u.chunks {
          InsertLastEffect(t, u, init, last);
        }
      }
    }
  }

  lemma InsertLastAllowed(t: Database, u: Database, init: seq<Chunk>, last: Chunk)
    requires Inserted(t, u, init) && Insertable(t, init)
    ensures ChunkRow(last) !in u.chunks <==> Insertable(t, init + [last])
  {
    var chunks := init + [last];
    if ChunkRow(last) in u.chunks {
      if ChunkRow(last) !in t.chunks {
        var c :| c in init && ChunkRow(c) == ChunkRow(last);
        var i :| 0 <= i < |init| && init[i] == c;
        assert ChunkRow(chunks[i]) == ChunkRow(chunks[|init|]);
      } else {
        assert chunks[|init|] == last;
      }
    } else {
      forall i | 0 <= i < |init| ensures ChunkRow(init[i]) != ChunkRow(last) {
        assert init[i] in init;
      }
    }
  }

  lemma InsertLastEffect(t: Database, u: Database, init: seq<Chunk>, last: Chunk)
    requires Inserted(t, u, init) && ChunkRow(last) !in u.chunks
    ensures Inserted(t, InsertChunkRow(u, last).value, init + [last])
  {
    var chunks := init + [last];
    var v := InsertChunkRow(u, last).value;
    forall c | c in chunks ensures ChunkRow(c) in v.chunks && v.chunks[ChunkRow(c)] == c.attrs {
      assert c in init || c == last;
    }
    forall ck | ck in v.chunks ensures ck in t.chunks || exists c :: c in chunks && ChunkRow(c) == ck {
      if ck == ChunkRow(last) {
        assert last in chunks;
      } else if ck !in t.chunks {
        var c :| c in init && ChunkRow(c) == ck;
        assert c in chunks;
      }
    }
  }

  /** A failed insert stays failed whatever follows. */
  lemma {:induction false} InsertChunkRowsFailed(t: Database, chunks: seq<Chunk>, i: nat)
    requires i <= |chunks|
    requires InsertChunkRows(t, chunks[..i]).Err?
    ensures InsertChunkRows(t, chunks) == InsertChunkRows(t, chunks[..i])
  {
    if i < |chunks| {
      assert chunks[..|chunks| - 1][..i] == chunks[..i];
      InsertChunkRowsFailed(t, chunks[..|chunks| - 1], i);
    } else {
      assert chunks[..i] == chunks;
    }
  }

  /** `t'` is `t` with one object row, and that object's chunk rows, replaced. */
  ghost predicate RowReplaced(t: Database, t': Database, row: RowKey, attrs: ObjectAttrs, chunks: seq<Chunk>) {
    && t'.buckets == t.buckets
    && t'.objects == t.objects[row := attrs]
    && ListChunks(t', row) == chunks
    && forall other: RowKey | other != row :: ListChunks(t', other) == ListChunks(t, other)
  }

  /** Writing an object with part-ordered chunk rows of its own key always succeeds and replaces just that object. */
  lemma PutRowsEffect(t: Database, o: Object, chunks: seq<Chunk>)
    requires AscendingParts(chunks) && BelongTo(chunks, ObjectRow(o))
    ensures PutRows(t, o, chunks).Ok?
    ensures RowReplaced(t, PutRows(t, o, chunks).value, ObjectRow(o), o.attrs, chunks)
  {
    var row := ObjectRow(o);
    var cleared := UpsertObjectRow(DeleteChunkRows(t, row), o);
    InsertChunkRowsEffect(cleared, chunks);
    assert forall i | 0 <= i < |chunks| :: ChunkRow(chunks[i]).row == row;
    assert Insertable(cleared, chunks);
    var t' := PutRows(t, o, chunks).value;
    ListChunksUnique(t', row, chunks);
    forall other: RowKey | other != row ensures ListChunks(t', other) == ListChunks(t, other) {
      forall p: int ensures ChunkKey(other, p) in t.chunks <==> ChunkKey(other, p) in t'.chunks {
        if ChunkKey(other, p) in t.chunks {
          assert ChunkKey(other, p) in cleared.chunks;
        }
      }
      forall p: int | ChunkKey(other, p) in t.chunks
        ensures t'.chunks[ChunkKey(other, p)] == t.chunks[ChunkKey(other, p)]
      {
        assert ChunkKey(other, p) in cleared.chunks;
      }
      ListChunksFrame(t, t', other);
    }
  }
}
