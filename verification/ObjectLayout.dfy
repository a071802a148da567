/** How the writers lay an object out as chunk rows, and that reading gives back what was written. */
module ObjectLayout {
  import opened Bytes
  import opened Results
  import opened Sequences
  import opened Tables
  import opened Transactions
  import opened MetadataStore
  import opened Listing
  import opened Ranges
  import opened ChunkReads

  datatype MultipartChunk = MultipartChunk(
    size: int, telegramType: Str, telegramFileId: Str, telegramMessageId: int, telegramFileUniqueId: Str, sha256: Str)

  datatype MultipartPart = MultipartPart(number: int, etag: Str, md5Bytes: Str, size: int, chunks: seq<MultipartChunk>)

  const DOCUMENT: Str := Ascii("document")
  const MULTIPART: Str := Ascii("multipart")
  const TYPED: Str := Ascii("typed")

  // ---------------------------------------------------------------------------------------------
  // buildMultipartObject
  // ---------------------------------------------------------------------------------------------

  function AllChunks(parts: seq<MultipartPart>): seq<MultipartChunk> {
    if |parts| == 0 then [] else AllChunks(parts[..|parts| - 1]) + parts[|parts| - 1].chunks
  }

  function ChunkSizes(chunks: seq<MultipartChunk>): int {
    if |chunks| == 0 then 0 else ChunkSizes(chunks[..|chunks| - 1]) + chunks[|chunks| - 1].size
  }

  function PartSizes(parts: seq<MultipartPart>): int {
    if |parts| == 0 then 0 else PartSizes(parts[..|parts| - 1]) + parts[|parts| - 1].size
  }

  function Digests(parts: seq<MultipartPart>): Str {
    if |parts| == 0 then [] else Digests(parts[..|parts| - 1]) + parts[|parts| - 1].md5Bytes
  }

  /** multipartETag; `md5Hex` stands for the hash. */
  function MultipartETag(parts: seq<MultipartPart>, md5Hex: Str -> Str): Str {
    md5Hex(Digests(parts)) + [MINUS] + Decimal(|parts|)
  }

  function Md5Bytes(parts: seq<MultipartPart>): (digests: seq<Str>)
    ensures |digests| == |parts| && forall i | 0 <= i < |parts| :: digests[i] == parts[i].md5Bytes
  {
    seq(|parts|, i requires 0 <= i < |parts| => parts[i].md5Bytes)
  }

  /** The hash of the parts' digests one behind the other, a dash, and the number of parts. */
  ghost predicate IsMultipartETag(etag: Str, parts: seq<MultipartPart>, md5Hex: Str -> Str) {
    exists text: Str, ends: seq<nat> ::
      EndToEnd(text, Md5Bytes(parts), ends) && etag == md5Hex(text) + Ascii("-") + Decimal(|parts|)
  }

  lemma {:induction false} DigestsEndToEnd(parts: seq<MultipartPart>) returns (ends: seq<nat>)
    ensures EndToEnd(Digests(parts), Md5Bytes(parts), ends)
  {
    if |parts| == 0 {
      ends := [0];
    } else {
      var n := |parts| - 1;
      var before := DigestsEndToEnd(parts[..n]);
      EndToEndAppend(Digests(parts[..n]), Md5Bytes(parts[..n]), before, parts[n].md5Bytes);
      ends := before + [|Digests(parts)|];
      assert Md5Bytes(parts) == Md5Bytes(parts[..n]) + [parts[n].md5Bytes];
    }
  }

  lemma ETagMeaning(parts: seq<MultipartPart>, md5Hex: Str -> Str)
    ensures IsMultipartETag(MultipartETag(parts, md5Hex), parts, md5Hex)
  {
    var ends := DigestsEndToEnd(parts);
    assert Ascii("-") == [MINUS];
  }

  function LaidChunk(bucket: Str, key: Str, partNumber: int, offset: int, c: MultipartChunk): Chunk {
    Chunk(bucket, key, partNumber, ChunkAttrs(offset, c.size, c.telegramType, c.telegramFileId, c.telegramMessageId,
                                              c.telegramFileUniqueId, c.sha256))
  }

  /** Numbered from 1, each behind the bytes of those before it, in 64-bit arithmetic. */
  function Layout(bucket: Str, key: Str, chunks: seq<MultipartChunk>): (laid: seq<Chunk>)
    ensures |laid| == |chunks|
  {
    if |chunks| == 0 then [] else
      var init := chunks[..|chunks| - 1];
      Layout(bucket, key, init) + [LaidChunk(bucket, key, |chunks|, Wrap64(ChunkSizes(init)), chunks[|chunks| - 1])]
  }

  function MultipartAttrs(parts: seq<MultipartPart>, contentType: Str, etag: Str, now: int): ObjectAttrs {
    ObjectAttrs(Wrap64(PartSizes(parts)), contentType, etag, [], now, |AllChunks(parts)|, DOCUMENT, MULTIPART)
  }

  lemma WrapAdds(a: int, b: int)
    ensures Wrap64(Wrap64(a) + b) == Wrap64(a + b)
  {
  }

  lemma LayoutAppend(bucket: Str, key: Str, before: seq<MultipartChunk>, c: MultipartChunk)
    ensures Layout(bucket, key, before + [c]) ==
      Layout(bucket, key, before) + [LaidChunk(bucket, key, |before| + 1, Wrap64(ChunkSizes(before)), c)]
    ensures ChunkSizes(before + [c]) == ChunkSizes(before) + c.size
  {
    assert (before + [c])[..|before|] == before;
  }

  /** The inner loop: one part's chunks behind those already laid out. */
  method LayOutPart(bucket: Str, key: Str, part: MultipartPart, chunks0: seq<Chunk>, offset0: int, partNumber0: int,
                    ghost done: seq<MultipartChunk>)
    returns (chunks: seq<Chunk>, offset: int, partNumber: int)
    requires chunks0 == Layout(bucket, key, done) && offset0 == Wrap64(ChunkSizes(done)) && partNumber0 == |done| + 1
    ensures chunks == Layout(bucket, key, done + part.chunks)
    ensures offset == Wrap64(ChunkSizes(done + part.chunks)) && partNumber == |done + part.chunks| + 1
  {
    hide Layout, LaidChunk, ChunkSizes, Wrap64;
    chunks, offset, partNumber := chunks0, offset0, partNumber0;
    assert done + part.chunks[..0] == done;
    for j := 0 to |part.chunks|
      invariant chunks == Layout(bucket, key, done + part.chunks[..j])
      invariant offset == Wrap64(ChunkSizes(done + part.chunks[..j])) && partNumber == |done| + j + 1
    {
      ghost var before := done + part.chunks[..j];
      assert done + part.chunks[..j + 1] == before + [part.chunks[j]];
      LayoutAppend(bucket, key, before, part.chunks[j]);
      chunks := chunks + [LaidChunk(bucket, key, partNumber, offset, part.chunks[j])];
      WrapAdds(ChunkSizes(before), part.chunks[j].size);
      offset := Wrap64(offset + part.chunks[j].size);
      partNumber := partNumber + 1;
    }
    assert part.chunks[..|part.chunks|] == part.chunks;
  }

  lemma WrapOfNothing()
    ensures Wrap64(PartSizes([])) == 0 && Wrap64(ChunkSizes(AllChunks([]))) == 0 && AllChunks([]) == []
    ensures forall bucket, key :: Layout(bucket, key, []) == []
  {
  }

  lemma OneMorePart(parts: seq<MultipartPart>, i: nat)
    requires i < |parts|
    ensures PartSizes(parts[..i + 1]) == PartSizes(parts[..i]) + parts[i].size
    ensures AllChunks(parts[..i + 1]) == AllChunks(parts[..i]) + parts[i].chunks
  {
    assert parts[..i + 1][..i] == parts[..i];
  }

  /** buildMultipartObject. */
  method BuildMultipartObject(bucket: Str, key: Str, contentType: Str, parts: seq<MultipartPart>, md5Hex: Str -> Str,
                              now: int)
    returns (obj: Object, chunks: seq<Chunk>, etag: Str)
    ensures etag == MultipartETag(parts, md5Hex) && IsMultipartETag(etag, parts, md5Hex)
    ensures chunks == Layout(bucket, key, AllChunks(parts))
    ensures obj == Object(bucket, key, MultipartAttrs(parts, contentType, etag, now))
  {
    hide IsMultipartETag, MultipartETag, Layout, ChunkSizes, Wrap64, AllChunks;
    ETagMeaning(parts, md5Hex);
    WrapOfNothing();
    var size := 0;
    hide PartSizes;
    for i := 0 to |parts|
      invariant size == Wrap64(PartSizes(parts[..i]))
    {
      OneMorePart(parts, i);
      WrapAdds(PartSizes(parts[..i]), parts[i].size);
      size := Wrap64(size + parts[i].size);
    }
    etag := MultipartETag(parts, md5Hex);
    chunks := [];
    var offset, partNumber := 0, 1;
    for i := 0 to |parts|
      invariant chunks == Layout(bucket, key, AllChunks(parts[..i]))
      invariant offset == Wrap64(ChunkSizes(AllChunks(parts[..i]))) && partNumber == |AllChunks(parts[..i])| + 1
    {
      OneMorePart(parts, i);
      chunks, offset, partNumber :=
        LayOutPart(bucket, key, parts[i], chunks, offset, partNumber, AllChunks(parts[..i]));
    }
    assert parts[..|parts|] == parts;
    obj := Object(bucket, key, ObjectAttrs(size, contentType, etag, [], now, |chunks|, DOCUMENT, MULTIPART));
  }

  // ---------------------------------------------------------------------------------------------
  // Every writer's chunks tile its object
  // ---------------------------------------------------------------------------------------------

  /** Laid-out rows are numbered 1, 2, ... under their own key, whatever the sizes. */
  lemma {:induction false} LayoutRows(bucket: Str, key: Str, chunks: seq<MultipartChunk>)
    ensures forall i | 0 <= i < |chunks| :: Layout(bucket, key, chunks)[i].partNumber == i + 1
    ensures AscendingParts(Layout(bucket, key, chunks)) && BelongTo(Layout(bucket, key, chunks), RowKey(bucket, key))
  {
    hide ChunkSizes, Wrap64;
    if |chunks| > 0 {
      var n := |chunks| - 1;
      LayoutRows(bucket, key, chunks[..n]);
      assert forall i | 0 <= i < n :: Layout(bucket, key, chunks)[i] == Layout(bucket, key, chunks[..n])[i];
    }
  }

  /** The row says of its document what the session said. */
  ghost predicate SameDocument(row: ChunkAttrs, c: MultipartChunk) {
    && row.size == c.size && row.sha256 == c.sha256 && row.telegramType == c.telegramType
    && row.telegramFileId == c.telegramFileId && row.telegramMessageId == c.telegramMessageId
    && row.telegramFileUniqueId == c.telegramFileUniqueId
  }

  lemma {:induction false} LaidDocuments(bucket: Str, key: Str, chunks: seq<MultipartChunk>)
    ensures forall i | 0 <= i < |chunks| ::
      && Layout(bucket, key, chunks)[i].partNumber == i + 1
      && SameDocument(Layout(bucket, key, chunks)[i].attrs, chunks[i])
  {
    hide ChunkSizes, Wrap64;
    if |chunks| > 0 {
      var n := |chunks| - 1;
      LaidDocuments(bucket, key, chunks[..n]);
      assert forall i | 0 <= i < n :: Layout(bucket, key, chunks)[i] == Layout(bucket, key, chunks[..n])[i];
    }
  }

  ghost predicate NonNegativeSizes(chunks: seq<MultipartChunk>) {
    forall i | 0 <= i < |chunks| :: chunks[i].size >= 0
  }

  /** Laid-out chunks tile as long as their total fits 64 bits. */
  lemma {:induction false} LayoutTiles(bucket: Str, key: Str, chunks: seq<MultipartChunk>)
    requires NonNegativeSizes(chunks) && ChunkSizes(chunks) <= MAX_INT64
    ensures Tiling(Layout(bucket, key, chunks), ChunkSizes(chunks)) && ChunkSizes(chunks) >= 0
  {
    if |chunks| > 0 {
      var init, laid := chunks[..|chunks| - 1], Layout(bucket, key, chunks);
      LayoutTiles(bucket, key, init);
      assert ChunkSizes(chunks) == ChunkSizes(init) + chunks[|chunks| - 1].size && chunks[|chunks| - 1].size >= 0;
      assert laid[|init|].partNumber == |init| + 1 && laid[|init|].attrs.offset == ChunkSizes(init);
      hide Tiling, ChunkSizes, Wrap64;
      assert laid[..|init|] == Layout(bucket, key, init);
      TilingAppend(laid[..|init|], laid[|init|], ChunkSizes(init));
      assert laid == laid[..|init|] + [laid[|init|]];
    }
  }

  lemma TilingAppend(chunks: seq<Chunk>, c: Chunk, size: int)
    requires Tiling(chunks, size) && c.partNumber == |chunks| + 1 && c.attrs.offset == size && c.attrs.size >= 0
    ensures Tiling(chunks + [c], size + c.attrs.size)
  {
    var all := chunks + [c];
    assert all[..|chunks|] == chunks;
    forall i | 0 <= i < |chunks| ensures all[..i] == chunks[..i] && all[i] == chunks[i] {
    }
  }

  /** As uploadMultipartPartChunks builds them: a part is as long as its chunks. */
  ghost predicate WellFormedPart(part: MultipartPart) {
    NonNegativeSizes(part.chunks) && part.size == ChunkSizes(part.chunks)
  }

  ghost predicate WellFormedParts(parts: seq<MultipartPart>) {
    forall i | 0 <= i < |parts| :: WellFormedPart(parts[i])
  }

  lemma {:induction false} ChunkSizesConcat(a: seq<MultipartChunk>, b: seq<MultipartChunk>)
    ensures ChunkSizes(a + b) == ChunkSizes(a) + ChunkSizes(b)
  {
    if |b| == 0 {
      assert a + b == a;
    } else {
      assert (a + b)[..|a + b| - 1] == a + b[..|b| - 1];
      ChunkSizesConcat(a, b[..|b| - 1]);
    }
  }

  lemma {:induction false} PartsAreTheirChunks(parts: seq<MultipartPart>)
    requires WellFormedParts(parts)
    ensures NonNegativeSizes(AllChunks(parts)) && ChunkSizes(AllChunks(parts)) == PartSizes(parts)
  {
    if |parts| > 0 {
      PartsAreTheirChunks(parts[..|parts| - 1]);
      ChunkSizesConcat(AllChunks(parts[..|parts| - 1]), parts[|parts| - 1].chunks);
    }
  }

  /** A completed upload writes chunk rows of its own key that tile the object it writes. */
  lemma MultipartTiles(bucket: Str, key: Str, parts: seq<MultipartPart>, contentType: Str, etag: Str, now: int)
    requires WellFormedParts(parts) && PartSizes(parts) <= MAX_INT64
    ensures var chunks := Layout(bucket, key, AllChunks(parts));
      && TiledBy(chunks, MultipartAttrs(parts, contentType, etag, now))
      && AscendingParts(chunks) && BelongTo(chunks, RowKey(bucket, key))
  {
    PartsAreTheirChunks(parts);
    LayoutTiles(bucket, key, AllChunks(parts));
    LayoutRows(bucket, key, AllChunks(parts));
  }

  /** putEmpty. */
  function EmptyObject(contentType: Str, etag: Str, sha256: Str, now: int, telegramType: Str,
                       strategy: Str): (ObjectAttrs, seq<Chunk>) {
    (ObjectAttrs(0, contentType, etag, sha256, now, 0, telegramType, strategy), [])
  }

  datatype Uploaded = Uploaded(telegramType: Str, fileId: Str, messageId: int, fileUniqueId: Str, fileSize: int)

  /** putSingle: one chunk, with the size Telegram reports when it may have recompressed the file. */
  function SingleObject(bucket: Str, key: Str, contentType: Str, size: int, etag: Str, typedEtag: Str, sha256: Str,
                        now: int, strategy: Str, up: Uploaded): (ObjectAttrs, seq<Chunk>)
  {
    var typed := strategy == TYPED && up.fileSize > 0;
    var storedSize := if typed then up.fileSize else size;
    var storedSha := if typed then [] else sha256;
    var storedEtag := if typed then typedEtag else etag;
    (ObjectAttrs(storedSize, contentType, storedEtag, storedSha, now, 1, up.telegramType, strategy),
     [Chunk(bucket, key, 1,
            ChunkAttrs(0, storedSize, up.telegramType, up.fileId, up.messageId, up.fileUniqueId, storedSha))])
  }

  /** Both forms of a plain put write tiling chunk rows of their own key. */
  lemma PutTiles(bucket: Str, key: Str, contentType: Str, size: int, etag: Str, typedEtag: Str, sha256: Str, now: int,
                 telegramType: Str, strategy: Str, up: Uploaded)
    requires size >= 0
    ensures var (attrs, chunks) := EmptyObject(contentType, etag, sha256, now, telegramType, strategy);
      TiledBy(chunks, attrs) && AscendingParts(chunks) && BelongTo(chunks, RowKey(bucket, key))
    ensures var (attrs, chunks) :=
      SingleObject(bucket, key, contentType, size, etag, typedEtag, sha256, now, strategy, up);
      TiledBy(chunks, attrs) && AscendingParts(chunks) && BelongTo(chunks, RowKey(bucket, key))
  {
    var (attrs, chunks) := SingleObject(bucket, key, contentType, size, etag, typedEtag, sha256, now, strategy, up);
    assert chunks[..0] == [];
  }

  /** What the upload strategy resolver decides. */
  datatype Strategy = Strategy(telegramType: Str, uploadStrategy: Str)

  /** What a plain put writes: no chunk for an empty object, one otherwise. */
  function PutParts(bucket: Str, key: Str, contentType: Str, body: Str, size: int, strategy: Strategy,
                    up: Option<Uploaded>,
                    typedEtag: Str, md5Hex: Str -> Str, sha256Hex: Str -> Str, now: int): (ObjectAttrs, seq<Chunk>)
    requires size > 0 ==> up.Some?
  {
    if size <= 0 then
      EmptyObject(contentType, md5Hex([]), sha256Hex([]), now, strategy.telegramType, strategy.uploadStrategy)
    else
      SingleObject(bucket, key, contentType, size, md5Hex(body), typedEtag, sha256Hex(body), now,
                   strategy.uploadStrategy, up.value)
  }

  /**
   PutObject under its key lock. `strategy` is the resolver's answer, `limit` the size limit of its type, `up` what
   Telegram answers; an empty object uploads nothing and does not look at the body.
   */
  method PutObject(meta: SQLiteStore, startupBuckets: set<Str>, bucket: Str, key: Str, contentType: Str, size: int,
                   body: Str, strategy: Option<Strategy>, limit: int, up: Option<Uploaded>, typedEtag: Str,
                   md5Hex: Str -> Str, sha256Hex: Str -> Str, now: int, durable: bool)
    returns (r: Result<Str>)
    modifies meta
    ensures r.Err? ==> meta.db == old(meta.db)
    ensures r.Ok? <==>
      && size >= 0 && bucket in startupBuckets && strategy.Some? && durable
      && (size > 0 ==> (limit > 0 ==> size <= limit) && |body| == size && up.Some?)
    ensures r.Err? ==>
      r.error == (if size < 0 then MissingContentLength
                  else if bucket !in startupBuckets then NoSuchBucket
                  else if strategy.None? || (limit > 0 && size > 0 && size > limit) then EntityTooLarge
                  else IoFailure)
    ensures r.Ok? ==>
      var (attrs, chunks) :=
        PutParts(bucket, key, contentType, body, size, strategy.value, up, typedEtag, md5Hex, sha256Hex, now);
      && r.value == attrs.etag && PutRows(old(meta.db), Object(bucket, key, attrs), chunks) == Ok(meta.db)
      && RowReplaced(old(meta.db), meta.db, RowKey(bucket, key), attrs, chunks)
    ensures r.Ok? ==>
      var row := RowKey(bucket, key);
      && row in meta.db.objects
      && var attrs, chunks := meta.db.objects[row], ListChunks(meta.db, row);
      && r.value == attrs.etag && attrs.contentType == contentType && attrs.lastModified == now
      && attrs.uploadStrategy == strategy.value.uploadStrategy
      && attrs.chunkCount == |chunks|
      && (size == 0 ==>
            && attrs.size == 0 && attrs.etag == md5Hex([]) && attrs.sha256 == sha256Hex([])
            && attrs.telegramType == strategy.value.telegramType && chunks == [])
      && (size > 0 ==>
            && attrs.telegramType == up.value.telegramType
            && |chunks| == 1 && chunks[0].partNumber == 1
            && chunks[0].attrs.offset == 0 && chunks[0].attrs.size == attrs.size
            && chunks[0].attrs.telegramType == up.value.telegramType
            && chunks[0].attrs.telegramFileId == up.value.fileId
            && chunks[0].attrs.telegramMessageId == up.value.messageId
            && chunks[0].attrs.telegramFileUniqueId == up.value.fileUniqueId
            && chunks[0].attrs.sha256 == attrs.sha256)
      && (size > 0 && strategy.value.uploadStrategy == Ascii("typed") && up.value.fileSize > 0 ==>
            attrs.etag == typedEtag && attrs.sha256 == [] && attrs.size == up.value.fileSize)
      && (size > 0 && !(strategy.value.uploadStrategy == Ascii("typed") && up.value.fileSize > 0) ==>
            attrs.etag == md5Hex(body) && attrs.sha256 == sha256Hex(body) && attrs.size == |body|)
  {
    hide PutRows, ListChunks;
    if size < 0 {
      return Err(MissingContentLength);
    }
    if bucket !in startupBuckets {
      return Err(NoSuchBucket);
    }
    if strategy.None? {
      return Err(EntityTooLarge);
    }
    if size > 0 && limit > 0 && size > limit {
      return Err(EntityTooLarge);
    }
    if size > 0 && (|body| != size || up.None?) {
      return Err(IoFailure);
    }
    var (attrs, chunks) :=
      PutParts(bucket, key, contentType, body, size, strategy.value, up, typedEtag, md5Hex, sha256Hex, now);
    PutPartsTile(bucket, key, contentType, body, size, strategy.value, up, typedEtag, md5Hex, sha256Hex, now);
    PutRowsEffect(meta.db, Object(bucket, key, attrs), chunks);
    var put := meta.PutObject(Object(bucket, key, attrs), chunks, durable);
    if put.Err? {
      return Err(put.error);
    }
    return Ok(attrs.etag);
  }

  lemma PutPartsTile(bucket: Str, key: Str, contentType: Str, body: Str, size: int, strategy: Strategy,
                     up: Option<Uploaded>, typedEtag: Str, md5Hex: Str -> Str, sha256Hex: Str -> Str, now: int)
    requires size >= 0 && (size > 0 ==> up.Some?)
    ensures var (attrs, chunks) :=
      PutParts(bucket, key, contentType, body, size, strategy, up, typedEtag, md5Hex, sha256Hex, now);
      TiledBy(chunks, attrs) && AscendingParts(chunks) && BelongTo(chunks, RowKey(bucket, key))
  {
    var some := if up.Some? then up.value else Uploaded([], [], 0, [], 0);
    PutTiles(bucket, key, contentType, 0, md5Hex([]), typedEtag, sha256Hex([]), now, strategy.telegramType,
             strategy.uploadStrategy, some);
    PutTiles(bucket, key, contentType, size, md5Hex(body), typedEtag, sha256Hex(body), now, strategy.telegramType,
             strategy.uploadStrategy, some);
  }

  // ---------------------------------------------------------------------------------------------
  // GetObject
  // ---------------------------------------------------------------------------------------------

  /** chunkRefsFromMetadata. */
  function RefsOf(chunks: seq<Chunk>): (refs: seq<ChunkRef>)
    ensures |refs| == |chunks|
    ensures forall i | 0 <= i < |chunks| ::
      refs[i] == ChunkRef(chunks[i].partNumber, chunks[i].attrs.telegramFileId, chunks[i].attrs.offset,
                          chunks[i].attrs.size)
  {
    seq(|chunks|, i requires 0 <= i < |chunks| =>
      ChunkRef(chunks[i].partNumber, chunks[i].attrs.telegramFileId, chunks[i].attrs.offset, chunks[i].attrs.size))
  }

  function Selection(chunks: seq<Chunk>, range: Option<ByteRange>): seq<SelectedChunk> {
    match range
    case None => WholeChunks(RefsOf(chunks))
    case Some(r) => SelectChunks(RefsOf(chunks), r)
  }

  /** GetObject: the object's info and the body its stream delivers, with whether the stream ends without an error. */
  method GetObject(meta: SQLiteStore, files: Files, startupBuckets: set<Str>, bucket: Str, key: Str,
                   range: Option<ByteRange>)
    returns (result: Result<(ObjectInfo, Str, bool)>)
    ensures bucket !in startupBuckets ==> result == Err(NoSuchBucket)
    ensures bucket in startupBuckets && RowKey(bucket, key) !in meta.db.objects ==> result == Err(NoSuchKey)
    ensures bucket in startupBuckets && RowKey(bucket, key) in meta.db.objects ==>
      var row := RowKey(bucket, key);
      var selected := Selection(ListChunks(meta.db, row), range);
      && result.Ok? && result.value.0 == InfoOf(Object(bucket, key, meta.db.objects[row]))
      && (result.value.2 <==> Present(files, selected))
      && (result.value.2 ==> result.value.1 == ReadPieces(files, selected))
      && (!result.value.2 ==>
            exists n: nat :: n < |selected| && selected[n].chunk.fileId !in files
                             && Present(files, selected[..n]) && result.value.1 == ReadPieces(files, selected[..n]))
  {
    if bucket !in startupBuckets {
      return Err(NoSuchBucket);
    }
    var found := meta.GetObject(bucket, key);
    if found.Err? {
      return Err(NoSuchKey);
    }
    var (obj, chunks) := found.value;
    var selected;
    if range.None? {
      selected := WholeChunks(RefsOf(chunks));
    } else {
      selected := SelectChunksForRange(RefsOf(chunks), range.value);
    }
    var body, complete := Stream(files, selected);
    return Ok((InfoOf(obj), body, complete));
  }

  // ---------------------------------------------------------------------------------------------
  // Reading back what was written
  // ---------------------------------------------------------------------------------------------

  lemma {:induction false} RefsTotal(chunks: seq<Chunk>)
    ensures TotalSize(RefsOf(chunks)) == SizeSum(chunks)
  {
    if |chunks| > 0 {
      RefsTotal(chunks[..|chunks| - 1]);
      assert RefsOf(chunks)[..|chunks| - 1] == RefsOf(chunks[..|chunks| - 1]);
    }
  }

  /** Chunk rows that tile an object are laid out end to end for the reader. */
  lemma TilingIsLaidOut(chunks: seq<Chunk>, size: int)
    requires Tiling(chunks, size) && size <= MAX_INT64
    ensures LaidOut(RefsOf(chunks)) && TotalSize(RefsOf(chunks)) == size
  {
    var refs := RefsOf(chunks);
    RefsTotal(chunks);
    forall i | 0 <= i < |refs| ensures refs[i].size >= 0 && refs[i].offset == TotalSize(refs[..i]) {
      assert refs[..i] == RefsOf(chunks[..i]);
      RefsTotal(chunks[..i]);
    }
  }

  /** Whatever range header a client sends for an object whose chunks tile it, it reads that slice of the whole. */
  lemma TiledObjectReads(files: Files, chunks: seq<Chunk>, size: int, header: Str)
    requires Tiling(chunks, size) && size <= MAX_INT64 && Backed(files, RefsOf(chunks))
    ensures var whole := Selection(chunks, None);
      Present(files, whole) && |ReadPieces(files, whole)| == size
    ensures ParseRange(header, size).Ok? ==>
      var r := ParseRange(header, size).value;
      var selected := Selection(chunks, Some(r));
      && 0 <= r.start <= r.end < size && Present(files, selected)
      && ReadPieces(files, selected) == ReadPieces(files, Selection(chunks, None))[r.start..r.end + 1]
  {
    hide ParseRange, SelectChunks, ReadPieces, Present, LaidOut, Backed, Content, TotalSize, Tiling;
    TilingIsLaidOut(chunks, size);
    WholeRead(files, RefsOf(chunks));
    if ParseRange(header, size).Ok? {
      AcceptedInBounds(header, size);
      RangeRead(files, RefsOf(chunks), ParseRange(header, size).value);
    }
  }

  /** The bytes of an upload's parts, in order. */
  function Concat(data: seq<Str>): Str {
    if |data| == 0 then [] else Concat(data[..|data| - 1]) + data[|data| - 1]
  }

  /** Each part is one uploaded document that holds the part's bytes. */
  ghost predicate HoldsParts(files: Files, parts: seq<MultipartPart>, data: seq<Str>) {
    && |parts| == |data|
    && forall i | 0 <= i < |parts| ::
         && |parts[i].chunks| == 1 && parts[i].size == parts[i].chunks[0].size == |data[i]|
         && parts[i].chunks[0].telegramFileId in files && files[parts[i].chunks[0].telegramFileId] == data[i]
  }

  lemma HeldPartsWellFormed(files: Files, parts: seq<MultipartPart>, data: seq<Str>)
    requires HoldsParts(files, parts, data)
    ensures WellFormedParts(parts)
  {
    forall i | 0 <= i < |parts| ensures WellFormedPart(parts[i]) {
      assert parts[i].chunks[..0] == [];
    }
  }

  lemma LayoutRefsAppend(bucket: Str, key: Str, chunks: seq<MultipartChunk>, c: MultipartChunk)
    ensures RefsOf(Layout(bucket, key, chunks + [c])) == RefsOf(Layout(bucket, key, chunks))
      + [ChunkRef(|chunks| + 1, c.telegramFileId, Wrap64(ChunkSizes(chunks)), c.size)]
  {
    assert (chunks + [c])[..|chunks|] == chunks;
  }

  lemma ContentAppend(files: Files, refs: seq<ChunkRef>, c: ChunkRef)
    requires Backed(files, refs) && c.fileId in files && |files[c.fileId]| == c.size
    ensures Backed(files, refs + [c]) && Content(files, refs + [c]) == Content(files, refs) + files[c.fileId]
  {
    assert (refs + [c])[..|refs|] == refs;
  }

  lemma {:induction false} LayoutContent(files: Files, bucket: Str, key: Str, parts: seq<MultipartPart>, data: seq<Str>)
    requires HoldsParts(files, parts, data)
    ensures var refs := RefsOf(Layout(bucket, key, AllChunks(parts)));
      Backed(files, refs) && Content(files, refs) == Concat(data)
    ensures |Concat(data)| == PartSizes(parts)
  {
    if |parts| > 0 {
      var n := |parts| - 1;
      LayoutContent(files, bucket, key, parts[..n], data[..n]);
      assert parts[n].chunks == [parts[n].chunks[0]];
      LayoutRefsAppend(bucket, key, AllChunks(parts[..n]), parts[n].chunks[0]);
      ContentAppend(files, RefsOf(Layout(bucket, key, AllChunks(parts[..n]))),
        ChunkRef(|AllChunks(parts[..n])| + 1, parts[n].chunks[0].telegramFileId,
                 Wrap64(ChunkSizes(AllChunks(parts[..n]))), parts[n].chunks[0].size));
    }
  }

  /** A read of this object's chunks gives `content`, or the slice of it that a range header asks for. */
  ghost predicate ReadsAs(files: Files, chunks: seq<Chunk>, size: int, content: Str, header: Str) {
    && |content| == size
    && Present(files, Selection(chunks, None)) && ReadPieces(files, Selection(chunks, None)) == content
    && (ParseRange(header, size).Ok? ==>
          var r := ParseRange(header, size).value;
          && 0 <= r.start <= r.end < size && Present(files, Selection(chunks, Some(r)))
          && ReadPieces(files, Selection(chunks, Some(r))) == content[r.start..r.end + 1])
  }

  lemma LayoutReads(files: Files, bucket: Str, key: Str, parts: seq<MultipartPart>, data: seq<Str>, header: Str)
    requires HoldsParts(files, parts, data) && |Concat(data)| <= MAX_INT64
    ensures ReadsAs(files, Layout(bucket, key, AllChunks(parts)), |Concat(data)|, Concat(data), header)
  {
    hide ParseRange, SelectChunks, ReadPieces, Present, LaidOut, Backed, Content, TotalSize, Tiling, Layout, AllChunks;
    hide Concat;
    hide NonNegativeSizes, PartSizes, HoldsParts, WellFormedParts;
    var laid := Layout(bucket, key, AllChunks(parts));
    HeldPartsWellFormed(files, parts, data);
    LayoutContent(files, bucket, key, parts, data);
    PartsAreTheirChunks(parts);
    LayoutTiles(bucket, key, AllChunks(parts));
    WholeRead(files, RefsOf(laid));
    TiledObjectReads(files, laid, |Concat(data)|, header);
  }

  /** The rows a completed upload writes never collide, and replace exactly its object. */
  lemma CompletedRows(t: Database, bucket: Str, key: Str, parts: seq<MultipartPart>, attrs: ObjectAttrs)
    ensures var obj, laid := Object(bucket, key, attrs), Layout(bucket, key, AllChunks(parts));
      PutRows(t, obj, laid).Ok? && RowReplaced(t, PutRows(t, obj, laid).value, RowKey(bucket, key), attrs, laid)
  {
    hide PutRows, Layout, AllChunks, RowReplaced;
    LayoutRows(bucket, key, AllChunks(parts));
    PutRowsEffect(t, Object(bucket, key, attrs), Layout(bucket, key, AllChunks(parts)));
  }

  /** The object's row says what was asked for, and its chunk rows are the parts' documents in order. */
  ghost predicate CompletedObject(t: Database, row: RowKey, parts: seq<MultipartPart>, contentType: Str, etag: Str,
                                  now: int)
  {
    && row in t.objects
    && var attrs, chunks := t.objects[row], ListChunks(t, row);
    && attrs.etag == etag && attrs.contentType == contentType && attrs.lastModified == now
    && attrs.sha256 == [] && attrs.size == Wrap64(PartSizes(parts)) && attrs.chunkCount == |chunks|
    && attrs.telegramType == Ascii("document") && attrs.uploadStrategy == Ascii("multipart")
    && |chunks| == |AllChunks(parts)|
    && forall i | 0 <= i < |chunks| ::
         chunks[i].partNumber == i + 1 && SameDocument(chunks[i].attrs, AllChunks(parts)[i])
  }

  lemma ReplacedIsCompleted(t: Database, t': Database, bucket: Str, key: Str, parts: seq<MultipartPart>,
                            contentType: Str, etag: Str, now: int)
    requires RowReplaced(t, t', RowKey(bucket, key), MultipartAttrs(parts, contentType, etag, now),
                         Layout(bucket, key, AllChunks(parts)))
    ensures CompletedObject(t', RowKey(bucket, key), parts, contentType, etag, now)
  {
    hide Layout, AllChunks, ListChunks, PartSizes;
    LaidDocuments(bucket, key, AllChunks(parts));
  }

  /**
   Completing a multipart upload and reading the object back: a full read is the parts' bytes in order, and every
   accepted range header reads that slice of them.
   */
  lemma MultipartRoundTrip(t: Database, files: Files, bucket: Str, key: Str, parts: seq<MultipartPart>, data: seq<Str>,
                           contentType: Str, etag: Str, now: int, header: Str)
    requires HoldsParts(files, parts, data) && |Concat(data)| <= MAX_INT64
    ensures var row := RowKey(bucket, key);
      var obj := Object(bucket, key, MultipartAttrs(parts, contentType, etag, now));
      var put := PutRows(t, obj, Layout(bucket, key, AllChunks(parts)));
      && put.Ok? && row in put.value.objects
      && ReadsAs(files, ListChunks(put.value, row), put.value.objects[row].size, Concat(data), header)
  {
    HeldPartsWellFormed(files, parts, data);
    LayoutContent(files, bucket, key, parts, data);
    assert MultipartAttrs(parts, contentType, etag, now).size == |Concat(data)|;
    hide PutRows, MultipartAttrs, Layout, AllChunks, ReadsAs, ListChunks;
    CompletedRows(t, bucket, key, parts, MultipartAttrs(parts, contentType, etag, now));
    LayoutReads(files, bucket, key, parts, data, header);
  }

  lemma OneChunkContent(files: Files, bucket: Str, key: Str, attrs: ChunkAttrs)
    requires attrs.telegramFileId in files && |files[attrs.telegramFileId]| == attrs.size
    ensures var refs := RefsOf([Chunk(bucket, key, 1, attrs)]);
      Backed(files, refs) && Content(files, refs) == files[attrs.telegramFileId]
  {
    var refs := RefsOf([Chunk(bucket, key, 1, attrs)]);
    assert refs[..0] == [];
    assert Content(files, refs) == [] + files[attrs.telegramFileId];
  }

  /** A single put whose recorded size is what Telegram stored reads back as that file, whole and in every range. */
  lemma PutRoundTrip(t: Database, files: Files, bucket: Str, key: Str, contentType: Str, size: int, etag: Str,
                     typedEtag: Str, sha256: Str, now: int, strategy: Str, up: Uploaded, header: Str)
    requires size > 0 && up.fileId in files && |files[up.fileId]| <= MAX_INT64
    requires |files[up.fileId]| == if strategy == TYPED && up.fileSize > 0 then up.fileSize else size
    ensures var row := RowKey(bucket, key);
      var (attrs, chunks) := SingleObject(bucket, key, contentType, size, etag, typedEtag, sha256, now, strategy, up);
      var put := PutRows(t, Object(bucket, key, attrs), chunks);
      && put.Ok? && row in put.value.objects
      && ReadsAs(files, ListChunks(put.value, row), put.value.objects[row].size, files[up.fileId], header)
  {
    var (attrs, chunks) := SingleObject(bucket, key, contentType, size, etag, typedEtag, sha256, now, strategy, up);
    PutTiles(bucket, key, contentType, size, etag, typedEtag, sha256, now, [], strategy, up);
    OneChunkContent(files, bucket, key, chunks[0].attrs);
    assert attrs.size == |files[up.fileId]| && chunks == [Chunk(bucket, key, 1, chunks[0].attrs)];
    StoredReads(t, files, bucket, key, attrs, chunks, files[up.fileId], header);
  }

  /** What holds of any object written with backed chunk rows of its own key that tile it. */
  lemma StoredReads(t: Database, files: Files, bucket: Str, key: Str, attrs: ObjectAttrs, chunks: seq<Chunk>,
                    content: Str, header: Str)
    requires TiledBy(chunks, attrs) && AscendingParts(chunks) && BelongTo(chunks, RowKey(bucket, key)) &&
      attrs.size <= MAX_INT64
    requires Backed(files, RefsOf(chunks)) && Content(files, RefsOf(chunks)) == content
    ensures var row, put := RowKey(bucket, key), PutRows(t, Object(bucket, key, attrs), chunks);
      && put.Ok? && row in put.value.objects
      && ReadsAs(files, ListChunks(put.value, row), put.value.objects[row].size, content, header)
  {
    assert Tiling(chunks, attrs.size);
    hide PutRows, ListChunks, Backed, Content, Tiling, ReadsAs, AscendingParts, BelongTo;
    PutRowsEffect(t, Object(bucket, key, attrs), chunks);
    TilingReads(files, chunks, attrs.size, header);
  }

  /** Backed chunk rows that tile their object read as their content. */
  lemma TilingReads(files: Files, chunks: seq<Chunk>, size: int, header: Str)
    requires Tiling(chunks, size) && size <= MAX_INT64 && Backed(files, RefsOf(chunks))
    ensures ReadsAs(files, chunks, size, Content(files, RefsOf(chunks)), header)
  {
    hide ParseRange, SelectChunks, ReadPieces, Present, Backed, Content, Tiling;
    WholeRead(files, RefsOf(chunks));
    TiledObjectReads(files, chunks, size, header);
  }

  /** A single put reads back whole exactly when Telegram serves no more bytes than the size that was recorded. */
  lemma SingleReadsBackIff(files: Files, bucket: Str, key: Str, contentType: Str, size: int, etag: Str, typedEtag: Str,
                           sha256: Str, now: int, strategy: Str, up: Uploaded)
    requires size > 0 && up.fileId in files
    ensures var (attrs, chunks) :=
      SingleObject(bucket, key, contentType, size, etag, typedEtag, sha256, now, strategy, up);
      && Present(files, Selection(chunks, None))
      && (ReadPieces(files, Selection(chunks, None)) == files[up.fileId] <==> |files[up.fileId]| <= attrs.size)
  {
    var (attrs, chunks) := SingleObject(bucket, key, contentType, size, etag, typedEtag, sha256, now, strategy, up);
    var selected := Selection(chunks, None);
    assert selected == [SelectedChunk(ChunkRef(1, up.fileId, 0, attrs.size), 0, attrs.size)];
    assert selected[..0] == [];
    var data := files[up.fileId];
    assert ReadPieces(files, selected) == [] + Piece(data, 0, attrs.size);
    assert |data| <= attrs.size ==> Piece(data, 0, attrs.size) == data;
  }
}
