/** Whole client sessions: what was put or uploaded in parts is what a later GET returns, with its ETag and metadata. */
module ClientRuns {
  import opened Bytes
  import opened Results
  import opened Sequences
  import opened Tables
  import opened Transactions
  import opened MetadataStore
  import opened Listing
  import opened Ranges
  import opened ChunkReads
  import opened ObjectLayout
  import opened Multipart

  /** Telegram serves back what it was given. */
  ghost predicate Serves(files: Files, ups: seq<Uploaded>, bodies: seq<Str>) {
    |ups| == |bodies| && forall i | 0 <= i < |ups| :: ups[i].fileId in files && files[ups[i].fileId] == bodies[i]
  }

  /** The session holds part i + 1 for body i, and the request names it. */
  ghost predicate Requests(requested: seq<CompletedPart>, held: map<int, MultipartPart>, bodies: seq<Str>,
                           ups: seq<Uploaded>, md5: Str -> Str, md5Hex: Str -> Str, sha256Hex: Str -> Str)
    requires |bodies| == |ups|
  {
    && |requested| <= |bodies|
    && forall i | 0 <= i < |requested| ::
         && requested[i].partNumber == i + 1 && i + 1 in held && requested[i].etag == held[i + 1].etag
         && MadeOf(held[i + 1], i + 1, bodies[i], ups[i], md5, md5Hex, sha256Hex)
  }

  /** A client uploads its parts in order. */
  method UploadBodies(store: MultipartStore, id: Str, bucket: Str, key: Str, bodies: seq<Str>, ups: seq<Uploaded>,
                      limit: int, md5: Str -> Str, md5Hex: Str -> Str, sha256Hex: Str -> Str)
    returns (requested: seq<CompletedPart>)
    requires |bodies| == |ups| && id != [] && Known(store.multipartUploads, id, bucket, key)
    requires limit > 0 ==> forall i | 0 <= i < |bodies| :: |bodies[i]| <= limit
    modifies store
    ensures Known(store.multipartUploads, id, bucket, key) && |requested| == |bodies|
    ensures store.multipartUploads[id].contentType == old(store.multipartUploads)[id].contentType
    ensures Without(store.multipartUploads, id) == Without(old(store.multipartUploads), id)
    ensures Requests(requested, store.multipartUploads[id].parts, bodies, ups, md5, md5Hex, sha256Hex)
  {
    requested := [];
    hide MadeOf;
    for i := 0 to |bodies|
      invariant Known(store.multipartUploads, id, bucket, key) && |requested| == i
      invariant store.multipartUploads[id].contentType == old(store.multipartUploads)[id].contentType
      invariant Without(store.multipartUploads, id) == Without(old(store.multipartUploads), id)
      invariant Requests(requested, store.multipartUploads[id].parts, bodies, ups, md5, md5Hex, sha256Hex)
    {
      ghost var held := store.multipartUploads[id].parts;
      var r := store.UploadPart(id, bucket, key, i + 1, |bodies[i]|, bodies[i], limit, Some(ups[i]), md5, md5Hex,
                                sha256Hex);
      MadeETag(store.multipartUploads[id].parts[i + 1], i + 1, bodies[i], ups[i], md5, md5Hex, sha256Hex);
      RequestsMore(requested, held, store.multipartUploads[id].parts[i + 1], bodies, ups, md5, md5Hex, sha256Hex);
      requested := requested + [CompletedPart(i + 1, r.value)];
    }
  }

  lemma RequestsMore(requested: seq<CompletedPart>, held: map<int, MultipartPart>, part: MultipartPart,
                     bodies: seq<Str>, ups: seq<Uploaded>, md5: Str -> Str, md5Hex: Str -> Str, sha256Hex: Str -> Str)
    requires |bodies| == |ups| && |requested| < |bodies|
    requires Requests(requested, held, bodies, ups, md5, md5Hex, sha256Hex)
    requires MadeOf(part, |requested| + 1, bodies[|requested|], ups[|requested|], md5, md5Hex, sha256Hex)
    ensures Requests(requested + [CompletedPart(|requested| + 1, part.etag)], held[|requested| + 1 := part],
                     bodies, ups, md5, md5Hex, sha256Hex)
  {
    hide MadeOf;
    var n := |requested|;
    var more, held' := requested + [CompletedPart(n + 1, part.etag)], held[n + 1 := part];
    forall i | 0 <= i < n + 1
      ensures more[i].partNumber == i + 1 && i + 1 in held' && more[i].etag == held'[i + 1].etag
      ensures MadeOf(held'[i + 1], i + 1, bodies[i], ups[i], md5, md5Hex, sha256Hex)
    {
      if i < n {
        assert more[i] == requested[i] && held'[i + 1] == held[i + 1];
      }
    }
  }

  lemma MadeETag(part: MultipartPart, number: int, body: Str, up: Uploaded, md5: Str -> Str, md5Hex: Str -> Str,
                 sha256Hex: Str -> Str)
    requires MadeOf(part, number, body, up, md5, md5Hex, sha256Hex)
    ensures part.etag == md5Hex(body)
  {
  }

  lemma {:induction false} OneDocumentEach(parts: seq<MultipartPart>)
    requires forall i | 0 <= i < |parts| :: |parts[i].chunks| == 1
    ensures |AllChunks(parts)| == |parts| && forall i | 0 <= i < |parts| :: AllChunks(parts)[i] == parts[i].chunks[0]
  {
    if |parts| > 0 {
      OneDocumentEach(parts[..|parts| - 1]);
    }
  }

  /** Each chunk row describes the document of one body. */
  ghost predicate RowsDescribe(chunks: seq<Chunk>, bodies: seq<Str>, ups: seq<Uploaded>, sha256Hex: Str -> Str) {
    && |chunks| == |bodies| == |ups|
    && forall i | 0 <= i < |chunks| ::
         var row := chunks[i].attrs;
         && row.size == |bodies[i]| && row.sha256 == sha256Hex(bodies[i])
         && row.telegramType == ups[i].telegramType && row.telegramFileId == ups[i].fileId
         && row.telegramMessageId == ups[i].messageId && row.telegramFileUniqueId == ups[i].fileUniqueId
  }

  /** What a client asked to complete is accepted, and takes one part for each body. */
  lemma RequestAccepted(requested: seq<CompletedPart>, held: map<int, MultipartPart>, files: Files, bodies: seq<Str>,
                        ups: seq<Uploaded>, md5: Str -> Str, md5Hex: Str -> Str, sha256Hex: Str -> Str)
    requires Serves(files, ups, bodies) && Requests(requested, held, bodies, ups, md5, md5Hex, sha256Hex)
    requires |requested| == |bodies|
    ensures CompleteParts(held, requested).Ok?
    ensures var parts := CompleteParts(held, requested).value;
      && HoldsParts(files, parts, bodies) && |parts| == |bodies|
      && forall i | 0 <= i < |parts| :: MadeOf(parts[i], i + 1, bodies[i], ups[i], md5, md5Hex, sha256Hex)
  {
    hide MadeOf, CompleteParts;
    CompletePartsIff(held, requested);
    var parts := CompleteParts(held, requested).value;
    var numbers := seq(|bodies|, i => i + 1);
    MadePartsHold(files, parts, numbers, bodies, ups, md5, md5Hex, sha256Hex);
  }

  /** The rows of a completed session describe the bodies. */
  lemma CompletedDescribes(t: Database, row: RowKey, parts: seq<MultipartPart>, bodies: seq<Str>, ups: seq<Uploaded>,
                           md5: Str -> Str, md5Hex: Str -> Str, sha256Hex: Str -> Str, contentType: Str, etag: Str,
                           now: int)
    requires |parts| == |bodies| == |ups| && CompletedObject(t, row, parts, contentType, etag, now)
    requires forall i | 0 <= i < |parts| :: MadeOf(parts[i], i + 1, bodies[i], ups[i], md5, md5Hex, sha256Hex)
    ensures RowsDescribe(ListChunks(t, row), bodies, ups, sha256Hex)
    ensures Md5Bytes(parts) == Each(md5, bodies)
  {
    hide ListChunks, AllChunks, PartSizes;
    forall i | 0 <= i < |parts| ensures |parts[i].chunks| == 1 && parts[i].md5Bytes == md5(bodies[i]) {
      assert MadeOf(parts[i], i + 1, bodies[i], ups[i], md5, md5Hex, sha256Hex);
    }
    OneDocumentEach(parts);
    var chunks := ListChunks(t, row);
    forall i | 0 <= i < |chunks| ensures SameDocument(chunks[i].attrs, parts[i].chunks[0]) {
    }
    forall i | 0 <= i < |chunks| ensures MadeOf(parts[i], i + 1, bodies[i], ups[i], md5, md5Hex, sha256Hex) {
    }
  }

  function Each(f: Str -> Str, texts: seq<Str>): (images: seq<Str>)
    ensures |images| == |texts| && forall i | 0 <= i < |texts| :: images[i] == f(texts[i])
  {
    seq(|texts|, i requires 0 <= i < |texts| => f(texts[i]))
  }

  lemma {:induction false} ConcatEndToEnd(bodies: seq<Str>) returns (ends: seq<nat>)
    ensures EndToEnd(Concat(bodies), bodies, ends)
  {
    if |bodies| == 0 {
      ends := [0];
    } else {
      var n := |bodies| - 1;
      ends := ConcatEndToEnd(bodies[..n]);
      EndToEndAppend(Concat(bodies[..n]), bodies[..n], ends, bodies[n]);
      ends := ends + [|Concat(bodies)|];
      assert bodies == bodies[..n] + [bodies[n]];
    }
  }

  /** The HTTP side of a GET: the header is read against the size the object has. */
  method Get(store: MultipartStore, files: Files, bucket: Str, key: Str, header: Str)
    returns (info: ObjectInfo, body: Str, slice: Option<Str>)
    requires bucket in store.startupBuckets && RowKey(bucket, key) in store.meta.db.objects
    requires var row := RowKey(bucket, key);
      exists content :: ReadsAs(files, ListChunks(store.meta.db, row), store.meta.db.objects[row].size, content, header)
    ensures var row := RowKey(bucket, key);
      && info == InfoOf(Object(bucket, key, store.meta.db.objects[row]))
      && ReadsAs(files, ListChunks(store.meta.db, row), store.meta.db.objects[row].size, body, header)
    ensures slice.Some? <==> ParseRange(header, info.size).Ok?
    ensures slice.Some? ==>
      var r := ParseRange(header, info.size).value;
      0 <= r.start <= r.end < |body| && slice.value == body[r.start..r.end + 1]
  {
    hide ListChunks, ParseRange, SelectChunks, ReadPieces, Present, Selection;
    var whole := GetObject(store.meta, files, store.startupBuckets, bucket, key, None);
    info, body := whole.value.0, whole.value.1;
    var range := ParseRange(header, info.size);
    slice := None;
    if range.Ok? {
      var part := GetObject(store.meta, files, store.startupBuckets, bucket, key, Some(range.value));
      slice := Some(part.value.1);
    }
  }

  /** The same up to the completion: what the session says and what the tables then hold. */
  method UploadAndComplete(store: MultipartStore, files: Files, id: Str, bucket: Str, key: Str, contentType: Str,
                           bodies: seq<Str>, ups: seq<Uploaded>, limit: int, md5: Str -> Str, md5Hex: Str -> Str,
                           sha256Hex: Str -> Str, created: int, now: int)
    returns (etag: Str, ghost parts: seq<MultipartPart>)
    requires bucket in store.startupBuckets
    requires id != [] && id !in store.multipartUploads && [] !in store.multipartUploads
    requires |store.multipartUploads| < MAX_MULTIPART_UPLOADS
    requires |bodies| > 0 && Serves(files, ups, bodies)
    requires limit > 0 ==> forall i | 0 <= i < |bodies| :: |bodies[i]| <= limit
    modifies store, store.meta
    ensures |parts| == |bodies| == |ups| && HoldsParts(files, parts, bodies) && IsMultipartETag(etag, parts, md5Hex)
    ensures forall i | 0 <= i < |parts| :: MadeOf(parts[i], i + 1, bodies[i], ups[i], md5, md5Hex, sha256Hex)
    ensures CompletedObject(store.meta.db, RowKey(bucket, key), parts, contentType, etag, now)
    ensures PutRows(old(store.meta.db), Object(bucket, key, MultipartAttrs(parts, contentType, etag, now)),
                    Layout(bucket, key, AllChunks(parts))) == Ok(store.meta.db)
    ensures store.multipartUploads == old(store.multipartUploads)
  {
    hide MadeOf, HoldsParts, IsMultipartETag, CompletedObject, PutRows, MultipartAttrs, Layout, AllChunks, RowReplaced;
    hide CompleteParts, TakenFrom, ListChunks;
    ghost var before := store.multipartUploads;
    var begun := store.CreateMultipartUpload(bucket, key, contentType, id, created);
    OpenedStays(before, store.multipartUploads, id, Upload(bucket, key, contentType, created, map[]));
    var requested := UploadBodies(store, id, bucket, key, bodies, ups, limit, md5, md5Hex, sha256Hex);
    ghost var held := store.multipartUploads[id].parts;
    RequestAccepted(requested, held, files, bodies, ups, md5, md5Hex, sha256Hex);
    parts := CompleteParts(held, requested).value;
    var completed := store.CompleteMultipartUpload(id, bucket, key, requested, md5Hex, now, true);
    etag := completed.value;
  }

  lemma OpenedStays(before: Uploads, after: Uploads, id: Str, upload: Upload)
    requires id !in before && |before| < MAX_MULTIPART_UPLOADS && Evicted(before[id := upload], after)
    ensures after == before[id := upload] && Without(after, id) == before
  {
    assert before[id := upload].Keys == before.Keys + {id};
    assert |before[id := upload].Keys| == |before[id := upload]| && |before.Keys| == |before|;
  }

  /**
   A client uploads its parts, completes the upload and reads the object, whole and with a range header. It gets the
   bodies one behind the other, and the ETag is the hash of their digests with the number of parts.
   */
  method UploadAndGet(store: MultipartStore, files: Files, id: Str, bucket: Str, key: Str, contentType: Str,
                      bodies: seq<Str>, ups: seq<Uploaded>, limit: int, md5: Str -> Str, md5Hex: Str -> Str,
                      sha256Hex: Str -> Str, created: int, now: int, header: Str)
    returns (etag: Str, info: ObjectInfo, body: Str, slice: Option<Str>)
    requires bucket in store.startupBuckets
    requires id != [] && id !in store.multipartUploads && [] !in store.multipartUploads
    requires |store.multipartUploads| < MAX_MULTIPART_UPLOADS
    requires |bodies| > 0 && Serves(files, ups, bodies) && |Concat(bodies)| <= MAX_INT64
    requires limit > 0 ==> forall i | 0 <= i < |bodies| :: |bodies[i]| <= limit
    modifies store, store.meta
    ensures exists text, ends ::
      EndToEnd(text, Each(md5, bodies), ends) && etag == md5Hex(text) + Ascii("-") + Decimal(|bodies|)
    ensures exists ends :: EndToEnd(body, bodies, ends)
    ensures info == ObjectInfo(bucket, key, |body|, contentType, etag, [], now)
    ensures slice.Some? <==> ParseRange(header, |body|).Ok?
    ensures slice.Some? ==>
      var r := ParseRange(header, |body|).value;
      0 <= r.start <= r.end < |body| && slice.value == body[r.start..r.end + 1]
    ensures RowsDescribe(ListChunks(store.meta.db, RowKey(bucket, key)), bodies, ups, sha256Hex)
    ensures store.multipartUploads == old(store.multipartUploads)
  {
    hide *;
    ghost var before := store.meta.db;
    ghost var parts;
    etag, parts := UploadAndComplete(store, files, id, bucket, key, contentType, bodies, ups, limit, md5, md5Hex,
                                     sha256Hex, created, now);
    MultipartRoundTrip(before, files, bucket, key, parts, bodies, contentType, etag, now, header);
    CompletedDescribes(store.meta.db, RowKey(bucket, key), parts, bodies, ups, md5, md5Hex, sha256Hex, contentType,
                       etag, now);
    CompletedInfo(store.meta.db, bucket, key, parts, contentType, etag, now);
    HashedDigests(etag, parts, bodies, md5, md5Hex);
    info, body, slice := Get(store, files, bucket, key, header);
    ReadsSame(files, ListChunks(store.meta.db, RowKey(bucket, key)), store.meta.db.objects[RowKey(bucket, key)].size,
              body, Concat(bodies), header);
    ghost var ends := ConcatEndToEnd(bodies);
  }

  lemma HashedDigests(etag: Str, parts: seq<MultipartPart>, bodies: seq<Str>, md5: Str -> Str, md5Hex: Str -> Str)
    requires IsMultipartETag(etag, parts, md5Hex) && |parts| == |bodies| && Md5Bytes(parts) == Each(md5, bodies)
    ensures exists text, ends ::
      EndToEnd(text, Each(md5, bodies), ends) && etag == md5Hex(text) + Ascii("-") + Decimal(|bodies|)
  {
  }

  lemma CompletedInfo(t: Database, bucket: Str, key: Str, parts: seq<MultipartPart>, contentType: Str, etag: Str,
                      now: int)
    requires CompletedObject(t, RowKey(bucket, key), parts, contentType, etag, now)
    ensures var row := RowKey(bucket, key);
      && row in t.objects
      && InfoOf(Object(bucket, key, t.objects[row])) ==
         ObjectInfo(bucket, key, t.objects[row].size, contentType, etag, [], now)
  {
  }

  lemma ReadsSame(files: Files, chunks: seq<Chunk>, size: int, a: Str, b: Str, header: Str)
    requires ReadsAs(files, chunks, size, a, header) && ReadsAs(files, chunks, size, b, header)
    ensures a == b && |a| == size
  {
  }

  /** What a plain put stores of a body: the body itself, or what Telegram made of it. */
  ghost predicate Holds(files: Files, up: Option<Uploaded>, strategy: Strategy, body: Str, stored: Str) {
    if body == [] then stored == []
    else
      && up.Some? && up.value.fileId in files && files[up.value.fileId] == stored
      && if strategy.uploadStrategy == Ascii("typed") && up.value.fileSize > 0 then |stored| == up.value.fileSize
         else stored == body
  }

  lemma PutReads(t: Database, files: Files, bucket: Str, key: Str, contentType: Str, body: Str, strategy: Strategy,
                 up: Option<Uploaded>, typedEtag: Str, md5Hex: Str -> Str, sha256Hex: Str -> Str, now: int, stored: Str,
                 header: Str)
    requires Holds(files, up, strategy, body, stored) && |stored| <= MAX_INT64
    ensures var (attrs, chunks) :=
      PutParts(bucket, key, contentType, body, |body|, strategy, up, typedEtag, md5Hex, sha256Hex, now);
      var row, put := RowKey(bucket, key), PutRows(t, Object(bucket, key, attrs), chunks);
      && put.Ok? && row in put.value.objects
      && ReadsAs(files, ListChunks(put.value, row), put.value.objects[row].size, stored, header)
  {
    hide PutRows, ListChunks, ReadsAs;
    if body == [] {
      assert Tiling([], 0);
      assert Backed(files, RefsOf([])) && Content(files, RefsOf([])) == [];
      var (attrs, _) :=
        EmptyObject(contentType, md5Hex([]), sha256Hex([]), now, strategy.telegramType, strategy.uploadStrategy);
      StoredReads(t, files, bucket, key, attrs, [], [], header);
    } else {
      assert Ascii("typed") == TYPED;
      PutRoundTrip(t, files, bucket, key, contentType, |body|, md5Hex(body), typedEtag, sha256Hex(body), now,
                   strategy.uploadStrategy, up.value, header);
    }
  }

  /** A client puts an object and reads it, whole and with a range header: it gets what Telegram holds of the body. */
  method PutAndGet(store: MultipartStore, files: Files, bucket: Str, key: Str, contentType: Str, body: Str,
                   strategy: Strategy, limit: int, up: Option<Uploaded>, typedEtag: Str, md5Hex: Str -> Str,
                   sha256Hex: Str -> Str, now: int, ghost stored: Str, header: Str)
    returns (etag: Str, info: ObjectInfo, read: Str, slice: Option<Str>)
    requires bucket in store.startupBuckets && (limit > 0 ==> |body| <= limit)
    requires Holds(files, up, strategy, body, stored) && |stored| <= MAX_INT64
    modifies store.meta
    ensures read == stored
    ensures body != [] && strategy.uploadStrategy == Ascii("typed") && up.value.fileSize > 0 ==>
      info == ObjectInfo(bucket, key, |read|, contentType, typedEtag, [], now)
    ensures body == [] || strategy.uploadStrategy != Ascii("typed") || up.value.fileSize <= 0 ==>
      read == body && info == ObjectInfo(bucket, key, |read|, contentType, md5Hex(body), sha256Hex(body), now)
    ensures etag == info.etag
    ensures slice.Some? <==> ParseRange(header, |read|).Ok?
    ensures slice.Some? ==>
      var r := ParseRange(header, |read|).value;
      0 <= r.start <= r.end < |read| && slice.value == read[r.start..r.end + 1]
  {
    hide PutRows, PutParts, ListChunks, ReadsAs, RowReplaced, ParseRange;
    PutReads(store.meta.db, files, bucket, key, contentType, body, strategy, up, typedEtag, md5Hex, sha256Hex, now,
             stored, header);
    var put := PutObject(store.meta, store.startupBuckets, bucket, key, contentType, |body|, body, Some(strategy),
                         limit, up, typedEtag, md5Hex, sha256Hex, now, true);
    etag := put.value;
    info, read, slice := Get(store, files, bucket, key, header);
    ReadsSame(files, ListChunks(store.meta.db, RowKey(bucket, key)), store.meta.db.objects[RowKey(bucket, key)].size,
              read, stored, header);
  }
}
