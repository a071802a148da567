/** Multipart upload sessions: the critical sections under `multipartMu`, and the operations built from them. */
module Multipart {
  import opened Bytes
  import opened Results
  import opened Tables
  import opened ChunkReads
  import opened MetadataStore
  import opened ObjectLayout

  const MAX_MULTIPART_UPLOADS := 1000

  datatype Upload = Upload(bucket: Str, key: Str, contentType: Str, createdAt: int, parts: map<int, MultipartPart>)

  datatype CompletedPart = CompletedPart(partNumber: int, etag: Str)

  type Uploads = map<Str, Upload>

  // ---------------------------------------------------------------------------------------------
  // completeParts
  // ---------------------------------------------------------------------------------------------

  const QUOTE: byte := 0x22

  function TrimLeft(s: Str): Str {
    if |s| > 0 && s[0] == QUOTE then TrimLeft(s[1..]) else s
  }

  function TrimRight(s: Str): Str {
    if |s| > 0 && s[|s| - 1] == QUOTE then TrimRight(s[..|s| - 1]) else s
  }

  predicate EtagMatches(stored: Str, submitted: Str) {
    TrimRight(TrimLeft(submitted)) == TrimRight(TrimLeft(stored))
  }

  function LastNumber(requested: seq<CompletedPart>): int {
    if |requested| == 0 then 0 else requested[|requested| - 1].partNumber
  }

  predicate Held(parts: map<int, MultipartPart>, r: CompletedPart) {
    r.partNumber in parts && EtagMatches(parts[r.partNumber].etag, r.etag)
  }

  /** The outcome of the first `|requested|` turns of the loop in completeParts. */
  function CompleteParts(parts: map<int, MultipartPart>, requested: seq<CompletedPart>): Result<seq<MultipartPart>> {
    if |requested| == 0 then Ok([]) else
      var init, r := requested[..|requested| - 1], requested[|requested| - 1];
      match CompleteParts(parts, init)
      case Err(e) => Err(e)
      case Ok(taken) =>
        if r.partNumber <= LastNumber(init) then Err(InvalidPartOrder)
        else if !Held(parts, r) then Err(InvalidPart)
        else Ok(taken + [parts[r.partNumber]])
  }

  lemma {:induction false} CompletePartsFailed(parts: map<int, MultipartPart>, requested: seq<CompletedPart>, i: nat)
    requires i <= |requested| && CompleteParts(parts, requested[..i]).Err?
    ensures CompleteParts(parts, requested) == CompleteParts(parts, requested[..i])
  {
    if i < |requested| {
      assert requested[..|requested| - 1][..i] == requested[..i];
      CompletePartsFailed(parts, requested[..|requested| - 1], i);
    } else {
      assert requested[..i] == requested;
    }
  }

  /** Part numbers that strictly ascend from 1 upwards. */
  ghost predicate StrictlyAscending(requested: seq<CompletedPart>) {
    && (|requested| > 0 ==> requested[0].partNumber > 0)
    && forall i, j | 0 <= i < j < |requested| :: requested[i].partNumber < requested[j].partNumber
  }

  lemma AscendingAppend(requested: seq<CompletedPart>)
    requires |requested| > 0
    ensures var init, r := requested[..|requested| - 1], requested[|requested| - 1];
      StrictlyAscending(requested) <==> StrictlyAscending(init) && r.partNumber > LastNumber(init)
  {
    var n := |requested| - 1;
    var init, r := requested[..n], requested[n];
    if StrictlyAscending(requested) {
      assert n > 0 ==> requested[n - 1].partNumber < r.partNumber;
    }
    if StrictlyAscending(init) && r.partNumber > LastNumber(init) {
      forall i | 0 <= i < n ensures requested[i].partNumber < r.partNumber {
        assert i < n - 1 ==> init[i].partNumber < init[n - 1].partNumber;
      }
      forall i, j | 0 <= i < j < |requested| ensures requested[i].partNumber < requested[j].partNumber {
        assert j < n ==> init[i].partNumber < init[j].partNumber;
      }
      assert n > 0 ==> init[0] == requested[0];
    }
  }

  /** Each taken part is the held part of its number. */
  ghost predicate TakenFrom(parts: map<int, MultipartPart>, requested: seq<CompletedPart>, taken: seq<MultipartPart>) {
    && |taken| == |requested|
    && forall i | 0 <= i < |requested| :: requested[i].partNumber in parts && taken[i] == parts[requested[i].partNumber]
  }

  ghost predicate AllHeld(parts: map<int, MultipartPart>, requested: seq<CompletedPart>) {
    forall i | 0 <= i < |requested| :: Held(parts, requested[i])
  }

  lemma HeldAppend(parts: map<int, MultipartPart>, requested: seq<CompletedPart>)
    requires |requested| > 0
    ensures AllHeld(parts, requested) <==>
      AllHeld(parts, requested[..|requested| - 1]) && Held(parts, requested[|requested| - 1])
  {
    hide Held;
    var n := |requested| - 1;
    assert forall i | 0 <= i < n :: requested[..n][i] == requested[i];
    if AllHeld(parts, requested[..n]) && Held(parts, requested[n]) {
      forall i | 0 <= i < |requested| ensures Held(parts, requested[i]) {
        assert i < n ==> Held(parts, requested[..n][i]);
      }
    }
  }

  /**
   A completion request is accepted exactly when its part numbers strictly ascend from 1 upwards and every part is
   held with a matching ETag; it then takes those parts as held.
   */
  lemma {:induction false} CompletePartsIff(parts: map<int, MultipartPart>, requested: seq<CompletedPart>)
    ensures CompleteParts(parts, requested).Ok? <==> StrictlyAscending(requested) && AllHeld(parts, requested)
    ensures CompleteParts(parts, requested).Ok? ==> TakenFrom(parts, requested, CompleteParts(parts, requested).value)
  {
    if |requested| > 0 {
      AscendingAppend(requested);
      HeldAppend(parts, requested);
      hide StrictlyAscending, AllHeld, EtagMatches, LastNumber;
      CompletePartsIff(parts, requested[..|requested| - 1]);
    }
  }

  /** An out-of-order request is refused as such when every part before the first disorder is held. */
  lemma CompletePartsError(parts: map<int, MultipartPart>, requested: seq<CompletedPart>, i: nat)
    requires i < |requested|
    requires CompleteParts(parts, requested[..i]).Ok?
    requires requested[i].partNumber <= LastNumber(requested[..i]) || !Held(parts, requested[i])
    ensures CompleteParts(parts, requested) ==
      Err(if requested[i].partNumber <= LastNumber(requested[..i]) then InvalidPartOrder else InvalidPart)
  {
    assert requested[..i + 1][..i] == requested[..i];
    CompletePartsFailed(parts, requested, i + 1);
  }

  /** Double quotes on either side of a text that neither starts nor ends with one. */
  function Quoted(before: nat, text: Str, behind: nat): Str {
    seq(before, _ => 0x22) + text + seq(behind, _ => 0x22)
  }

  predicate Bare(text: Str) {
    |text| > 0 ==> text[0] != 0x22 && text[|text| - 1] != 0x22
  }

  lemma {:induction false} TrimsLeft(before: nat, rest: Str)
    requires |rest| > 0 ==> rest[0] != QUOTE
    ensures TrimLeft(seq(before, _ => QUOTE) + rest) == rest
  {
    var s: Str := seq(before, _ => QUOTE);
    if before == 0 {
      assert s + rest == rest;
    } else {
      assert (s + rest)[1..] == seq(before - 1, _ => QUOTE) + rest;
      TrimsLeft(before - 1, rest);
    }
  }

  lemma {:induction false} TrimsRight(rest: Str, behind: nat)
    requires |rest| > 0 ==> rest[|rest| - 1] != QUOTE
    ensures TrimRight(rest + seq(behind, _ => QUOTE)) == rest
  {
    var s: Str := seq(behind, _ => QUOTE);
    if behind == 0 {
      assert rest + s == rest;
    } else {
      assert (rest + s)[..|rest| + behind - 1] == rest + seq(behind - 1, _ => QUOTE);
      TrimsRight(rest, behind - 1);
    }
  }

  /** Trimming strips all quotes on both sides. */
  lemma TrimsQuotes(before: nat, text: Str, behind: nat)
    requires Bare(text)
    ensures TrimRight(TrimLeft(Quoted(before, text, behind))) == text
  {
    hide TrimLeft;
    var left, right: Str := seq(before, _ => QUOTE), seq(behind, _ => QUOTE);
    if |text| == 0 {
      assert Quoted(before, text, behind) == seq(before + behind, _ => QUOTE) + [];
      TrimsLeft(before + behind, []);
    } else {
      assert Quoted(before, text, behind) == left + (text + right);
      TrimsLeft(before, text + right);
      TrimsRight(text, behind);
    }
  }

  /** ETags match exactly when they are the same text once the quotes on both sides are off. */
  lemma EtagMatchesIff(a: nat, stored: Str, b: nat, c: nat, submitted: Str, d: nat)
    requires Bare(stored) && Bare(submitted)
    ensures EtagMatches(Quoted(a, stored, b), Quoted(c, submitted, d)) <==> stored == submitted
  {
    hide Quoted, TrimLeft, TrimRight;
    TrimsQuotes(a, stored, b);
    TrimsQuotes(c, submitted, d);
  }

  /** Every text is a bare one in quotes. */
  lemma {:induction false} QuotesAround(s: Str) returns (before: nat, text: Str, behind: nat)
    ensures Bare(text) && s == Quoted(before, text, behind)
    decreases |s|
  {
    if |s| > 0 && s[0] == 0x22 {
      before, text, behind := QuotesAround(s[1..]);
      before := before + 1;
      assert Quoted(before, text, behind) == [0x22] + Quoted(before - 1, text, behind);
      assert s == [0x22] + s[1..];
    } else if |s| > 0 && s[|s| - 1] == 0x22 {
      before, text, behind := QuotesAround(s[..|s| - 1]);
      behind := behind + 1;
      assert Quoted(before, text, behind) == Quoted(before, text, behind - 1) + [0x22];
      assert s == s[..|s| - 1] + [0x22];
    } else {
      before, text, behind := 0, s, 0;
    }
  }

  // ---------------------------------------------------------------------------------------------
  // The effects of the critical sections
  // ---------------------------------------------------------------------------------------------

  /** The check that every operation on a session starts with. */
  predicate Known(uploads: Uploads, id: Str, bucket: Str, key: Str) {
    id in uploads && uploads[id].bucket == bucket && uploads[id].key == key
  }

  function Without(uploads: Uploads, id: Str): Uploads {
    map u | u in uploads && u != id :: uploads[u]
  }

  function WithPart(uploads: Uploads, id: Str, number: int, part: MultipartPart): Uploads
    requires id in uploads
  {
    uploads[id := uploads[id].(parts := uploads[id].parts[number := part])]
  }

  ghost predicate IsOldest(uploads: Uploads, id: Str) {
    id in uploads && forall u | u in uploads :: uploads[id].createdAt <= uploads[u].createdAt
  }

  /** Any oldest session may be the one that is evicted, and only above the limit. */
  ghost predicate Evicted(uploads: Uploads, after: Uploads) {
    if |uploads| <= MAX_MULTIPART_UPLOADS then after == uploads
    else exists id :: IsOldest(uploads, id) && after == Without(uploads, id)
  }

  lemma WithoutSize(uploads: Uploads, id: Str)
    requires id in uploads
    ensures |Without(uploads, id)| == |uploads| - 1
  {
    var after := Without(uploads, id);
    assert after.Keys == uploads.Keys - {id};
    assert |uploads.Keys| == |uploads| && |after.Keys| == |after|;
  }

  lemma EvictedSize(uploads: Uploads, after: Uploads)
    requires Evicted(uploads, after)
    ensures |after| == if |uploads| <= MAX_MULTIPART_UPLOADS then |uploads| else |uploads| - 1
    ensures forall u | u in after :: u in uploads && after[u] == uploads[u]
  {
    if |uploads| > MAX_MULTIPART_UPLOADS {
      var id :| IsOldest(uploads, id) && after == Without(uploads, id);
      WithoutSize(uploads, id);
    }
  }

  /** What a part says that was made of a body: its digests and size, and one document as Telegram answered it. */
  ghost predicate MadeOf(part: MultipartPart, number: int, body: Str, up: Uploaded, md5: Str -> Str, md5Hex: Str -> Str,
                         sha256Hex: Str -> Str)
  {
    && part.number == number && part.etag == md5Hex(body) && part.md5Bytes == md5(body) && part.size == |body|
    && |part.chunks| == 1
    && part.chunks[0].size == |body| && part.chunks[0].sha256 == sha256Hex(body)
    && part.chunks[0].telegramType == up.telegramType && part.chunks[0].telegramFileId == up.fileId
    && part.chunks[0].telegramMessageId == up.messageId && part.chunks[0].telegramFileUniqueId == up.fileUniqueId
  }

  /** Parts made of bodies that Telegram serves back hold those bodies. */
  lemma MadePartsHold(files: Files, parts: seq<MultipartPart>, numbers: seq<int>, bodies: seq<Str>, ups: seq<Uploaded>,
                      md5: Str -> Str, md5Hex: Str -> Str, sha256Hex: Str -> Str)
    requires |parts| == |numbers| == |bodies| == |ups|
    requires forall i | 0 <= i < |parts| :: MadeOf(parts[i], numbers[i], bodies[i], ups[i], md5, md5Hex, sha256Hex)
    requires forall i | 0 <= i < |ups| :: ups[i].fileId in files && files[ups[i].fileId] == bodies[i]
    ensures HoldsParts(files, parts, bodies)
  {
    forall i | 0 <= i < |parts|
      ensures |parts[i].chunks| == 1 && parts[i].size == parts[i].chunks[0].size == |bodies[i]|
      ensures files[parts[i].chunks[0].telegramFileId] == bodies[i]
    {
      assert MadeOf(parts[i], numbers[i], bodies[i], ups[i], md5, md5Hex, sha256Hex);
    }
  }

  // ---------------------------------------------------------------------------------------------
  // The object
  // ---------------------------------------------------------------------------------------------

  class MultipartStore {
    const meta: SQLiteStore
    const startupBuckets: set<Str>
    var multipartUploads: Uploads

    constructor (meta: SQLiteStore, startupBuckets: set<Str>)
      ensures multipartUploads == map[] && this.meta == meta && this.startupBuckets == startupBuckets
    {
      this.meta, this.startupBuckets := meta, startupBuckets;
      multipartUploads := map[];
    }

    /** evictOldestMultipartUploadLocked: the loop over the sessions, which Go visits in any order. */
    method EvictOldest()
      requires [] !in multipartUploads
      modifies this
      ensures Evicted(old(multipartUploads), multipartUploads)
      ensures |old(multipartUploads)| <= 1000 ==> multipartUploads == old(multipartUploads)
      ensures |old(multipartUploads)| > 1000 ==> |multipartUploads| == |old(multipartUploads)| - 1
      ensures forall u | u in multipartUploads ::
        u in old(multipartUploads) && multipartUploads[u] == old(multipartUploads)[u]
      ensures forall u, v | u in old(multipartUploads) && u !in multipartUploads && v in multipartUploads ::
        old(multipartUploads)[u].createdAt <= multipartUploads[v].createdAt
    {
      if |multipartUploads| <= MAX_MULTIPART_UPLOADS {
        return;
      }
      var oldestId: Str, oldest := [], 0;
      var left := multipartUploads.Keys;
      while left != {}
        invariant left <= multipartUploads.Keys
        invariant oldestId == [] ==> left == multipartUploads.Keys
        invariant oldestId != [] ==> oldestId in multipartUploads && oldest == multipartUploads[oldestId].createdAt
        invariant oldestId != [] ==>
          forall u | u in multipartUploads.Keys - left :: oldest <= multipartUploads[u].createdAt
        decreases left
      {
        var id :| id in left;
        left := left - {id};
        if oldestId == [] || multipartUploads[id].createdAt < oldest {
          oldestId, oldest := id, multipartUploads[id].createdAt;
        }
      }
      assert oldestId == [] ==> |multipartUploads.Keys| == |multipartUploads| == 0;
      if oldestId != [] {
        assert IsOldest(multipartUploads, oldestId);
        WithoutSize(multipartUploads, oldestId);
        multipartUploads := Without(multipartUploads, oldestId);
      }
    }

    /** CreateMultipartUpload; `id` is the fresh random ID. */
    method CreateMultipartUpload(bucket: Str, key: Str, contentType: Str, id: Str, now: int) returns (r: Result<Str>)
      requires id != [] && [] !in multipartUploads
      modifies this
      ensures bucket !in startupBuckets ==> r == Err(NoSuchBucket) && multipartUploads == old(multipartUploads)
      ensures bucket in startupBuckets ==>
        && r == Ok(id)
        && Evicted(old(multipartUploads)[id := Upload(bucket, key, contentType, now, map[])], multipartUploads)
      ensures |old(multipartUploads)| <= MAX_MULTIPART_UPLOADS ==> |multipartUploads| <= MAX_MULTIPART_UPLOADS
    {
      if bucket !in startupBuckets {
        return Err(NoSuchBucket);
      }
      ghost var before := multipartUploads;
      multipartUploads := multipartUploads[id := Upload(bucket, key, contentType, now, map[])];
      assert multipartUploads.Keys == before.Keys + {id};
      assert |multipartUploads.Keys| == |multipartUploads| && |before.Keys| == |before|;
      if |before| <= MAX_MULTIPART_UPLOADS {
        EvictedSizeBound(multipartUploads);
      }
      EvictOldest();
      return Ok(id);
    }

    /** The check of UploadPart, before anything is uploaded. */
    method CheckUpload(id: Str, bucket: Str, key: Str) returns (r: Result<Str>)
      ensures r ==
        if Known(multipartUploads, id, bucket, key) then Ok(multipartUploads[id].contentType) else Err(NoSuchUpload)
    {
      if id !in multipartUploads || multipartUploads[id].bucket != bucket || multipartUploads[id].key != key {
        return Err(NoSuchUpload);
      }
      return Ok(multipartUploads[id].contentType);
    }

    /** The second section of UploadPart: the session may be gone by now. */
    method StorePart(id: Str, bucket: Str, key: Str, number: int, part: MultipartPart) returns (r: Result<Str>)
      modifies this
      ensures Known(old(multipartUploads), id, bucket, key) ==>
        r == Ok(part.etag) && multipartUploads == WithPart(old(multipartUploads), id, number, part)
      ensures !Known(old(multipartUploads), id, bucket, key) ==>
        r == Err(NoSuchUpload) && multipartUploads == old(multipartUploads)
    {
      if id !in multipartUploads || multipartUploads[id].bucket != bucket || multipartUploads[id].key != key {
        return Err(NoSuchUpload);
      }
      var upload := multipartUploads[id];
      multipartUploads := multipartUploads[id := upload.(parts := upload.parts[number := part])];
      return Ok(part.etag);
    }

    /**
     UploadPart without interference. `body` is what the request body holds, `uploaded` what Telegram answers;
     `md5`, `md5Hex` and `sha256Hex` stand for the hashes.
     */
    method UploadPart(id: Str, bucket: Str, key: Str, number: int, size: int, body: Str, limit: int,
                      uploaded: Option<Uploaded>, md5: Str -> Str, md5Hex: Str -> Str, sha256Hex: Str -> Str)
      returns (r: Result<Str>)
      modifies this
      ensures r.Err? ==> multipartUploads == old(multipartUploads)
      ensures r.Ok? <==>
        && number >= 1 && id != [] && 0 <= size == |body| && (limit > 0 ==> size <= limit)
        && Known(old(multipartUploads), id, bucket, key) && uploaded.Some?
      ensures r.Err? ==>
        r.error == (if number < 1 || id == [] || size < 0 then InvalidArgument
                    else if !Known(old(multipartUploads), id, bucket, key) then NoSuchUpload
                    else if limit > 0 && size > limit then EntityTooLarge
                    else IoFailure)
      ensures r.Ok? ==>
        && r.value == md5Hex(body) && id in multipartUploads && number in multipartUploads[id].parts
        && var part := multipartUploads[id].parts[number];
        && MadeOf(part, number, body, uploaded.value, md5, md5Hex, sha256Hex)
        && multipartUploads == WithPart(old(multipartUploads), id, number, part)
    {
      if number < 1 || id == [] || size < 0 {
        return Err(InvalidArgument);
      }
      var known := CheckUpload(id, bucket, key);
      if known.Err? {
        return Err(known.error);
      }
      if limit > 0 && size > limit {
        return Err(EntityTooLarge);
      }
      if |body| != size {
        return Err(IoFailure);
      }
      if uploaded.None? {
        return Err(IoFailure);
      }
      var up := uploaded.value;
      var chunk := MultipartChunk(size, up.telegramType, up.fileId, up.messageId, up.fileUniqueId, sha256Hex(body));
      r := StorePart(id, bucket, key, number, MultipartPart(number, md5Hex(body), md5(body), size, [chunk]));
    }

    /** The first section of CompleteMultipartUpload: the parts as they are now. */
    method Snapshot(id: Str, bucket: Str, key: Str, requested: seq<CompletedPart>)
      returns (r: Result<(seq<MultipartPart>, Str)>)
      ensures !Known(multipartUploads, id, bucket, key) ==> r == Err(NoSuchUpload)
      ensures Known(multipartUploads, id, bucket, key) ==>
        match CompleteParts(multipartUploads[id].parts, requested)
        case Err(e) => r == Err(e)
        case Ok(taken) => r == Ok((taken, multipartUploads[id].contentType))
    {
      if id !in multipartUploads || multipartUploads[id].bucket != bucket || multipartUploads[id].key != key {
        return Err(NoSuchUpload);
      }
      var upload := multipartUploads[id];
      var parts: seq<MultipartPart> := [];
      var lastPart := 0;
      for i := 0 to |requested|
        invariant CompleteParts(upload.parts, requested[..i]) == Ok(parts) && lastPart == LastNumber(requested[..i])
      {
        assert requested[..i + 1][..i] == requested[..i];
        if requested[i].partNumber <= lastPart {
          CompletePartsFailed(upload.parts, requested, i + 1);
          return Err(InvalidPartOrder);
        }
        lastPart := requested[i].partNumber;
        if requested[i].partNumber !in upload.parts
           || !EtagMatches(upload.parts[requested[i].partNumber].etag, requested[i].etag) {
          CompletePartsFailed(upload.parts, requested, i + 1);
          return Err(InvalidPart);
        }
        parts := parts + [upload.parts[requested[i].partNumber]];
      }
      assert requested[..|requested|] == requested;
      return Ok((parts, upload.contentType));
    }

    /**
     The second section of CompleteMultipartUpload: one metadata transaction, which can only fail to become durable.
     */
    method CommitParts(bucket: Str, key: Str, contentType: Str, parts: seq<MultipartPart>, md5Hex: Str -> Str, now: int,
                       durable: bool)
      returns (r: Result<Str>)
      modifies meta
      ensures !durable ==> r == Err(IoFailure) && meta.db == old(meta.db)
      ensures durable ==> r == Ok(MultipartETag(parts, md5Hex)) && IsMultipartETag(r.value, parts, md5Hex)
      ensures durable ==>
        var attrs, chunks := MultipartAttrs(parts, contentType, r.value, now), Layout(bucket, key, AllChunks(parts));
        && PutRows(old(meta.db), Object(bucket, key, attrs), chunks) == Ok(meta.db)
        && RowReplaced(old(meta.db), meta.db, RowKey(bucket, key), attrs, chunks)
        && CompletedObject(meta.db, RowKey(bucket, key), parts, contentType, r.value, now)
    {
      hide IsMultipartETag, CompletedObject, RowReplaced, Layout, AllChunks, PutRows, MultipartAttrs;
      var obj, chunks, etag := BuildMultipartObject(bucket, key, contentType, parts, md5Hex, now);
      CompletedRows(meta.db, bucket, key, parts, obj.attrs);
      ReplacedIsCompleted(meta.db, PutRows(meta.db, obj, chunks).value, bucket, key, parts, contentType, etag, now);
      var put := meta.PutObject(obj, chunks, durable);
      if put.Err? {
        return Err(put.error);
      }
      return Ok(etag);
    }

    /** The last section of CompleteMultipartUpload. */
    method Forget(id: Str)
      modifies this
      ensures multipartUploads == Without(old(multipartUploads), id)
    {
      multipartUploads := Without(multipartUploads, id);
    }

    /** CompleteMultipartUpload without interference; `durable` says whether the metadata commit succeeds. */
    method CompleteMultipartUpload(id: Str, bucket: Str, key: Str, requested: seq<CompletedPart>, md5Hex: Str -> Str,
                                   now: int, durable: bool)
      returns (r: Result<Str>)
      modifies this, meta
      ensures r.Err? ==> multipartUploads == old(multipartUploads) && meta.db == old(meta.db)
      ensures r.Ok? <==>
        && id != [] && requested != [] && Known(old(multipartUploads), id, bucket, key)
        && CompleteParts(old(multipartUploads)[id].parts, requested).Ok? && durable
      ensures r.Ok? ==>
        var upload := old(multipartUploads)[id];
        && var parts := CompleteParts(upload.parts, requested).value;
        && r.value == MultipartETag(parts, md5Hex)
        && multipartUploads == Without(old(multipartUploads), id)
        && PutRows(old(meta.db), Object(bucket, key, MultipartAttrs(parts, upload.contentType, r.value, now)),
                   Layout(bucket, key, AllChunks(parts))) == Ok(meta.db)
        && RowReplaced(old(meta.db), meta.db, RowKey(bucket, key),
                       MultipartAttrs(parts, upload.contentType, r.value, now),
                       Layout(bucket, key, AllChunks(parts)))
      ensures r.Ok? ==>
        var upload, row := old(multipartUploads)[id], RowKey(bucket, key);
        && var parts := CompleteParts(upload.parts, requested).value;
        && TakenFrom(upload.parts, requested, parts) && IsMultipartETag(r.value, parts, md5Hex)
        && CompletedObject(meta.db, row, parts, upload.contentType, r.value, now)
      ensures id == [] || requested == [] ==> r == Err(InvalidArgument)
      ensures id != [] && requested != [] && !Known(old(multipartUploads), id, bucket, key) ==> r == Err(NoSuchUpload)
      ensures id != [] && requested != [] && Known(old(multipartUploads), id, bucket, key) ==>
        var taken := CompleteParts(old(multipartUploads)[id].parts, requested);
        && (taken.Err? ==> r == Err(taken.error))
        && (taken.Ok? && !durable ==> r == Err(IoFailure))
    {
      if id == [] || |requested| == 0 {
        return Err(InvalidArgument);
      }
      var snapshot := Snapshot(id, bucket, key, requested);
      if snapshot.Err? {
        return Err(snapshot.error);
      }
      var (parts, contentType) := snapshot.value;
      CompletePartsIff(multipartUploads[id].parts, requested);
      hide IsMultipartETag, CompletedObject, RowReplaced, Layout, AllChunks, PutRows, MultipartAttrs, TakenFrom;
      hide CompleteParts;
      r := CommitParts(bucket, key, contentType, parts, md5Hex, now, durable);
      if r.Err? {
        return;
      }
      Forget(id);
    }

    /** AbortMultipartUpload. */
    method AbortMultipartUpload(id: Str, bucket: Str, key: Str) returns (r: Result<()>)
      modifies this
      ensures id == [] ==> r == Err(InvalidArgument) && multipartUploads == old(multipartUploads)
      ensures id != [] && !Known(old(multipartUploads), id, bucket, key) ==>
        r == Err(NoSuchUpload) && multipartUploads == old(multipartUploads)
      ensures id != [] && Known(old(multipartUploads), id, bucket, key) ==>
        r == Ok(()) && multipartUploads == Without(old(multipartUploads), id)
    {
      if id == [] {
        return Err(InvalidArgument);
      }
      if id !in multipartUploads || multipartUploads[id].bucket != bucket || multipartUploads[id].key != key {
        return Err(NoSuchUpload);
      }
      multipartUploads := Without(multipartUploads, id);
      return Ok(());
    }
  }

  lemma EvictedSizeBound(uploads: Uploads)
    requires |uploads| <= MAX_MULTIPART_UPLOADS + 1
    ensures forall after | Evicted(uploads, after) :: |after| <= MAX_MULTIPART_UPLOADS
  {
    forall after | Evicted(uploads, after) ensures |after| <= MAX_MULTIPART_UPLOADS {
      EvictedSize(uploads, after);
    }
  }
}
