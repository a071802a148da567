/** The critical sections of the object are the steps of the protocol: what each one does is its event's next state. */
module MultipartSteps {
  import opened Bytes
  import opened Results
  import opened Tables
  import opened ObjectLayout
  import opened Multipart
  import opened MultipartProtocol

  /** The object is in this protocol state. */
  ghost predicate Agrees(store: MultipartStore, s: State)
    reads store, store.meta
  {
    store.multipartUploads == s.uploads && store.meta.db == s.db
  }

  /** The object went from one protocol state to another by this event. */
  ghost predicate Stepped(store: MultipartStore, s: State, e: Event)
    reads store, store.meta
  {
    Enabled(s, e) && Agrees(store, Next(s, e))
  }

  method CreateStep(store: MultipartStore, ghost s: State, home: Home, contentType: Str, id: Str, now: int)
    returns (r: Result<Str>)
    requires Inv(s) && Agrees(store, s) && id != [] && id !in s.homes
    modifies store
    ensures r.Ok? ==> Stepped(store, s, Create(id, home, contentType, now, store.multipartUploads))
    ensures r.Err? ==> Agrees(store, s)
  {
    r := store.CreateMultipartUpload(home.bucket, home.key, contentType, id, now);
  }

  method CheckPartStep(store: MultipartStore, ghost s: State, ghost op: nat, id: Str, home: Home, ghost number: int)
    returns (r: Result<Str>)
    requires Agrees(store, s) && op !in s.ops
    ensures r.Ok? ==> Stepped(store, s, CheckPart(op, id, home, number))
    ensures r.Err? ==> !KnownAt(s.uploads, id, home)
  {
    r := store.CheckUpload(id, home.bucket, home.key);
  }

  method StorePartStep(store: MultipartStore, ghost s: State, ghost op: nat, id: Str, home: Home, number: int,
                       part: MultipartPart)
    returns (r: Result<Str>)
    requires Agrees(store, s) && op in s.ops && s.ops[op] == Uploading(id, home, number)
    modifies store
    ensures Stepped(store, s, Event.StorePart(op, part))
  {
    r := store.StorePart(id, home.bucket, home.key, number, part);
  }

  method SnapshotStep(store: MultipartStore, ghost s: State, ghost op: nat, id: Str, home: Home,
                      requested: seq<CompletedPart>)
    returns (r: Result<(seq<MultipartPart>, Str)>)
    requires Agrees(store, s) && op in s.ops && s.ops[op] == Locked(id, home, requested)
    ensures Stepped(store, s, TakeSnapshot(op))
    ensures var p := Next(s, TakeSnapshot(op)).ops[op];
      if r.Ok? then p.Committing? && p.home == home && r.value == (p.parts, p.held.contentType)
      else p == Releasing(home)
  {
    r := store.Snapshot(id, home.bucket, home.key, requested);
  }

  method CommitStep(store: MultipartStore, ghost s: State, ghost op: nat, home: Home, contentType: Str,
                    parts: seq<MultipartPart>, md5Hex: Str -> Str, now: int, durable: bool)
    returns (r: Result<Str>)
    requires Agrees(store, s) && op in s.ops && s.ops[op].Committing?
    requires s.ops[op].home == home && s.ops[op].held.contentType == contentType && s.ops[op].parts == parts
    modifies store.meta
    ensures Stepped(store, s, Commit(op, durable, MultipartETag(parts, md5Hex), now))
    ensures r == if durable then Ok(MultipartETag(parts, md5Hex)) else Err(IoFailure)
  {
    hide PutRows, MultipartAttrs, Layout, AllChunks;
    r := store.CommitParts(home.bucket, home.key, contentType, parts, md5Hex, now, durable);
  }

  method ForgetStep(store: MultipartStore, ghost s: State, ghost op: nat, id: Str)
    requires Agrees(store, s) && op in s.ops && s.ops[op].Forgetting? && s.ops[op].id == id
    modifies store
    ensures Stepped(store, s, Event.Forget(op))
  {
    store.Forget(id);
  }

  method AbortStep(store: MultipartStore, ghost s: State, id: Str, home: Home) returns (r: Result<()>)
    requires Inv(s) && Agrees(store, s)
    modifies store
    ensures r.Ok? ==> Stepped(store, s, Abort(id, home))
    ensures r.Err? ==> Agrees(store, s) && !KnownAt(s.uploads, id, home)
  {
    r := store.AbortMultipartUpload(id, home.bucket, home.key);
  }

  /** A plain put, with the key's lock held. */
  method PutStep(store: MultipartStore, ghost s: State, ghost op: nat, home: Home, contentType: Str, size: int,
                 body: Str, strategy: Option<Strategy>, limit: int, up: Option<Uploaded>, typedEtag: Str,
                 md5Hex: Str -> Str, sha256Hex: Str -> Str, now: int, durable: bool)
    returns (r: Result<Str>)
    requires Agrees(store, s) && op in s.ops && s.ops[op] == Putting(home)
    modifies store.meta
    ensures r.Ok? ==> Stepped(store, s, WriteLocked(op, store.meta.db))
    ensures r.Err? ==> Agrees(store, s)
  {
    hide PutParts, PutRows;
    r := PutObject(store.meta, store.startupBuckets, home.bucket, home.key, contentType, size, body, strategy, limit,
                   up,
                   typedEtag, md5Hex, sha256Hex, now, durable);
  }
}
