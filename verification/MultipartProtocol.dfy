/**
 Multipart uploads under concurrency: any number of operations, interleaved at the points where the code lets go
 of `multipartMu`. A key lock has at most one holder; the KeyedLocker module shows that of the lock itself.
 */
module MultipartProtocol {
  import opened Bytes
  import opened Results
  import opened Tables
  import opened ObjectLayout
  import opened Multipart

  datatype Home = Home(bucket: Str, key: Str)

  /** Where an operation stands between two critical sections. */
  datatype Phase =
    | Uploading(id: Str, home: Home, number: int)
    | Locked(id: Str, home: Home, requested: seq<CompletedPart>)
    | Committing(id: Str, home: Home, requested: seq<CompletedPart>, held: Upload, parts: seq<MultipartPart>)
    | Forgetting(id: Str, home: Home)
    | Releasing(home: Home)
    | Putting(home: Home)

  predicate Holds(p: Phase, home: Home) {
    !p.Uploading? && p.home == home
  }

  /**
   A committed object: what was asked for, the session when the request was checked, the parts taken, ETag and time.
   */
  datatype Committed = Committed(id: Str, home: Home, requested: seq<CompletedPart>, held: Upload,
                                 parts: seq<MultipartPart>, etag: Str, now: int)
  {
    function Attrs(): ObjectAttrs {
      MultipartAttrs(parts, held.contentType, etag, now)
    }

    function Chunks(): seq<Chunk> {
      Layout(home.bucket, home.key, AllChunks(parts))
    }
  }

  datatype State = State(
    uploads: Uploads,
    homes: map<Str, Home>,
    ops: map<nat, Phase>,
    commits: seq<Committed>,
    aborted: set<Str>,
    evicted: set<Str>,
    db: Database)

  const START := State(map[], map[], map[], [], {}, {}, Database(map[], map[], map[]))

  datatype Event =
    | Create(id: Str, home: Home, contentType: Str, now: int, after: Uploads)
    | CheckPart(op: nat, id: Str, home: Home, number: int)
    | StorePart(op: nat, part: MultipartPart)
    | DropPart(op: nat)
    | LockForComplete(op: nat, id: Str, home: Home, requested: seq<CompletedPart>)
    | LockForPut(op: nat, home: Home)
    | TakeSnapshot(op: nat)
    | Commit(op: nat, durable: bool, etag: Str, now: int)
    | WriteLocked(op: nat, written: Database)
    | WriteUnlocked(rows: set<RowKey>, written: Database)
    | Forget(op: nat)
    | Release(op: nat)
    | Abort(id: Str, home: Home)

  ghost predicate Free(s: State, home: Home) {
    forall o | o in s.ops :: !Holds(s.ops[o], home)
  }

  predicate KnownAt(uploads: Uploads, id: Str, home: Home) {
    Known(uploads, id, home.bucket, home.key)
  }

  function Opened(s: State, e: Event): Uploads
    requires e.Create?
  {
    s.uploads[e.id := Upload(e.home.bucket, e.home.key, e.contentType, e.now, map[])]
  }

  function RowOf(home: Home): RowKey {
    RowKey(home.bucket, home.key)
  }

  /** A write that leaves every object outside `rows` as it is. */
  ghost predicate OnlyRows(t: Database, t': Database, rows: set<RowKey>) {
    forall row: RowKey | row !in rows ::
      && (row in t'.objects <==> row in t.objects)
      && (row in t.objects ==> t'.objects[row] == t.objects[row])
      && ListChunks(t', row) == ListChunks(t, row)
  }

  /**
   What can happen next: upload IDs are fresh, and a key is locked only when nobody holds it. Plain puts and
   completions write their own key under its lock; deletes, copies, moves and renames write without one.
   */
  ghost predicate Enabled(s: State, e: Event) {
    match e
    case Create(id, home, contentType, now, after) => id != [] && id !in s.homes && Evicted(Opened(s, e), after)
    case CheckPart(op, id, home, number) => op !in s.ops && KnownAt(s.uploads, id, home)
    case StorePart(op, part) => op in s.ops && s.ops[op].Uploading?
    case DropPart(op) => op in s.ops && s.ops[op].Uploading?
    case LockForComplete(op, id, home, requested) => op !in s.ops && Free(s, home)
    case LockForPut(op, home) => op !in s.ops && Free(s, home)
    case TakeSnapshot(op) => op in s.ops && s.ops[op].Locked?
    case Commit(op, durable, etag, now) => op in s.ops && s.ops[op].Committing?
    case WriteLocked(op, written) =>
      op in s.ops && s.ops[op].Putting? && OnlyRows(s.db, written, {RowOf(s.ops[op].home)})
    case WriteUnlocked(rows, written) => OnlyRows(s.db, written, rows)
    case Forget(op) => op in s.ops && s.ops[op].Forgetting?
    case Release(op) => op in s.ops && (s.ops[op].Releasing? || s.ops[op].Putting?)
    case Abort(id, home) => KnownAt(s.uploads, id, home)
  }

  function Done(s: State, op: nat): map<nat, Phase> {
    map o | o in s.ops && o != op :: s.ops[o]
  }

  function AfterSnapshot(s: State, p: Phase): Phase
    requires p.Locked?
  {
    if !KnownAt(s.uploads, p.id, p.home) then Releasing(p.home) else
      match CompleteParts(s.uploads[p.id].parts, p.requested)
      case Err(_) => Releasing(p.home)
      case Ok(parts) => Committing(p.id, p.home, p.requested, s.uploads[p.id], parts)
  }

  function CommitOf(p: Phase, etag: Str, now: int): Committed
    requires p.Committing?
  {
    Committed(p.id, p.home, p.requested, p.held, p.parts, etag, now)
  }

  /** The transaction of a completion. */
  function Written(t: Database, c: Committed): Database {
    match PutRows(t, Object(c.home.bucket, c.home.key, c.Attrs()), c.Chunks())
    case Err(_) => t
    case Ok(u) => u
  }

  ghost function Next(s: State, e: Event): State
    requires Enabled(s, e)
  {
    match e
    case Create(id, home, contentType, now, after) =>
      s.(uploads := after, homes := s.homes[id := home], evicted := s.evicted + (Opened(s, e).Keys - after.Keys))
    case CheckPart(op, id, home, number) => s.(ops := s.ops[op := Uploading(id, home, number)])
    case StorePart(op, part) =>
      var p := s.ops[op];
      s.(ops := Done(s, op),
         uploads := if KnownAt(s.uploads, p.id, p.home) then WithPart(s.uploads, p.id, p.number, part) else s.uploads)
    case DropPart(op) => s.(ops := Done(s, op))
    case LockForComplete(op, id, home, requested) => s.(ops := s.ops[op := Locked(id, home, requested)])
    case LockForPut(op, home) => s.(ops := s.ops[op := Putting(home)])
    case TakeSnapshot(op) => s.(ops := s.ops[op := AfterSnapshot(s, s.ops[op])])
    case Commit(op, durable, etag, now) =>
      var p := s.ops[op];
      if durable then s.(ops := s.ops[op := Forgetting(p.id, p.home)],
                         commits := s.commits + [CommitOf(p, etag, now)],
                         db := Written(s.db, CommitOf(p, etag, now)))
      else s.(ops := s.ops[op := Releasing(p.home)])
    case WriteLocked(op, written) => s.(db := written)
    case WriteUnlocked(rows, written) => s.(db := written)
    case Forget(op) =>
      var p := s.ops[op];
      s.(ops := s.ops[op := Releasing(p.home)], uploads := Without(s.uploads, p.id))
    case Release(op) => s.(ops := Done(s, op))
    case Abort(id, home) => s.(uploads := Without(s.uploads, id), aborted := s.aborted + {id})
  }

  /** A run: `states[i]` is the state before `events[i]`. */
  ghost predicate Trace(states: seq<State>, events: seq<Event>) {
    && |states| == |events| + 1 && states[0] == START
    && forall i | 0 <= i < |events| :: Enabled(states[i], events[i]) && states[i + 1] == Next(states[i], events[i])
  }

  // ---------------------------------------------------------------------------------------------
  // The invariant
  // ---------------------------------------------------------------------------------------------

  ghost predicate UploadsAtHome(s: State) {
    forall id | id in s.uploads ::
      id != [] && id in s.homes && s.homes[id] == Home(s.uploads[id].bucket, s.uploads[id].key)
  }

  ghost predicate OpsAtHome(s: State) {
    forall o | o in s.ops && (s.ops[o].Committing? || s.ops[o].Forgetting?) ::
      s.ops[o].id in s.homes && s.homes[s.ops[o].id] == s.ops[o].home
  }

  ghost predicate CommitsAtHome(s: State) {
    forall i | 0 <= i < |s.commits| :: s.commits[i].id in s.homes && s.homes[s.commits[i].id] == s.commits[i].home
  }

  /** Sessions, operations and commits agree on which key an upload ID belongs to. */
  ghost predicate AtHome(s: State) {
    UploadsAtHome(s) && OpsAtHome(s) && CommitsAtHome(s)
  }

  /** No two operations hold the lock of one key. */
  ghost predicate Exclusive(s: State) {
    forall a, b, home | a in s.ops && b in s.ops && Holds(s.ops[a], home) && Holds(s.ops[b], home) :: a == b
  }

  ghost predicate BeingForgotten(s: State, id: Str) {
    exists o :: o in s.ops && s.ops[o].Forgetting? && s.ops[o].id == id
  }

  ghost predicate HasCommit(s: State, id: Str) {
    exists i :: 0 <= i < |s.commits| && s.commits[i].id == id
  }

  /**
   A committed session is only still there while its own completion is about to remove it, and nobody commits it
   again.
   */
  ghost predicate CommittedOnce(s: State) {
    && (forall i, j | 0 <= i < j < |s.commits| :: s.commits[i].id != s.commits[j].id)
    && (forall id | id in s.uploads && HasCommit(s, id) :: BeingForgotten(s, id))
    && (forall o | o in s.ops && s.ops[o].Committing? :: !HasCommit(s, s.ops[o].id))
    && (forall o | o in s.ops && s.ops[o].Forgetting? :: HasCommit(s, s.ops[o].id))
  }

  /** Every upload ID ever issued is live, committed, aborted or evicted. */
  ghost predicate AccountedFor(s: State) {
    forall id | id in s.homes :: id in s.uploads || HasCommit(s, id) || id in s.aborted || id in s.evicted
  }

  ghost predicate Inv(s: State) {
    AtHome(s) && Exclusive(s) && CommittedOnce(s) && AccountedFor(s) && |s.uploads| <= MAX_MULTIPART_UPLOADS
  }

  lemma UploadsAtHomeKept(s: State, e: Event)
    requires UploadsAtHome(s) && Enabled(s, e)
    ensures UploadsAtHome(Next(s, e))
  {
    hide CompleteParts;
    if e.Create? {
      EvictedSize(Opened(s, e), e.after);
    }
  }

  lemma OpsAtHomeKept(s: State, e: Event)
    requires UploadsAtHome(s) && OpsAtHome(s) && Enabled(s, e)
    ensures OpsAtHome(Next(s, e))
  {
    hide Evicted, CompleteParts;
  }

  lemma CommitsAtHomeKept(s: State, e: Event)
    requires OpsAtHome(s) && CommitsAtHome(s) && Enabled(s, e)
    ensures CommitsAtHome(Next(s, e))
  {
    hide Evicted, CompleteParts;
  }

  lemma HomesKept(s: State, e: Event)
    requires AtHome(s) && Enabled(s, e)
    ensures AtHome(Next(s, e))
  {
    hide UploadsAtHome, OpsAtHome, CommitsAtHome, Enabled, Next;
    UploadsAtHomeKept(s, e);
    OpsAtHomeKept(s, e);
    CommitsAtHomeKept(s, e);
  }

  lemma ExclusiveKept(s: State, e: Event)
    requires Exclusive(s) && Enabled(s, e)
    ensures Exclusive(Next(s, e))
  {
    var s' := Next(s, e);
    forall a, b, home | a in s'.ops && b in s'.ops && Holds(s'.ops[a], home) && Holds(s'.ops[b], home) ensures a == b {
      if a in s.ops && b in s.ops && a != b {
        assert Holds(s.ops[a], home) && Holds(s.ops[b], home);
      }
    }
  }

  lemma CommitKept(s: State, e: Event)
    requires e.Commit? && AtHome(s) && Exclusive(s) && CommittedOnce(s) && Enabled(s, e)
    ensures CommittedOnce(Next(s, e))
  {
    var s', p := Next(s, e), s.ops[e.op];
    if e.durable {
      forall id ensures HasCommit(s', id) <==> HasCommit(s, id) || id == p.id {
        CommitAdded(s, s', id);
      }
      assert s'.ops[e.op].Forgetting?;
      forall o | o in s'.ops && s'.ops[o].Committing? ensures s'.ops[o].id != p.id {
        assert Holds(s.ops[o], s.ops[o].home) && Holds(p, p.home);
      }
    } else {
      forall id ensures HasCommit(s', id) <==> HasCommit(s, id) {
      }
    }
    forall id | id in s'.uploads && HasCommit(s', id) ensures BeingForgotten(s', id) {
      if id != p.id || !e.durable {
        var o :| o in s.ops && s.ops[o].Forgetting? && s.ops[o].id == id;
        assert s'.ops[o] == s.ops[o];
      }
    }
  }

  lemma CommitAdded(s: State, s': State, id: Str)
    requires |s'.commits| == |s.commits| + 1 && s'.commits[..|s.commits|] == s.commits
    ensures HasCommit(s', id) <==> HasCommit(s, id) || id == s'.commits[|s.commits|].id
  {
    var n := |s.commits|;
    assert forall i | 0 <= i < n :: s'.commits[i] == s.commits[i];
    if HasCommit(s, id) {
      var i :| 0 <= i < n && s.commits[i].id == id;
      assert s'.commits[i].id == id;
    }
  }

  lemma SnapshotKept(s: State, e: Event)
    requires e.TakeSnapshot? && AtHome(s) && Exclusive(s) && CommittedOnce(s) && Enabled(s, e)
    ensures CommittedOnce(Next(s, e))
  {
    var s', p := Next(s, e), s.ops[e.op];
    assert forall id :: HasCommit(s', id) <==> HasCommit(s, id);
    if KnownAt(s.uploads, p.id, p.home) && HasCommit(s, p.id) {
      var o :| o in s.ops && s.ops[o].Forgetting? && s.ops[o].id == p.id;
      assert s.ops[o].home == p.home;
      assert Holds(s.ops[o], p.home) && Holds(p, p.home);
    }
    forall id | id in s'.uploads && HasCommit(s', id) ensures BeingForgotten(s', id) {
      var o :| o in s.ops && s.ops[o].Forgetting? && s.ops[o].id == id;
      assert s'.ops[o] == s.ops[o];
    }
  }

  lemma ForgetKept(s: State, e: Event)
    requires e.Forget? && CommittedOnce(s) && Enabled(s, e)
    ensures CommittedOnce(Next(s, e))
  {
    var s' := Next(s, e);
    assert forall id :: HasCommit(s', id) <==> HasCommit(s, id);
    forall id | id in s'.uploads && HasCommit(s', id) ensures BeingForgotten(s', id) {
      var o :| o in s.ops && s.ops[o].Forgetting? && s.ops[o].id == id;
      assert s'.ops[o] == s.ops[o];
    }
  }

  /** The same operations are committing or forgetting, with the same commits, and no session of an old ID came up. */
  ghost predicate SameCommitting(s: State, t: State) {
    && t.commits == s.commits
    && (forall o | o in s.ops && s.ops[o].Forgetting? :: o in t.ops && t.ops[o] == s.ops[o])
    && (forall o | o in t.ops && (t.ops[o].Forgetting? || t.ops[o].Committing?) :: o in s.ops && s.ops[o] == t.ops[o])
    && (forall id | id in t.uploads :: id in s.uploads || id !in s.homes)
  }

  lemma SameCommittingKeeps(s: State, t: State)
    requires SameCommitting(s, t) && CommitsAtHome(s) && CommittedOnce(s)
    ensures CommittedOnce(t)
  {
    forall id ensures HasCommit(t, id) <==> HasCommit(s, id) {
    }
    assert forall id | HasCommit(s, id) :: id in s.homes;
    forall id | id in t.uploads && HasCommit(t, id) ensures BeingForgotten(t, id) {
      var o :| o in s.ops && s.ops[o].Forgetting? && s.ops[o].id == id;
      assert t.ops[o] == s.ops[o];
    }
  }

  lemma OthersLeaveCommitting(s: State, e: Event)
    requires !e.Commit? && !e.TakeSnapshot? && !e.Forget? && Enabled(s, e)
    ensures SameCommitting(s, Next(s, e))
  {
    if e.Create? {
      EvictedSize(Opened(s, e), e.after);
    }
    hide Evicted, CompleteParts;
  }

  /** Events that leave committing and forgetting operations alone and issue no committed session. */
  lemma OthersKept(s: State, e: Event)
    requires !e.Commit? && !e.TakeSnapshot? && !e.Forget? && AtHome(s) && CommittedOnce(s) && Enabled(s, e)
    ensures CommittedOnce(Next(s, e))
  {
    hide Next, CommittedOnce, SameCommitting;
    OthersLeaveCommitting(s, e);
    SameCommittingKeeps(s, Next(s, e));
  }

  lemma AccountKept(s: State, e: Event)
    requires AtHome(s) && CommittedOnce(s) && AccountedFor(s) && Enabled(s, e)
    ensures AccountedFor(Next(s, e))
  {
    var s' := Next(s, e);
    forall id | HasCommit(s, id) ensures HasCommit(s', id) {
      var i :| 0 <= i < |s.commits| && s.commits[i].id == id;
      assert s'.commits[i].id == id;
    }
    if e.Create? {
      EvictedSize(Opened(s, e), e.after);
    }
    if e.Forget? {
      assert HasCommit(s, s.ops[e.op].id);
    }
  }

  lemma OpenedSize(s: State, e: Event)
    requires e.Create?
    ensures |Opened(s, e)| <= |s.uploads| + 1
  {
    assert Opened(s, e).Keys == s.uploads.Keys + {e.id};
    assert |Opened(s, e).Keys| == |Opened(s, e)| && |s.uploads.Keys| == |s.uploads|;
  }

  lemma SizeKept(s: State, e: Event)
    requires |s.uploads| <= MAX_MULTIPART_UPLOADS && Enabled(s, e)
    ensures |Next(s, e).uploads| <= MAX_MULTIPART_UPLOADS
  {
    var s' := Next(s, e);
    if e.Create? {
      hide Opened, Evicted;
      OpenedSize(s, e);
      EvictedSize(Opened(s, e), e.after);
    } else {
      KeysSubset(s'.uploads, s.uploads);
    }
  }

  lemma KeysSubset(a: Uploads, b: Uploads)
    requires a.Keys <= b.Keys
    ensures |a| <= |b|
  {
    assert b.Keys == a.Keys + (b.Keys - a.Keys);
    assert |a.Keys| == |a| && |b.Keys| == |b|;
  }

  lemma InvKept(s: State, e: Event)
    requires Inv(s) && Enabled(s, e)
    ensures Inv(Next(s, e))
  {
    hide AtHome, Exclusive, CommittedOnce, AccountedFor, Enabled, Next;
    HomesKept(s, e);
    ExclusiveKept(s, e);
    match e {
      case Commit(_, _, _, _) => CommitKept(s, e);
      case TakeSnapshot(_) => SnapshotKept(s, e);
      case Forget(_) => ForgetKept(s, e);
      case _ => OthersKept(s, e);
    }
    AccountKept(s, e);
    SizeKept(s, e);
  }

  lemma {:induction false} InvReached(states: seq<State>, events: seq<Event>, n: nat)
    requires Trace(states, events) && n < |states|
    ensures Inv(states[n])
  {
    if n > 0 {
      InvReached(states, events, n - 1);
      InvKept(states[n - 1], events[n - 1]);
    }
  }

  // ---------------------------------------------------------------------------------------------
  // What every run keeps
  // ---------------------------------------------------------------------------------------------

  /** In every interleaving an upload ID is committed at most once, and there are never more than 1000 sessions. */
  lemma CommittedAtMostOnce(states: seq<State>, events: seq<Event>, n: nat)
    requires Trace(states, events) && n < |states|
    ensures forall i, j | 0 <= i < j < |states[n].commits| :: states[n].commits[i].id != states[n].commits[j].id
    ensures |states[n].uploads| <= 1000
  {
    InvReached(states, events, n);
  }

  /** A session only goes away by being committed, aborted or evicted. */
  lemma SessionsAccountedFor(states: seq<State>, events: seq<Event>, n: nat, id: Str)
    requires Trace(states, events) && n < |states| && id in states[n].homes
    ensures id in states[n].uploads || HasCommit(states[n], id) || id in states[n].aborted || id in states[n].evicted
  {
    InvReached(states, events, n);
  }

  /** The state in which this was the session. */
  ghost predicate HeldAt(states: seq<State>, m: nat, id: Str, home: Home, held: Upload) {
    && m < |states| && KnownAt(states[m].uploads, id, home) && states[m].uploads[id] == held
  }

  ghost predicate WasHeld(states: seq<State>, n: nat, id: Str, home: Home, held: Upload) {
    exists m: nat :: m <= n && HeldAt(states, m, id, home, held)
  }

  /** The operations of a state that are committing took parts that had been held by step `n`. */
  ghost predicate OpsTakeHeld(s: State, states: seq<State>, n: nat) {
    forall o | o in s.ops && s.ops[o].Committing? ::
      var p := s.ops[o];
      CompleteParts(p.held.parts, p.requested) == Ok(p.parts) && WasHeld(states, n, p.id, p.home, p.held)
  }

  ghost predicate CommitsTakeHeld(s: State, states: seq<State>, n: nat) {
    forall i | 0 <= i < |s.commits| ::
      var c := s.commits[i];
      CompleteParts(c.held.parts, c.requested) == Ok(c.parts) && WasHeld(states, n, c.id, c.home, c.held)
  }

  lemma WasHeldLater(states: seq<State>, n: nat, id: Str, home: Home, held: Upload)
    requires WasHeld(states, n, id, home, held)
    ensures WasHeld(states, n + 1, id, home, held)
  {
    var m: nat :| m <= n && HeldAt(states, m, id, home, held);
    assert m <= n + 1;
  }

  lemma TakenLater(s: State, states: seq<State>, n: nat)
    requires OpsTakeHeld(s, states, n) && CommitsTakeHeld(s, states, n)
    ensures OpsTakeHeld(s, states, n + 1) && CommitsTakeHeld(s, states, n + 1)
  {
    hide WasHeld, CompleteParts;
    forall o | o in s.ops && s.ops[o].Committing?
      ensures WasHeld(states, n + 1, s.ops[o].id, s.ops[o].home, s.ops[o].held)
    {
      WasHeldLater(states, n, s.ops[o].id, s.ops[o].home, s.ops[o].held);
    }
    forall i | 0 <= i < |s.commits|
      ensures WasHeld(states, n + 1, s.commits[i].id, s.commits[i].home, s.commits[i].held)
    {
      WasHeldLater(states, n, s.commits[i].id, s.commits[i].home, s.commits[i].held);
    }
  }

  lemma OpsTakeHeldKept(s: State, e: Event, states: seq<State>, n: nat)
    requires OpsTakeHeld(s, states, n) && Enabled(s, e) && n < |states| && states[n] == s
    ensures OpsTakeHeld(Next(s, e), states, n)
  {
    hide WasHeld, CompleteParts, Evicted;
    if e.TakeSnapshot? {
      var p := s.ops[e.op];
      if KnownAt(s.uploads, p.id, p.home) {
        HeldNow(states, n, p.id, p.home);
      }
    }
  }

  lemma HeldNow(states: seq<State>, n: nat, id: Str, home: Home)
    requires n < |states| && KnownAt(states[n].uploads, id, home)
    ensures WasHeld(states, n, id, home, states[n].uploads[id])
  {
    assert HeldAt(states, n, id, home, states[n].uploads[id]);
  }

  lemma CommitsTakeHeldKept(s: State, e: Event, states: seq<State>, n: nat)
    requires OpsTakeHeld(s, states, n) && CommitsTakeHeld(s, states, n) && Enabled(s, e)
    ensures CommitsTakeHeld(Next(s, e), states, n)
  {
    hide WasHeld, CompleteParts, Evicted;
  }

  lemma {:induction false} TakenAsHeld(states: seq<State>, events: seq<Event>, n: nat)
    requires Trace(states, events) && n < |states|
    ensures OpsTakeHeld(states[n], states, n) && CommitsTakeHeld(states[n], states, n)
  {
    if n > 0 {
      TakenAsHeld(states, events, n - 1);
      hide OpsTakeHeld, CommitsTakeHeld, Next, Enabled;
      var s, e := states[n - 1], events[n - 1];
      OpsTakeHeldKept(s, e, states, n - 1);
      CommitsTakeHeldKept(s, e, states, n - 1);
      assert states[n] == Next(s, e);
      TakenLater(states[n], states, n - 1);
    }
  }

  /**
   What was committed are the requested parts, in strictly ascending order and with matching ETags, exactly as the
   session held them at one earlier moment of the run, whatever was uploaded, replaced, aborted or evicted since.
   */
  lemma CommitsTakeHeldParts(states: seq<State>, events: seq<Event>, n: nat, i: nat)
    requires Trace(states, events) && n < |states| && i < |states[n].commits|
    ensures var c := states[n].commits[i];
      && WasHeld(states, n, c.id, c.home, c.held)
      && StrictlyAscending(c.requested) && |c.parts| == |c.requested|
      && forall k | 0 <= k < |c.requested| ::
           Held(c.held.parts, c.requested[k]) && c.parts[k] == c.held.parts[c.requested[k].partNumber]
  {
    TakenAsHeld(states, events, n);
    var c := states[n].commits[i];
    CompletePartsIff(c.held.parts, c.requested);
  }

  // ---------------------------------------------------------------------------------------------
  // How sessions change and leave
  // ---------------------------------------------------------------------------------------------

  /** The three ways out: forgotten once committed, aborted by its own key, or evicted as an oldest above the limit. */
  ghost predicate Leaves(s: State, e: Event, id: Str) {
    match e
    case Forget(op) => op in s.ops && s.ops[op].Forgetting? && s.ops[op].id == id && HasCommit(s, id)
    case Abort(aborted, home) => aborted == id && KnownAt(s.uploads, id, home)
    case Create(_, _, _, _, _) => |Opened(s, e)| > MAX_MULTIPART_UPLOADS && IsOldest(Opened(s, e), id)
    case _ => false
  }

  /** The one way in which a session's parts change: an operation that checked the session stores a part in it. */
  ghost predicate StoresPart(s: State, e: Event, id: Str, after: Upload) {
    && e.StorePart? && e.op in s.ops && s.ops[e.op].Uploading? && s.ops[e.op].id == id && id in s.uploads
    && after == s.uploads[id].(parts := s.uploads[id].parts[s.ops[e.op].number := e.part])
  }

  lemma StepKeepsSession(s: State, e: Event, id: Str)
    requires Inv(s) && Enabled(s, e) && id in s.uploads
    ensures id in Next(s, e).uploads ==>
      Next(s, e).uploads[id] == s.uploads[id] || StoresPart(s, e, id, Next(s, e).uploads[id])
    ensures id !in Next(s, e).uploads ==> Leaves(s, e, id)
  {
    hide CompleteParts, Exclusive, AccountedFor;
    if e.Create? {
      assert id in s.homes && id != e.id;
      EvictedSize(Opened(s, e), e.after);
    }
  }

  /**
   A session stays until it is committed and forgotten, aborted or evicted, and nothing but a stored part changes it.
   */
  lemma SessionsLeaveOnlyBy(states: seq<State>, events: seq<Event>, n: nat, id: Str)
    requires Trace(states, events) && n < |events| && id in states[n].uploads
    ensures id in states[n + 1].uploads ==>
      states[n + 1].uploads[id] == states[n].uploads[id] ||
        StoresPart(states[n], events[n], id, states[n + 1].uploads[id])
    ensures id !in states[n + 1].uploads ==> Leaves(states[n], events[n], id)
  {
    hide Inv, Enabled, Next, Leaves, StoresPart;
    InvReached(states, events, n);
    StepKeepsSession(states[n], events[n], id);
  }

  // ---------------------------------------------------------------------------------------------
  // What a commit leaves in the tables
  // ---------------------------------------------------------------------------------------------

  /** The tables hold the committed object: its attributes and the layout of the parts taken. */
  ghost predicate Stored(t: Database, c: Committed) {
    RowOf(c.home) in t.objects && t.objects[RowOf(c.home)] == c.Attrs() && ListChunks(t, RowOf(c.home)) == c.Chunks()
  }

  lemma WrittenStored(t: Database, c: Committed)
    ensures Stored(Written(t, c), c) && OnlyRows(t, Written(t, c), {RowOf(c.home)})
  {
    hide PutRows, Layout, AllChunks, MultipartAttrs, ListChunks;
    CompletedRows(t, c.home.bucket, c.home.key, c.parts, c.Attrs());
  }

  /** The steps that write a key's rows. */
  predicate Writes(s: State, e: Event, row: RowKey) {
    match e
    case Commit(op, durable, _, _) => durable && op in s.ops && RowOf(s.ops[op].home) == row
    case WriteLocked(op, _) => op in s.ops && RowOf(s.ops[op].home) == row
    case WriteUnlocked(rows, _) => row in rows
    case _ => false
  }

  lemma QuietStep(s: State, e: Event, c: Committed)
    requires Enabled(s, e) && Stored(s.db, c) && !Writes(s, e, RowOf(c.home))
    ensures Stored(Next(s, e).db, c)
  {
    hide ListChunks, Written, Evicted, CompleteParts;
    if e.Commit? {
      WrittenStored(s.db, CommitOf(s.ops[e.op], e.etag, e.now));
    }
  }

  /** From a durable commit until the key's next write, the key holds the committed upload. */
  lemma {:induction false} LastCommitStands(states: seq<State>, events: seq<Event>, i: nat, n: nat)
    requires Trace(states, events) && i < n < |states| && events[i].Commit? && events[i].durable
    requires forall j | i < j < n :: !Writes(states[j], events[j], RowOf(states[i].ops[events[i].op].home))
    ensures var c := CommitOf(states[i].ops[events[i].op], events[i].etag, events[i].now);
      states[i + 1].commits == states[i].commits + [c] && Stored(states[n].db, c)
  {
    hide Stored, Written;
    var c := CommitOf(states[i].ops[events[i].op], events[i].etag, events[i].now);
    assert states[i + 1] == Next(states[i], events[i]);
    if n == i + 1 {
      WrittenStored(states[i].db, c);
    } else {
      LastCommitStands(states, events, i, n - 1);
      QuietStep(states[n - 1], events[n - 1], c);
    }
  }

  /** A completion on its way out, with what it committed still in the tables. */
  ghost predicate Finishing(s: State, op: nat, c: Committed) {
    op in s.ops && (s.ops[op].Forgetting? || s.ops[op].Releasing?) && s.ops[op].home == c.home && Stored(s.db, c)
  }

  /** The completion keeps its lock in this step, and nothing without a lock writes the key. */
  predicate Spares(e: Event, op: nat, home: Home) {
    e != Release(op) && (e.WriteUnlocked? ==> RowOf(home) !in e.rows)
  }

  lemma CommitFinishes(s: State, op: nat, etag: Str, now: int)
    requires Enabled(s, Commit(op, true, etag, now))
    ensures Finishing(Next(s, Commit(op, true, etag, now)), op, CommitOf(s.ops[op], etag, now))
  {
    hide Stored, Written;
    WrittenStored(s.db, CommitOf(s.ops[op], etag, now));
  }

  lemma FinishingKept(s: State, e: Event, op: nat, c: Committed)
    requires Exclusive(s) && Enabled(s, e) && Finishing(s, op, c) && Spares(e, op, c.home)
    ensures Finishing(Next(s, e), op, c)
  {
    hide Evicted, CompleteParts, OnlyRows, Written, Stored;
    forall o | o in s.ops && Holds(s.ops[o], c.home) ensures o == op {
      assert Holds(s.ops[op], c.home);
    }
    QuietStep(s, e, c);
  }

  lemma {:induction false} FinishingLasts(
    states: seq<State>, events: seq<Event>, m: nat, n: nat, op: nat, c: Committed)
    requires Trace(states, events) && m <= n < |states| && Finishing(states[m], op, c)
    requires forall j | m <= j < n :: Spares(events[j], op, c.home)
    ensures Finishing(states[n], op, c)
  {
    hide Enabled, Next, Finishing, Spares, Exclusive, AtHome, CommittedOnce, AccountedFor;
    if m < n {
      FinishingLasts(states, events, m, n - 1, op, c);
      InvReached(states, events, n - 1);
      FinishingKept(states[n - 1], events[n - 1], op, c);
    }
  }

  /**
   A completion that has committed answers for what is stored: until it lets go of its key's lock, whatever else
   runs, the key holds the object it committed, unless an operation that takes no lock writes the key.
   */
  lemma HolderKeepsRows(states: seq<State>, events: seq<Event>, i: nat, n: nat)
    requires Trace(states, events) && i < n < |states| && events[i].Commit? && events[i].durable
    requires forall j | i < j < n :: Spares(events[j], events[i].op, states[i].ops[events[i].op].home)
    ensures Finishing(states[n], events[i].op, CommitOf(states[i].ops[events[i].op], events[i].etag, events[i].now))
  {
    var op, c := events[i].op, CommitOf(states[i].ops[events[i].op], events[i].etag, events[i].now);
    hide Enabled, Next, Finishing, Spares;
    CommitFinishes(states[i], op, events[i].etag, events[i].now);
    FinishingLasts(states, events, i + 1, n, op, c);
  }
}
