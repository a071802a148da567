/**
 Who waits for whom: the semaphores, the key locks and the two mutexes, taken by any number of operations. An
 operation is what it holds and what it has still to do; it may also fail and unwind what it holds.
 */
module Admission {
  import opened Bytes

  datatype Resource = Uploads | Downloads | KeyLock(key: Str) | LockerMu | TelegramSem | MultipartMu

  /** The order in which resources are taken. */
  function Rank(r: Resource): nat {
    match r
    case Uploads => 0
    case Downloads => 0
    case KeyLock(_) => 1
    case LockerMu => 2
    case TelegramSem => 2
    case MultipartMu => 2
  }

  /** Configured concurrency; 0 leaves the semaphore out, and acquire always succeeds. */
  datatype Limits = Limits(uploads: nat, downloads: nat, telegram: nat)

  function Capacity(limits: Limits, r: Resource): nat {
    match r
    case Uploads => limits.uploads
    case Downloads => limits.downloads
    case TelegramSem => limits.telegram
    case _ => 1
  }

  datatype Action = Acquire(r: Resource) | Drop(r: Resource) | Call

  // ---------------------------------------------------------------------------------------------
  // What the operations do
  // ---------------------------------------------------------------------------------------------

  /** KeyedLocker.Lock. */
  function LockKey(key: Str): seq<Action> {
    [Acquire(LockerMu), Drop(LockerMu), Acquire(KeyLock(key))]
  }

  /** What giving a resource back takes; the unlock closure of a key also visits the lock table. */
  function GiveBack(r: Resource): seq<Action> {
    if r.KeyLock? then [Drop(r), Acquire(LockerMu), Drop(LockerMu)] else [Drop(r)]
  }

  function Telegram(): seq<Action> {
    [Acquire(TelegramSem), Call, Drop(TelegramSem)]
  }

  function Section(): seq<Action> {
    [Acquire(MultipartMu), Call, Drop(MultipartMu)]
  }

  function Chunks(n: nat): seq<Action> {
    if n == 0 then [] else Telegram() + Chunks(n - 1)
  }

  datatype Kind =
    | PutObject(key: Str, empty: bool)
    | UploadPart
    | CompleteUpload(key: Str)
    | CreateUpload
    | AbortUpload
    | GetObject(chunks: nat)

  /** What an operation does when nothing goes wrong. */
  function Script(kind: Kind): seq<Action> {
    match kind
    case PutObject(key, empty) =>
      [Acquire(Uploads)] + (LockKey(key) + ([Call] + ((if empty then [] else Telegram()) +
        ([Call] + (GiveBack(KeyLock(key)) + [Drop(Uploads)])))))
    case UploadPart =>
      Section() + ([Acquire(Uploads)] + ([Call] + (Telegram() + (Section() + [Drop(Uploads)]))))
    case CompleteUpload(key) =>
      LockKey(key) + (Section() + ([Call] + (Section() + GiveBack(KeyLock(key)))))
    case CreateUpload => Section()
    case AbortUpload => Section()
    case GetObject(chunks) => [Call] + ([Acquire(Downloads)] + (Chunks(chunks) + [Drop(Downloads)]))
  }

  /** The deferred releases, last taken first. */
  function Unwind(held: seq<Resource>): seq<Action> {
    if |held| == 0 then [] else GiveBack(held[|held| - 1]) + Unwind(held[..|held| - 1])
  }

  // ---------------------------------------------------------------------------------------------
  // The state machine
  // ---------------------------------------------------------------------------------------------

  datatype Op = Op(held: seq<Resource>, todo: seq<Action>)

  datatype State = State(ops: seq<Op>, occupied: map<Resource, int>)

  const START := State([], map[])

  function Occupied(s: State, r: Resource): int {
    if r in s.occupied then s.occupied[r] else 0
  }

  datatype Event = Begin(kind: Kind) | Advance(i: nat) | Fail(i: nat)

  predicate HasRoom(limits: Limits, s: State, r: Resource) {
    Capacity(limits, r) == 0 || Occupied(s, r) < Capacity(limits, r)
  }

  predicate CanAdvance(limits: Limits, s: State, i: nat)
    requires i < |s.ops|
  {
    var todo := s.ops[i].todo;
    |todo| > 0 && match todo[0]
      case Acquire(r) => HasRoom(limits, s, r)
      case Drop(r) => r in s.ops[i].held
      case Call => true
  }

  /** A call may fail, and so may waiting for a semaphore, when the request is cancelled. */
  predicate Fallible(a: Action) {
    a.Call? || (a.Acquire? && a.r in {Uploads, Downloads, TelegramSem})
  }

  predicate Enabled(limits: Limits, s: State, e: Event) {
    match e
    case Begin(_) => true
    case Advance(i) => i < |s.ops| && CanAdvance(limits, s, i)
    case Fail(i) => i < |s.ops| && |s.ops[i].todo| > 0 && Fallible(s.ops[i].todo[0])
  }

  function Removed(held: seq<Resource>, r: Resource): seq<Resource> {
    if |held| == 0 then [] else
      if held[|held| - 1] == r then held[..|held| - 1] else Removed(held[..|held| - 1], r) + [held[|held| - 1]]
  }

  function Advanced(op: Op): Op
    requires |op.todo| > 0
  {
    match op.todo[0]
    case Acquire(r) => Op(op.held + [r], op.todo[1..])
    case Drop(r) => Op(Removed(op.held, r), op.todo[1..])
    case Call => Op(op.held, op.todo[1..])
  }

  function Next(limits: Limits, s: State, e: Event): State
    requires Enabled(limits, s, e)
  {
    match e
    case Begin(kind) => s.(ops := s.ops + [Op([], Script(kind))])
    case Advance(i) =>
      var ops := s.ops[i := Advanced(s.ops[i])];
      (match s.ops[i].todo[0]
       case Acquire(r) => State(ops, s.occupied[r := Occupied(s, r) + 1])
       case Drop(r) => State(ops, s.occupied[r := Occupied(s, r) - 1])
       case Call => State(ops, s.occupied))
    case Fail(i) => s.(ops := s.ops[i := Op(s.ops[i].held, Unwind(s.ops[i].held))])
  }

  ghost predicate Trace(limits: Limits, states: seq<State>, events: seq<Event>) {
    && |states| == |events| + 1 && states[0] == START
    && forall k | 0 <= k < |events| ::
         Enabled(limits, states[k], events[k]) && states[k + 1] == Next(limits, states[k], events[k])
  }

  // ---------------------------------------------------------------------------------------------
  // The discipline every operation keeps
  // ---------------------------------------------------------------------------------------------

  predicate Below(held: seq<Resource>, rank: nat) {
    forall h | h in held :: Rank(h) < rank
  }

  /** Resources are taken in rising rank and all given back. */
  predicate Disciplined(held: seq<Resource>, todo: seq<Action>)
    decreases |todo|
  {
    if |todo| == 0 then held == [] else
      match todo[0]
      case Acquire(r) => Below(held, Rank(r)) && Disciplined(held + [r], todo[1..])
      case Drop(r) => r in held && Disciplined(Removed(held, r), todo[1..])
      case Call => Disciplined(held, todo[1..])
  }

  /** Held resources are in rising rank. */
  ghost predicate Rising(held: seq<Resource>) {
    forall i, j | 0 <= i < j < |held| :: Rank(held[i]) < Rank(held[j])
  }

  /** What an operation holds at each of its calls, one after the other. */
  function HeldAtCalls(held: seq<Resource>, todo: seq<Action>): seq<seq<Resource>>
    decreases |todo|
  {
    if |todo| == 0 then [] else
      match todo[0]
      case Acquire(r) => HeldAtCalls(held + [r], todo[1..])
      case Drop(r) => HeldAtCalls(Removed(held, r), todo[1..])
      case Call => [held] + HeldAtCalls(held, todo[1..])
  }

  lemma RemovedLast(held: seq<Resource>, r: Resource)
    ensures Removed(held + [r], r) == held
  {
    assert (held + [r])[..|held|] == held;
  }

  /** A bracketed step leaves things as they were. */
  lemma Bracket(held: seq<Resource>, r: Resource, body: seq<Action>, rest: seq<Action>)
    requires Below(held, Rank(r)) && (body == [] || body == [Call]) && Disciplined(held, rest)
    ensures Disciplined(held, [Acquire(r)] + body + [Drop(r)] + rest)
  {
    RemovedLast(held, r);
    var dropped := [Drop(r)] + rest;
    assert dropped[1..] == rest && r in held + [r];
    assert Disciplined(held + [r], dropped);
    var inner := body + dropped;
    assert body == [] ==> inner == dropped;
    assert body == [Call] ==> inner[1..] == dropped;
    assert Disciplined(held + [r], inner);
    var all := [Acquire(r)] + body + [Drop(r)] + rest;
    assert all[1..] == inner;
  }

  lemma GiveBackDisciplined(held: seq<Resource>, r: Resource, rest: seq<Action>)
    requires Disciplined(held, rest) && Below(held, Rank(r))
    ensures Disciplined(held + [r], GiveBack(r) + rest)
  {
    RemovedLast(held, r);
    if r.KeyLock? {
      var table := [Acquire(LockerMu)] + [] + [Drop(LockerMu)] + rest;
      Bracket(held, LockerMu, [], rest);
      assert (GiveBack(r) + rest)[1..] == table;
    } else {
      assert (GiveBack(r) + rest)[1..] == rest;
    }
  }

  lemma {:induction false} UnwindDisciplined(held: seq<Resource>)
    requires Rising(held)
    ensures Disciplined(held, Unwind(held))
  {
    if |held| > 0 {
      var init, last := held[..|held| - 1], held[|held| - 1];
      UnwindDisciplined(init);
      assert held == init + [last];
      GiveBackDisciplined(init, last, Unwind(init));
    }
  }

  lemma TelegramDisciplined(held: seq<Resource>, rest: seq<Action>)
    requires Below(held, 2) && Disciplined(held, rest)
    ensures Disciplined(held, Telegram() + rest) && Disciplined(held, Section() + rest)
  {
    Bracket(held, TelegramSem, [Call], rest);
    Bracket(held, MultipartMu, [Call], rest);
    assert Telegram() + rest == [Acquire(TelegramSem)] + [Call] + [Drop(TelegramSem)] + rest;
    assert Section() + rest == [Acquire(MultipartMu)] + [Call] + [Drop(MultipartMu)] + rest;
  }

  lemma LockKeyDisciplined(held: seq<Resource>, key: Str, rest: seq<Action>)
    requires Below(held, 1) && Disciplined(held + [KeyLock(key)], rest)
    ensures Disciplined(held, LockKey(key) + rest)
  {
    var take := [Acquire(KeyLock(key))] + rest;
    assert take[1..] == rest;
    assert Disciplined(held, take);
    Bracket(held, LockerMu, [], take);
    assert LockKey(key) + rest == [Acquire(LockerMu)] + [] + [Drop(LockerMu)] + take;
  }

  lemma {:induction false} ChunksDisciplined(held: seq<Resource>, n: nat, rest: seq<Action>)
    requires Below(held, 2) && Disciplined(held, rest)
    ensures Disciplined(held, Chunks(n) + rest)
  {
    if n == 0 {
      assert Chunks(0) + rest == rest;
    } else {
      ChunksDisciplined(held, n - 1, rest);
      TelegramDisciplined(held, Chunks(n - 1) + rest);
      assert Chunks(n) + rest == Telegram() + (Chunks(n - 1) + rest);
    }
  }

  lemma AcquireFirst(held: seq<Resource>, r: Resource, rest: seq<Action>)
    requires Below(held, Rank(r)) && Disciplined(held + [r], rest)
    ensures Disciplined(held, [Acquire(r)] + rest)
  {
    assert ([Acquire(r)] + rest)[1..] == rest;
  }

  lemma CallFirst(held: seq<Resource>, rest: seq<Action>)
    requires Disciplined(held, rest)
    ensures Disciplined(held, [Call] + rest)
  {
    assert ([Call] + rest)[1..] == rest;
  }

  lemma EndsDisciplined(r: Resource)
    ensures Disciplined([r], [Drop(r)])
  {
    assert Removed([r], r) == [] by {
      RemovedLast([], r);
      assert [] + [r] == [r];
    }
    assert [Drop(r)][1..] == [];
  }

  /** PutObject. */
  lemma PutDisciplined(key: Str, empty: bool)
    ensures Disciplined([], Script(PutObject(key, empty)))
  {
    var lock := KeyLock(key);
    var last := [Drop(Uploads)];
    EndsDisciplined(Uploads);
    var unlock := GiveBack(lock) + last;
    GiveBackDisciplined([Uploads], lock, last);
    assert [Uploads] + [lock] == [Uploads, lock];
    var commit := [Call] + unlock;
    CallFirst([Uploads, lock], unlock);
    var upload := (if empty then [] else Telegram()) + commit;
    if empty {
      assert upload == commit;
    } else {
      TelegramDisciplined([Uploads, lock], commit);
    }
    var decide := [Call] + upload;
    CallFirst([Uploads, lock], upload);
    LockKeyDisciplined([Uploads], key, decide);
    assert [] + [Uploads] == [Uploads];
    AcquireFirst([], Uploads, LockKey(key) + decide);
  }

  lemma UploadPartDisciplined()
    ensures Disciplined([], Script(UploadPart))
  {
    var last := [Drop(Uploads)];
    EndsDisciplined(Uploads);
    TelegramDisciplined([Uploads], last);
    var store := Section() + last;
    TelegramDisciplined([Uploads], store);
    var send := Telegram() + store;
    var read := [Call] + send;
    CallFirst([Uploads], send);
    var admit := [Acquire(Uploads)] + read;
    assert [] + [Uploads] == [Uploads];
    AcquireFirst([], Uploads, read);
    TelegramDisciplined([], admit);
  }

  lemma CompleteDisciplined(key: Str)
    ensures Disciplined([], Script(CompleteUpload(key)))
  {
    var lock := KeyLock(key);
    GiveBackDisciplined([], lock, []);
    assert [] + [lock] == [lock] && GiveBack(lock) + [] == GiveBack(lock);
    TelegramDisciplined([lock], GiveBack(lock));
    var forget := Section() + GiveBack(lock);
    var commit := [Call] + forget;
    CallFirst([lock], forget);
    TelegramDisciplined([lock], commit);
    LockKeyDisciplined([], key, Section() + commit);
  }

  lemma GetDisciplined(chunks: nat)
    ensures Disciplined([], Script(GetObject(chunks)))
  {
    EndsDisciplined(Downloads);
    ChunksDisciplined([Downloads], chunks, [Drop(Downloads)]);
    var stream := Chunks(chunks) + [Drop(Downloads)];
    assert [] + [Downloads] == [Downloads];
    AcquireFirst([], Downloads, stream);
    CallFirst([], [Acquire(Downloads)] + stream);
  }

  lemma CallsBracketed(held: seq<Resource>, r: Resource, body: seq<Action>, rest: seq<Action>)
    requires body == [] || body == [Call]
    ensures HeldAtCalls(held, [Acquire(r)] + body + [Drop(r)] + rest) ==
      (if body == [] then [] else [held + [r]]) + HeldAtCalls(held, rest)
  {
    RemovedLast(held, r);
    var dropped := [Drop(r)] + rest;
    assert dropped[1..] == rest;
    assert HeldAtCalls(held + [r], dropped) == HeldAtCalls(held, rest);
    var inner := body + dropped;
    if body == [] {
      assert inner == dropped;
    } else {
      assert inner[1..] == dropped;
      assert HeldAtCalls(held + [r], inner) == [held + [r]] + HeldAtCalls(held, rest);
    }
    var all := [Acquire(r)] + body + [Drop(r)] + rest;
    assert all[1..] == inner;
  }

  lemma CallsInSection(held: seq<Resource>, rest: seq<Action>)
    ensures HeldAtCalls(held, Telegram() + rest) == [held + [TelegramSem]] + HeldAtCalls(held, rest)
    ensures HeldAtCalls(held, Section() + rest) == [held + [MultipartMu]] + HeldAtCalls(held, rest)
  {
    CallsBracketed(held, TelegramSem, [Call], rest);
    CallsBracketed(held, MultipartMu, [Call], rest);
    assert Telegram() + rest == [Acquire(TelegramSem)] + [Call] + [Drop(TelegramSem)] + rest;
    assert Section() + rest == [Acquire(MultipartMu)] + [Call] + [Drop(MultipartMu)] + rest;
  }

  lemma CallsUnderLock(held: seq<Resource>, key: Str, rest: seq<Action>)
    ensures HeldAtCalls(held, LockKey(key) + rest) == HeldAtCalls(held + [KeyLock(key)], rest)
    ensures HeldAtCalls(held + [KeyLock(key)], GiveBack(KeyLock(key)) + rest) == HeldAtCalls(held, rest)
  {
    var take := [Acquire(KeyLock(key))] + rest;
    assert take[1..] == rest;
    CallsBracketed(held, LockerMu, [], take);
    assert LockKey(key) + rest == [Acquire(LockerMu)] + [] + [Drop(LockerMu)] + take;
    RemovedLast(held, KeyLock(key));
    var table := [Acquire(LockerMu)] + [] + [Drop(LockerMu)] + rest;
    CallsBracketed(held, LockerMu, [], rest);
    assert (GiveBack(KeyLock(key)) + rest)[1..] == table;
  }

  lemma {:induction false} CallsInChunks(held: seq<Resource>, n: nat, rest: seq<Action>)
    ensures HeldAtCalls(held, Chunks(n) + rest) == seq(n, _ => held + [TelegramSem]) + HeldAtCalls(held, rest)
  {
    if n == 0 {
      assert Chunks(0) + rest == rest;
    } else {
      CallsInChunks(held, n - 1, rest);
      CallsInSection(held, Chunks(n - 1) + rest);
      assert Chunks(n) + rest == Telegram() + (Chunks(n - 1) + rest);
      assert seq(n, _ => held + [TelegramSem]) == [held + [TelegramSem]] + seq(n - 1, _ => held + [TelegramSem]);
    }
  }

  lemma CallsFirst(held: seq<Resource>, a: Action, rest: seq<Action>)
    ensures a.Acquire? ==> HeldAtCalls(held, [a] + rest) == HeldAtCalls(held + [a.r], rest)
    ensures a.Drop? ==> HeldAtCalls(held, [a] + rest) == HeldAtCalls(Removed(held, a.r), rest)
    ensures a.Call? ==> HeldAtCalls(held, [a] + rest) == [held] + HeldAtCalls(held, rest)
  {
    assert ([a] + rest)[1..] == rest;
  }

  /** A put resolves its strategy, uploads and commits under an upload slot and the lock of its key. */
  lemma PutHolds(key: Str, empty: bool)
    ensures HeldAtCalls([], Script(PutObject(key, empty))) ==
      [[Uploads, KeyLock(key)]] + (if empty then [] else [[Uploads, KeyLock(key), TelegramSem]]) +
        [[Uploads, KeyLock(key)]]
  {
    hide HeldAtCalls, LockKey, GiveBack, Telegram;
    var lock := KeyLock(key);
    var both := [Uploads, lock];
    assert [] + [Uploads] == [Uploads] && [Uploads] + [lock] == both &&
      both + [TelegramSem] == [Uploads, lock, TelegramSem];
    var unlock := GiveBack(lock) + [Drop(Uploads)];
    CallsUnderLock([Uploads], key, [Drop(Uploads)]);
    EndsCalls(Uploads);
    CallsFirst(both, Call, unlock);
    var upload := (if empty then [] else Telegram()) + ([Call] + unlock);
    CallsInSection(both, [Call] + unlock);
    assert empty ==> upload == [Call] + unlock;
    CallsFirst(both, Call, upload);
    CallsUnderLock([Uploads], key, [Call] + upload);
    CallsFirst([], Acquire(Uploads), LockKey(key) + ([Call] + upload));
  }

  lemma EndsCalls(r: Resource)
    ensures HeldAtCalls([r], [Drop(r)]) == []
  {
    assert [Drop(r)][1..] == [];
  }

  /** A part is checked for, read and sent under an upload slot, and stored under the sessions' mutex. */
  lemma UploadPartHolds()
    ensures HeldAtCalls([], Script(UploadPart)) ==
      [[MultipartMu], [Uploads], [Uploads, TelegramSem], [Uploads, MultipartMu]]
  {
    hide HeldAtCalls, Telegram, Section;
    assert [] + [Uploads] == [Uploads] && [] + [MultipartMu] == [MultipartMu];
    assert [Uploads] + [TelegramSem] == [Uploads, TelegramSem] && [Uploads] + [MultipartMu] == [Uploads, MultipartMu];
    var store := Section() + [Drop(Uploads)];
    EndsCalls(Uploads);
    CallsInSection([Uploads], [Drop(Uploads)]);
    CallsInSection([Uploads], store);
    CallsFirst([Uploads], Call, Telegram() + store);
    CallsFirst([], Acquire(Uploads), [Call] + (Telegram() + store));
    CallsInSection([], [Acquire(Uploads)] + ([Call] + (Telegram() + store)));
  }

  /** A completion looks at its session, commits and forgets the session, all under the lock of its key. */
  lemma CompleteHolds(key: Str)
    ensures HeldAtCalls([], Script(CompleteUpload(key))) ==
      [[KeyLock(key), MultipartMu], [KeyLock(key)], [KeyLock(key), MultipartMu]]
  {
    var lock := KeyLock(key);
    assert GiveBack(lock) + [] == GiveBack(lock) && [] + [lock] == [lock] &&
      [lock] + [MultipartMu] == [lock, MultipartMu];
    assert HeldAtCalls([], []) == [];
    hide HeldAtCalls, LockKey, GiveBack, Section;
    CallsUnderLock([], key, []);
    CallsInSection([lock], GiveBack(lock));
    CallsFirst([lock], Call, Section() + GiveBack(lock));
    CallsInSection([lock], [Call] + (Section() + GiveBack(lock)));
    CallsUnderLock([], key, Section() + ([Call] + (Section() + GiveBack(lock))));
  }

  /** Opening and aborting a session hold the sessions' mutex, and nothing else. */
  lemma SessionHolds()
    ensures HeldAtCalls([], Script(CreateUpload)) == HeldAtCalls([], Script(AbortUpload)) == [[MultipartMu]]
  {
    CallsInSection([], []);
    assert Section() + [] == Section() && [] + [MultipartMu] == [MultipartMu];
  }

  /** A read looks the object up, and then downloads its chunks one by one under a download slot. */
  lemma GetHolds(chunks: nat)
    ensures HeldAtCalls([], Script(GetObject(chunks))) == [[]] + seq(chunks, _ => [Downloads, TelegramSem])
  {
    hide HeldAtCalls, Chunks;
    assert [] + [Downloads] == [Downloads] && [Downloads] + [TelegramSem] == [Downloads, TelegramSem];
    EndsCalls(Downloads);
    CallsInChunks([Downloads], chunks, [Drop(Downloads)]);
    CallsFirst([], Acquire(Downloads), Chunks(chunks) + [Drop(Downloads)]);
    CallsFirst([], Call, [Acquire(Downloads)] + (Chunks(chunks) + [Drop(Downloads)]));
    assert seq(chunks, _ => [Downloads] + [TelegramSem]) + [] == seq(chunks, _ => [Downloads, TelegramSem]);
  }

  /** What an operation takes, in order. */
  function Taken(todo: seq<Action>): seq<Resource> {
    if |todo| == 0 then []
    else (if todo[0].Acquire? then [todo[0].r] else []) + Taken(todo[1..])
  }

  lemma {:induction false} TakenConcat(a: seq<Action>, b: seq<Action>)
    ensures Taken(a + b) == Taken(a) + Taken(b)
  {
    if |a| == 0 {
      assert a + b == b;
    } else {
      var first := if a[0].Acquire? then [a[0].r] else [];
      assert (a + b)[0] == a[0] && (a + b)[1..] == a[1..] + b;
      assert Taken(a) == first + Taken(a[1..]) && Taken(a + b) == first + Taken(a[1..] + b);
      hide Taken;
      TakenConcat(a[1..], b);
      assert (first + Taken(a[1..])) + Taken(b) == first + (Taken(a[1..]) + Taken(b));
    }
  }

  lemma TakenOne(a: Action)
    ensures Taken([a]) == if a.Acquire? then [a.r] else []
  {
    assert [a][1..] == [];
  }

  lemma TakenInside(key: Str)
    ensures Taken(LockKey(key)) == [LockerMu, KeyLock(key)] && Taken(GiveBack(KeyLock(key))) == [LockerMu]
    ensures Taken(Telegram()) == [TelegramSem] && Taken(Section()) == [MultipartMu]
  {
    assert LockKey(key)[1..] == [Drop(LockerMu), Acquire(KeyLock(key))] &&
      LockKey(key)[1..][1..] == [Acquire(KeyLock(key))];
    assert GiveBack(KeyLock(key))[1..] == [Acquire(LockerMu), Drop(LockerMu)];
    assert GiveBack(KeyLock(key))[1..][1..] == [Drop(LockerMu)];
    assert Telegram()[1..] == [Call, Drop(TelegramSem)] && Telegram()[1..][1..] == [Drop(TelegramSem)];
    assert Section()[1..] == [Call, Drop(MultipartMu)] && Section()[1..][1..] == [Drop(MultipartMu)];
    TakenOne(Acquire(KeyLock(key)));
    TakenOne(Drop(LockerMu));
    TakenOne(Drop(TelegramSem));
    TakenOne(Drop(MultipartMu));
  }

  /** Locking a key and unlocking it visit the lock table; everything else is taken as each operation says. */
  lemma PutTakes(key: Str, empty: bool)
    ensures Taken(Script(PutObject(key, empty))) ==
      [Uploads, LockerMu, KeyLock(key)] + (if empty then [] else [TelegramSem]) + [LockerMu]
  {
    assert Taken([]) == [];
    hide Taken, LockKey, GiveBack, Telegram;
    TakenInside(key);
    TakenOne(Acquire(Uploads));
    TakenOne(Call);
    TakenOne(Drop(Uploads));
    var last := GiveBack(KeyLock(key)) + [Drop(Uploads)];
    TakenConcat(GiveBack(KeyLock(key)), [Drop(Uploads)]);
    TakenConcat([Call], last);
    var upload := if empty then [] else Telegram();
    TakenConcat(upload, [Call] + last);
    TakenConcat([Call], upload + ([Call] + last));
    TakenConcat(LockKey(key), [Call] + (upload + ([Call] + last)));
    TakenConcat([Acquire(Uploads)], LockKey(key) + ([Call] + (upload + ([Call] + last))));
  }

  lemma CompleteTakes(key: Str)
    ensures Taken(Script(CompleteUpload(key))) == [LockerMu, KeyLock(key), MultipartMu, MultipartMu, LockerMu]
  {
    hide Taken, LockKey, GiveBack, Section;
    TakenInside(key);
    TakenOne(Call);
    var unlock := GiveBack(KeyLock(key));
    TakenConcat(Section(), unlock);
    TakenConcat([Call], Section() + unlock);
    TakenConcat(Section(), [Call] + (Section() + unlock));
    TakenConcat(LockKey(key), Section() + ([Call] + (Section() + unlock)));
  }

  /** Every operation takes its resources in rising rank and gives all of them back. */
  lemma ScriptsDisciplined(kind: Kind)
    ensures Disciplined([], Script(kind))
  {
    match kind {
      case PutObject(key, empty) => PutDisciplined(key, empty);
      case UploadPart => UploadPartDisciplined();
      case CompleteUpload(key) => CompleteDisciplined(key);
      case GetObject(chunks) => GetDisciplined(chunks);
      case _ =>
        TelegramDisciplined([], []);
        assert Section() + [] == Section();
    }
  }

  // ---------------------------------------------------------------------------------------------
  // Occupancy
  // ---------------------------------------------------------------------------------------------

  /** How many operations hold a resource. */
  function Holders(ops: seq<Op>, r: Resource): nat {
    if |ops| == 0 then 0 else Holders(ops[..|ops| - 1], r) + if r in ops[|ops| - 1].held then 1 else 0
  }

  lemma {:induction false} HoldersUpdate(ops: seq<Op>, i: nat, op: Op, r: Resource)
    requires i < |ops|
    ensures Holders(ops[i := op], r) ==
      Holders(ops, r) - (if r in ops[i].held then 1 else 0) + (if r in op.held then 1 else 0)
  {
    var n := |ops| - 1;
    if i < n {
      HoldersUpdate(ops[..n], i, op, r);
      assert ops[i := op][..n] == ops[..n][i := op];
    } else {
      assert ops[i := op][..n] == ops[..n];
    }
  }

  lemma {:induction false} SomeHolder(ops: seq<Op>, r: Resource) returns (i: nat)
    requires Holders(ops, r) > 0
    ensures i < |ops| && r in ops[i].held
  {
    var n := |ops| - 1;
    if r in ops[n].held {
      i := n;
    } else {
      i := SomeHolder(ops[..n], r);
    }
  }

  lemma {:induction false} NoHolder(ops: seq<Op>, r: Resource)
    requires forall i | 0 <= i < |ops| :: ops[i].held == []
    ensures Holders(ops, r) == 0
  {
    if |ops| > 0 {
      NoHolder(ops[..|ops| - 1], r);
    }
  }

  ghost predicate Orderly(op: Op) {
    Disciplined(op.held, op.todo) && Rising(op.held)
  }

  ghost predicate AllOrderly(s: State) {
    forall i | 0 <= i < |s.ops| :: Orderly(s.ops[i])
  }

  ghost predicate Accurate(s: State) {
    forall r: Resource :: Occupied(s, r) == Holders(s.ops, r)
  }

  ghost predicate WithinLimits(limits: Limits, s: State) {
    forall r: Resource | Capacity(limits, r) > 0 :: Occupied(s, r) <= Capacity(limits, r)
  }

  lemma {:induction false} RemovedMembers(held: seq<Resource>, r: Resource)
    requires Rising(held)
    ensures forall x :: x in Removed(held, r) <==> x in held && x != r
  {
    if |held| > 0 {
      var init, last := held[..|held| - 1], held[|held| - 1];
      RemovedMembers(init, r);
      assert forall x :: x in held <==> x in init || x == last;
      assert last !in init;
    }
  }

  lemma {:induction false} RemovedRises(held: seq<Resource>, r: Resource)
    requires Rising(held)
    ensures Rising(Removed(held, r))
  {
    if |held| > 0 {
      var init, last := held[..|held| - 1], held[|held| - 1];
      RemovedRises(init, r);
      RemovedMembers(init, r);
      var rest := Removed(init, r);
      forall i | 0 <= i < |rest| ensures Rank(rest[i]) < Rank(last) {
        assert rest[i] in init;
      }
    }
  }

  lemma AdvancedOrderly(op: Op)
    requires Orderly(op) && |op.todo| > 0
    ensures Orderly(Advanced(op))
    ensures match op.todo[0]
      case Acquire(x) => x !in op.held && forall r :: r in Advanced(op).held <==> r in op.held || r == x
      case Drop(x) => x in op.held && forall r :: r in Advanced(op).held <==> r in op.held && r != x
      case Call => Advanced(op).held == op.held
  {
    match op.todo[0] {
      case Acquire(x) =>
        assert forall i | 0 <= i < |op.held| :: op.held[i] in op.held;
      case Drop(x) =>
        RemovedRises(op.held, x);
        RemovedMembers(op.held, x);
      case Call =>
    }
  }

  lemma OrderlyKept(limits: Limits, s: State, e: Event)
    requires AllOrderly(s) && Enabled(limits, s, e)
    ensures AllOrderly(Next(limits, s, e))
  {
    hide Disciplined, Rising, Script, Unwind;
    match e {
      case Begin(kind) =>
        ScriptsDisciplined(kind);
        assert Rising([]) by { EmptyRises(); }
        assert Orderly(Op([], Script(kind)));
      case Advance(i) => AdvancedOrderly(s.ops[i]);
      case Fail(i) =>
        UnwindDisciplined(s.ops[i].held);
        assert Orderly(Op(s.ops[i].held, Unwind(s.ops[i].held)));
    }
  }

  lemma EmptyRises()
    ensures Rising([])
  {
  }

  lemma AccurateKept(limits: Limits, s: State, e: Event)
    requires AllOrderly(s) && Accurate(s) && Enabled(limits, s, e)
    ensures Accurate(Next(limits, s, e))
  {
    hide Orderly;
    var t := Next(limits, s, e);
    forall r: Resource ensures Occupied(t, r) == Holders(t.ops, r) {
      match e {
        case Begin(kind) =>
          assert t.ops[..|s.ops|] == s.ops;
        case Advance(i) =>
          AdvancedOrderly(s.ops[i]);
          HoldersUpdate(s.ops, i, Advanced(s.ops[i]), r);
        case Fail(i) =>
          HoldersUpdate(s.ops, i, Op(s.ops[i].held, Unwind(s.ops[i].held)), r);
      }
    }
  }

  lemma LimitsKept(limits: Limits, s: State, e: Event)
    requires WithinLimits(limits, s) && Enabled(limits, s, e)
    ensures WithinLimits(limits, Next(limits, s, e))
  {
  }

  lemma {:induction false} Reached(limits: Limits, states: seq<State>, events: seq<Event>, n: nat)
    requires Trace(limits, states, events) && n < |states|
    ensures AllOrderly(states[n]) && Accurate(states[n]) && WithinLimits(limits, states[n])
  {
    if n > 0 {
      Reached(limits, states, events, n - 1);
      assert states[n] == Next(limits, states[n - 1], events[n - 1]);
      hide AllOrderly, Accurate, WithinLimits, Next, Enabled;
      OrderlyKept(limits, states[n - 1], events[n - 1]);
      AccurateKept(limits, states[n - 1], events[n - 1]);
      LimitsKept(limits, states[n - 1], events[n - 1]);
    }
  }

  /** At every moment a semaphore's occupancy is the number of operations holding it, and within its capacity. */
  lemma OccupancyIsHolders(limits: Limits, states: seq<State>, events: seq<Event>, n: nat, r: Resource)
    requires Trace(limits, states, events) && n < |states|
    ensures Occupied(states[n], r) == Holders(states[n].ops, r)
    ensures Capacity(limits, r) > 0 ==> Occupied(states[n], r) <= Capacity(limits, r)
    ensures r.Uploads? ==> Occupied(states[n], r) <= limits.uploads || limits.uploads == 0
    ensures r.Downloads? ==> Occupied(states[n], r) <= limits.downloads || limits.downloads == 0
    ensures r.TelegramSem? ==> Occupied(states[n], r) <= limits.telegram || limits.telegram == 0
    ensures r.KeyLock? || r.LockerMu? || r.MultipartMu? ==> Occupied(states[n], r) <= 1
  {
    Reached(limits, states, events, n);
  }

  // ---------------------------------------------------------------------------------------------
  // Deadlock freedom
  // ---------------------------------------------------------------------------------------------

  /** How far up the order an operation waits. */
  function WaitRank(op: Op): nat {
    if |op.todo| > 0 && op.todo[0].Acquire? then Rank(op.todo[0].r) else 3
  }

  lemma WaitsAboveHeld(op: Op, r: Resource)
    requires Orderly(op) && r in op.held
    ensures |op.todo| > 0 && Rank(r) < WaitRank(op)
  {
  }

  lemma BlockedWaits(limits: Limits, s: State, i: nat)
    requires i < |s.ops| && Orderly(s.ops[i]) && |s.ops[i].todo| > 0 && !CanAdvance(limits, s, i)
    ensures s.ops[i].todo[0].Acquire? && Occupied(s, s.ops[i].todo[0].r) >= Capacity(limits, s.ops[i].todo[0].r) > 0
  {
  }

  /** From a blocked operation, going to a holder of what it waits for leads to one that can step. */
  lemma {:induction false} Unblocked(limits: Limits, s: State, i: nat) returns (j: nat)
    requires AllOrderly(s) && Accurate(s) && i < |s.ops| && |s.ops[i].todo| > 0
    ensures j < |s.ops| && CanAdvance(limits, s, j)
    decreases 3 - WaitRank(s.ops[i])
  {
    if CanAdvance(limits, s, i) {
      j := i;
    } else {
      BlockedWaits(limits, s, i);
      var r := s.ops[i].todo[0].r;
      var k := SomeHolder(s.ops, r);
      WaitsAboveHeld(s.ops[k], r);
      j := Unblocked(limits, s, k);
    }
  }

  /**
   No deadlock: in every reachable state with an unfinished operation, some operation can take its next step
   without any other failing or being cancelled.
   */
  lemma SomeoneCanStep(limits: Limits, states: seq<State>, events: seq<Event>, n: nat, i: nat)
    requires Trace(limits, states, events) && n < |states| && i < |states[n].ops| && |states[n].ops[i].todo| > 0
    ensures exists j: nat :: j < |states[n].ops| && CanAdvance(limits, states[n], j)
  {
    Reached(limits, states, events, n);
    var j := Unblocked(limits, states[n], i);
  }

  /** Once all have finished, nothing is held and every semaphore is empty. */
  lemma FinishedReleasesAll(limits: Limits, states: seq<State>, events: seq<Event>, n: nat, r: Resource)
    requires Trace(limits, states, events) && n < |states|
    requires forall i | 0 <= i < |states[n].ops| :: states[n].ops[i].todo == []
    ensures Occupied(states[n], r) == 0
  {
    Reached(limits, states, events, n);
    forall i | 0 <= i < |states[n].ops| ensures states[n].ops[i].held == [] {
      assert Orderly(states[n].ops[i]);
    }
    NoHolder(states[n].ops, r);
  }

  // ---------------------------------------------------------------------------------------------
  // Termination
  // ---------------------------------------------------------------------------------------------

  function FallibleCount(todo: seq<Action>): nat {
    if |todo| == 0 then 0 else (if Fallible(todo[0]) then 1 else 0) + FallibleCount(todo[1..])
  }

  /** An upper bound on the steps an operation still takes, failures included. */
  function Effort(op: Op): nat {
    10 * FallibleCount(op.todo) + |op.todo|
  }

  function TotalEffort(ops: seq<Op>): nat {
    if |ops| == 0 then 0 else TotalEffort(ops[..|ops| - 1]) + Effort(ops[|ops| - 1])
  }

  lemma {:induction false} TotalEffortUpdate(ops: seq<Op>, i: nat, op: Op)
    requires i < |ops|
    ensures TotalEffort(ops[i := op]) == TotalEffort(ops) - Effort(ops[i]) + Effort(op)
  {
    var n := |ops| - 1;
    if i < n {
      TotalEffortUpdate(ops[..n], i, op);
      assert ops[i := op][..n] == ops[..n][i := op];
    } else {
      assert ops[i := op][..n] == ops[..n];
    }
  }

  lemma {:induction false} FallibleConcat(a: seq<Action>, b: seq<Action>)
    ensures FallibleCount(a + b) == FallibleCount(a) + FallibleCount(b)
  {
    if |a| == 0 {
      assert a + b == b;
    } else {
      assert (a + b)[1..] == a[1..] + b;
      FallibleConcat(a[1..], b);
    }
  }

  /** Unwinding is short and cannot fail. */
  lemma {:induction false} UnwindEffort(held: seq<Resource>)
    ensures |Unwind(held)| <= 3 * |held| && FallibleCount(Unwind(held)) == 0
  {
    if |held| > 0 {
      var last := held[|held| - 1];
      UnwindEffort(held[..|held| - 1]);
      FallibleConcat(GiveBack(last), Unwind(held[..|held| - 1]));
      GiveBackEffort(last);
    }
  }

  lemma GiveBackEffort(r: Resource)
    ensures FallibleCount(GiveBack(r)) == 0
  {
    if r.KeyLock? {
      var g := GiveBack(r);
      assert g[1..] == [Acquire(LockerMu), Drop(LockerMu)] && g[1..][1..] == [Drop(LockerMu)] && g[1..][1..][1..] == [];
      assert FallibleCount(g[1..][1..]) == 0;
      assert FallibleCount(g[1..]) == 0;
    } else {
      assert GiveBack(r)[1..] == [];
    }
  }

  lemma {:induction false} RisingIsShort(held: seq<Resource>)
    requires Rising(held)
    ensures |held| <= 3
    ensures |held| > 0 ==> Rank(held[|held| - 1]) >= |held| - 1
  {
    var n := |held| - 1;
    if n > 0 {
      RisingIsShort(held[..n]);
      assert Rank(held[n - 1]) < Rank(held[n]) <= 2;
    }
  }

  lemma StepCosts(limits: Limits, s: State, e: Event)
    requires AllOrderly(s) && Enabled(limits, s, e) && !e.Begin?
    ensures TotalEffort(Next(limits, s, e).ops) < TotalEffort(s.ops)
  {
    if e.Advance? {
      TotalEffortUpdate(s.ops, e.i, Advanced(s.ops[e.i]));
    } else {
      var held := s.ops[e.i].held;
      TotalEffortUpdate(s.ops, e.i, Op(held, Unwind(held)));
      assert Orderly(s.ops[e.i]);
      RisingIsShort(held);
      UnwindEffort(held);
    }
  }

  /**
   Between two arrivals of operations there are only so many steps, whatever fails: with SomeoneCanStep, all finish.
   */
  lemma {:induction false} RunsEnd(limits: Limits, states: seq<State>, events: seq<Event>, from: nat, to: nat)
    requires Trace(limits, states, events) && from <= to < |states|
    requires forall k | from <= k < to :: !events[k].Begin?
    ensures to - from + TotalEffort(states[to].ops) <= TotalEffort(states[from].ops)
  {
    if from < to {
      RunsEnd(limits, states, events, from, to - 1);
      Reached(limits, states, events, to - 1);
      StepCosts(limits, states[to - 1], events[to - 1]);
    }
  }
}
