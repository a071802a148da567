/** The keyed lock: reference-counted mutexes, created on first use and deleted with the last user. */
module KeyedLocking {
  import opened Bytes

  // ---------------------------------------------------------------------------------------------
  // The protocol, over mutexes of any kind
  // ---------------------------------------------------------------------------------------------

  /**
   An operation has been counted in and waits for its mutex, holds it, or has unlocked it and is to be counted out.
   */
  datatype Phase<M> =
    | Waiting(key: Str, mutex: M)
    | Holding(key: Str, mutex: M)
    | Releasing(key: Str, mutex: M)

  datatype State<!M(==)> = State(
    locks: map<Str, M>,
    refs: map<M, int>,
    owners: map<M, nat>,
    ops: map<nat, Phase<M>>)

  datatype Event<M> =
    | Enter(op: nat, key: Str, mutex: M)
    | Acquire(op: nat)
    | Unlock(op: nat)
    | Leave(op: nat)

  /** An entering operation takes the mutex in the map, or a new one if there is none. */
  predicate Enabled<M(==)>(s: State<M>, e: Event<M>) {
    match e
    case Enter(op, key, mutex) => op !in s.ops && if key in s.locks then mutex == s.locks[key] else mutex !in s.refs
    case Acquire(op) => op in s.ops && s.ops[op].Waiting? && s.ops[op].mutex !in s.owners
    case Unlock(op) => op in s.ops && s.ops[op].Holding?
    case Leave(op) => op in s.ops && s.ops[op].Releasing? && s.ops[op].mutex in s.refs
  }

  function Dropped<K, V>(m: map<K, V>, k: K): map<K, V> {
    map x | x in m && x != k :: m[x]
  }

  function Next<M(==)>(s: State<M>, e: Event<M>): State<M>
    requires Enabled(s, e)
  {
    match e
    case Enter(op, key, mutex) =>
      var count := if mutex in s.refs then s.refs[mutex] else 0;
      State(s.locks[key := mutex], s.refs[mutex := count + 1], s.owners, s.ops[op := Waiting(key, mutex)])
    case Acquire(op) =>
      var p := s.ops[op];
      s.(owners := s.owners[p.mutex := op], ops := s.ops[op := Holding(p.key, p.mutex)])
    case Unlock(op) =>
      var p := s.ops[op];
      s.(owners := Dropped(s.owners, p.mutex), ops := s.ops[op := Releasing(p.key, p.mutex)])
    case Leave(op) =>
      var p := s.ops[op];
      var count := s.refs[p.mutex] - 1;
      s.(refs := s.refs[p.mutex := count],
         locks := if count == 0 && p.key in s.locks && s.locks[p.key] == p.mutex then Dropped(s.locks, p.key)
                  else s.locks,
         ops := Dropped(s.ops, op))
  }

  // ---------------------------------------------------------------------------------------------
  // The invariant
  // ---------------------------------------------------------------------------------------------

  /** The operations that wait for, hold or release a mutex. */
  function Users<M(==)>(s: State<M>, m: M): set<nat> {
    set o | o in s.ops && s.ops[o].mutex == m
  }

  ghost predicate Counted<M>(s: State<M>) {
    forall m | m in s.refs :: s.refs[m] == |Users(s, m)|
  }

  /** Every active operation on a key uses the one mutex in the map. */
  ghost predicate Shared<M>(s: State<M>) {
    forall o | o in s.ops ::
      s.ops[o].key in s.locks && s.locks[s.ops[o].key] == s.ops[o].mutex && s.ops[o].mutex in s.refs
  }

  /** A mutex in the map has a user, and serves one key. */
  ghost predicate Used<M>(s: State<M>) {
    && (forall k | k in s.locks :: s.locks[k] in s.refs && Users(s, s.locks[k]) != {})
    && (forall j, k | j in s.locks && k in s.locks && s.locks[j] == s.locks[k] :: j == k)
  }

  ghost predicate Owned<M>(s: State<M>) {
    && (forall m | m in s.owners ::
         s.owners[m] in s.ops && s.ops[s.owners[m]].Holding? && s.ops[s.owners[m]].mutex == m)
    && (forall o | o in s.ops && s.ops[o].Holding? :: s.ops[o].mutex in s.owners && s.owners[s.ops[o].mutex] == o)
  }

  ghost predicate Inv<M>(s: State<M>) {
    Counted(s) && Shared(s) && Used(s) && Owned(s)
  }

  lemma UsersAdded<M>(s: State<M>, t: State<M>, op: nat, m: M)
    requires op !in s.ops && t.ops.Keys == s.ops.Keys + {op} &&
      (forall o | o in s.ops :: t.ops[o].mutex == s.ops[o].mutex)
    ensures Users(t, m) == if t.ops[op].mutex == m then Users(s, m) + {op} else Users(s, m)
    ensures op !in Users(s, m)
  {
  }

  lemma UsersDropped<M>(s: State<M>, t: State<M>, op: nat, m: M)
    requires op in s.ops && t.ops.Keys == s.ops.Keys - {op} &&
      (forall o | o in t.ops :: t.ops[o].mutex == s.ops[o].mutex)
    ensures Users(t, m) == Users(s, m) - {op}
    ensures op in Users(s, m) <==> s.ops[op].mutex == m
  {
  }

  lemma UsersSame<M>(s: State<M>, t: State<M>)
    requires t.ops.Keys == s.ops.Keys && forall o | o in s.ops :: t.ops[o].mutex == s.ops[o].mutex
    ensures forall m :: Users(t, m) == Users(s, m)
  {
  }

  lemma EnterCountedAt<M>(s: State<M>, e: Event<M>, m: M)
    requires Counted(s) && Shared(s) && Enabled(s, e) && e.Enter? && m in Next(s, e).refs
    ensures Next(s, e).refs[m] == |Users(Next(s, e), m)|
  {
    UsersAdded(s, Next(s, e), e.op, m);
    if m !in s.refs {
      assert Users(s, m) == {};
    }
  }

  lemma EnterCounted<M>(s: State<M>, e: Event<M>)
    requires Counted(s) && Shared(s) && Enabled(s, e) && e.Enter?
    ensures Counted(Next(s, e))
  {
    hide Enabled, Next, Users, Shared;
    forall m | m in Next(s, e).refs ensures Next(s, e).refs[m] == |Users(Next(s, e), m)| {
      EnterCountedAt(s, e, m);
    }
  }

  lemma EnterUsed<M>(s: State<M>, e: Event<M>)
    requires Used(s) && Enabled(s, e) && e.Enter?
    ensures Used(Next(s, e))
  {
    var t := Next(s, e);
    forall k | k in t.locks ensures t.locks[k] in t.refs && Users(t, t.locks[k]) != {} {
      UsersAdded(s, t, e.op, t.locks[k]);
    }
    forall j, k | j in t.locks && k in t.locks && t.locks[j] == t.locks[k] ensures j == k {
      assert j != e.key ==> j in s.locks && s.locks[j] in s.refs;
      assert k != e.key ==> k in s.locks && s.locks[k] in s.refs;
    }
  }

  lemma EnterShared<M>(s: State<M>, e: Event<M>)
    requires Shared(s) && Enabled(s, e) && e.Enter?
    ensures Shared(Next(s, e))
  {
  }

  lemma EnterOwned<M>(s: State<M>, e: Event<M>)
    requires Owned(s) && Enabled(s, e) && e.Enter?
    ensures Owned(Next(s, e))
  {
  }

  lemma EnterKept<M>(s: State<M>, e: Event<M>)
    requires Inv(s) && Enabled(s, e) && e.Enter?
    ensures Inv(Next(s, e))
  {
    hide Counted, Used, Shared, Owned, Enabled, Next;
    EnterCounted(s, e);
    EnterShared(s, e);
    EnterUsed(s, e);
    EnterOwned(s, e);
  }

  lemma HandoverOwned<M>(s: State<M>, e: Event<M>)
    requires Owned(s) && Enabled(s, e) && (e.Acquire? || e.Unlock?)
    ensures Owned(Next(s, e))
  {
    var t := Next(s, e);
    forall o | o in t.ops && t.ops[o].Holding? ensures t.ops[o].mutex in t.owners && t.owners[t.ops[o].mutex] == o {
      if o != e.op {
        assert s.ops[o].Holding? && s.owners[s.ops[o].mutex] == o;
      }
    }
  }

  lemma HandoverSharing<M>(s: State<M>, e: Event<M>)
    requires Counted(s) && Shared(s) && Used(s) && Enabled(s, e) && (e.Acquire? || e.Unlock?)
    ensures Counted(Next(s, e)) && Shared(Next(s, e)) && Used(Next(s, e))
  {
    hide Users;
    UsersSame(s, Next(s, e));
  }

  lemma HandoverKept<M>(s: State<M>, e: Event<M>)
    requires Inv(s) && Enabled(s, e) && (e.Acquire? || e.Unlock?)
    ensures Inv(Next(s, e))
  {
    hide Counted, Used, Shared, Owned, Enabled, Next;
    HandoverOwned(s, e);
    HandoverSharing(s, e);
  }

  lemma LeaveCounted<M>(s: State<M>, e: Event<M>)
    requires Counted(s) && Enabled(s, e) && e.Leave?
    ensures Counted(Next(s, e))
  {
    var t := Next(s, e);
    forall m | m in t.refs ensures t.refs[m] == |Users(t, m)| {
      UsersDropped(s, t, e.op, m);
    }
  }

  /** The map entry goes exactly when the leaving operation was the mutex's only user. */
  lemma LeaveLocks<M>(s: State<M>, e: Event<M>)
    requires Counted(s) && Shared(s) && Enabled(s, e) && e.Leave?
    ensures var t, p := Next(s, e), s.ops[e.op];
      t.locks == if Users(t, p.mutex) == {} then Dropped(s.locks, p.key) else s.locks
  {
    var t, p := Next(s, e), s.ops[e.op];
    LeaveCounted(s, e);
    assert t.refs[p.mutex] == |Users(t, p.mutex)|;
  }

  lemma LeaveShared<M>(s: State<M>, e: Event<M>)
    requires Counted(s) && Shared(s) && Enabled(s, e) && e.Leave?
    ensures Shared(Next(s, e))
  {
    var t, p := Next(s, e), s.ops[e.op];
    LeaveLocks(s, e);
    forall o | o in t.ops ensures t.ops[o].key in t.locks && t.locks[t.ops[o].key] == t.ops[o].mutex {
      if t.ops[o].key == p.key {
        assert s.ops[o].mutex == p.mutex;
        assert o in Users(t, p.mutex);
      }
    }
  }

  lemma LeaveUsed<M>(s: State<M>, e: Event<M>)
    requires Counted(s) && Shared(s) && Used(s) && Enabled(s, e) && e.Leave?
    ensures Used(Next(s, e))
  {
    var t, p := Next(s, e), s.ops[e.op];
    LeaveLocks(s, e);
    forall k | k in t.locks ensures Users(t, t.locks[k]) != {} {
      UsersDropped(s, t, e.op, t.locks[k]);
    }
  }

  lemma LeaveOwned<M>(s: State<M>, e: Event<M>)
    requires Owned(s) && Enabled(s, e) && e.Leave?
    ensures Owned(Next(s, e))
  {
  }

  lemma LeaveKept<M>(s: State<M>, e: Event<M>)
    requires Inv(s) && Enabled(s, e) && e.Leave?
    ensures Inv(Next(s, e))
  {
    hide Counted, Used, Shared, Owned, Enabled, Next;
    LeaveCounted(s, e);
    LeaveShared(s, e);
    LeaveUsed(s, e);
    LeaveOwned(s, e);
  }

  lemma LockInRefs<M>(s: State<M>, key: Str)
    requires Inv(s) && key in s.locks
    ensures s.locks[key] in s.refs
  {
  }

  lemma MutexInRefs<M>(s: State<M>, op: nat)
    requires Inv(s) && op in s.ops
    ensures s.ops[op].mutex in s.refs
  {
  }

  /** Every step keeps the counts, the sharing and the exclusion. */
  lemma InvKept<M>(s: State<M>, e: Event<M>)
    requires Inv(s) && Enabled(s, e)
    ensures Inv(Next(s, e))
  {
    match e {
      case Enter(_, _, _) => EnterKept(s, e);
      case Leave(_) => LeaveKept(s, e);
      case _ => HandoverKept(s, e);
    }
  }

  function Start<M(==)>(): State<M> {
    State(map[], map[], map[], map[])
  }

  ghost predicate Trace<M(!new)>(states: seq<State<M>>, events: seq<Event<M>>) {
    && |states| == |events| + 1 && states[0] == Start()
    && forall i | 0 <= i < |events| :: Enabled(states[i], events[i]) && states[i + 1] == Next(states[i], events[i])
  }

  lemma {:induction false} InvReached<M(!new)>(states: seq<State<M>>, events: seq<Event<M>>, n: nat)
    requires Trace(states, events) && n < |states|
    ensures Inv(states[n])
  {
    if n > 0 {
      InvReached(states, events, n - 1);
      InvKept(states[n - 1], events[n - 1]);
    }
  }

  /**
   Over all runs: a mutex's count is the number of operations waiting for, holding or releasing it; all operations
   on a key share the mutex in the map, which is thus never deleted while in use; no two hold the same key; and the
   map is empty exactly when nobody is active.
   */
  lemma KeyedLockSafe<M(!new)>(states: seq<State<M>>, events: seq<Event<M>>, n: nat)
    requires Trace(states, events) && n < |states|
    ensures var s := states[n];
      && (forall m | m in s.refs :: s.refs[m] == |Users(s, m)|)
      && (forall o | o in s.ops :: s.ops[o].key in s.locks && s.locks[s.ops[o].key] == s.ops[o].mutex)
      && (forall a, b | a in s.ops && b in s.ops && s.ops[a].Holding? && s.ops[b].Holding? ::
           s.ops[a].key == s.ops[b].key ==> a == b)
      && (s.locks == map[] <==> s.ops == map[])
  {
    InvReached(states, events, n);
    var s := states[n];
    if s.ops == map[] {
      assert forall k | k in s.locks :: Users(s, s.locks[k]) == {};
      assert s.locks.Keys == {};
    }
    if s.locks == map[] {
      assert s.ops.Keys == {};
    }
  }

  /** The comparison with the map before deleting never fails: the last user always finds its own mutex there. */
  lemma LastUserDeletes<M>(s: State<M>, op: nat)
    requires Inv(s) && Enabled(s, Leave(op))
    ensures var t := Next(s, Leave(op));
      t.locks == (if Users(s, s.ops[op].mutex) == {op} then Dropped(s.locks, s.ops[op].key) else s.locks)
  {
    var m := s.ops[op].mutex;
    assert op in Users(s, m);
    if |Users(s, m)| == 1 {
      SingletonUser(s, m, op);
    }
  }

  lemma SingletonUser<M>(s: State<M>, m: M, op: nat)
    requires op in Users(s, m) && |Users(s, m)| == 1
    ensures Users(s, m) == {op}
  {
    var rest := Users(s, m) - {op};
    assert |rest| == 0;
    assert Users(s, m) == rest + {op};
  }

  /** A key is never stuck: if an operation waits for it, one of its operations can take a step. */
  lemma KeyAdvances<M>(s: State<M>, op: nat)
    requires Inv(s) && op in s.ops && s.ops[op].Waiting?
    ensures Enabled(s, Acquire(op)) || exists o :: o in s.ops && s.ops[o].key == s.ops[op].key && Enabled(s, Unlock(o))
  {
    var m := s.ops[op].mutex;
    if m in s.owners {
      var o := s.owners[m];
      assert s.locks[s.ops[o].key] == m && s.locks[s.ops[op].key] == m;
      assert Enabled(s, Unlock(o));
    }
  }

  // ---------------------------------------------------------------------------------------------
  // The composite key
  // ---------------------------------------------------------------------------------------------

  const NUL: byte := 0

  function Composite(bucket: Str, key: Str): Str {
    bucket + [NUL] + key
  }

  lemma CompositeExtends(b1: Str, k1: Str, b2: Str, k2: Str)
    requires Composite(b1, k1) == Composite(b2, k2) && |b1| <= |b2|
    ensures (b1 == b2 && k1 == k2) || b1 + [NUL] <= b2
  {
    var c := Composite(b1, k1);
    assert c[..|b1|] == b1 && c[|b1| + 1..] == k1 && c[..|b2|] == b2 && c[|b2| + 1..] == k2;
    if |b1| < |b2| {
      assert b2[..|b1| + 1] == c[..|b1| + 1] == b1 + [NUL];
    }
  }

  lemma ExtensionCollides(b1: Str, b2: Str)
    requires b1 + [NUL] <= b2
    ensures Composite(b1, b2[|b1| + 1..] + [NUL]) == Composite(b2, [])
  {
    assert b2 == b1 + [NUL] + b2[|b1| + 1..];
  }

  /** Two buckets share a lock exactly when one name is the other, a NUL byte and anything. */
  lemma CompositeCollidesIff(b1: Str, b2: Str)
    requires b1 != b2
    ensures (exists k1, k2 :: Composite(b1, k1) == Composite(b2, k2)) <==> b1 + [NUL] <= b2 || b2 + [NUL] <= b1
  {
    forall k1, k2 | Composite(b1, k1) == Composite(b2, k2) ensures b1 + [NUL] <= b2 || b2 + [NUL] <= b1 {
      if |b1| <= |b2| {
        CompositeExtends(b1, k1, b2, k2);
      } else {
        CompositeExtends(b2, k2, b1, k1);
      }
    }
    if b1 + [NUL] <= b2 {
      ExtensionCollides(b1, b2);
    }
    if b2 + [NUL] <= b1 {
      ExtensionCollides(b2, b1);
    }
  }

  ghost predicate LocksDistinct(buckets: set<Str>) {
    forall b1, k1, b2, k2 | b1 in buckets && b2 in buckets && Composite(b1, k1) == Composite(b2, k2) ::
      b1 == b2 && k1 == k2
  }

  /** Different objects have different locks exactly when no bucket name is another one with a NUL byte behind it. */
  lemma LocksDistinctIff(buckets: set<Str>)
    ensures LocksDistinct(buckets) <==> forall b1, b2 | b1 in buckets && b2 in buckets :: !(b1 + [NUL] <= b2)
  {
    if LocksDistinct(buckets) {
      forall b1, b2 | b1 in buckets && b2 in buckets ensures !(b1 + [NUL] <= b2) {
        if b1 + [NUL] <= b2 {
          ExtensionCollides(b1, b2);
        }
      }
    }
    if forall b1, b2 | b1 in buckets && b2 in buckets :: !(b1 + [NUL] <= b2) {
      forall b1, k1, b2, k2 | b1 in buckets && b2 in buckets && Composite(b1, k1) == Composite(b2, k2)
        ensures b1 == b2 && k1 == k2
      {
        if |b1| <= |b2| {
          CompositeExtends(b1, k1, b2, k2);
        } else {
          CompositeExtends(b2, k2, b1, k1);
        }
      }
    }
  }

  lemma ExtensionHoldsNul(b1: Str, b2: Str)
    requires b1 + [NUL] <= b2
    ensures NUL in b2
  {
    assert b2[|b1|] == (b1 + [NUL])[|b1|];
  }

  /** So it is as long as bucket names hold no NUL byte. */
  lemma NulFreeNamesLockApart(buckets: set<Str>)
    requires forall b | b in buckets :: NUL !in b
    ensures LocksDistinct(buckets)
  {
    forall b1, b2 | b1 in buckets && b2 in buckets ensures !(b1 + [NUL] <= b2) {
      if b1 + [NUL] <= b2 {
        ExtensionHoldsNul(b1, b2);
      }
    }
    LocksDistinctIff(buckets);
  }

  // ---------------------------------------------------------------------------------------------
  // The objects
  // ---------------------------------------------------------------------------------------------

  class KeyedMutex {
    var refs: int
    var locked: bool

    constructor ()
      ensures refs == 0 && !locked
    {
      refs, locked := 0, false;
    }
  }

  class KeyedLocker {
    var locks: map<Str, KeyedMutex>
    ghost var mutexes: set<KeyedMutex>
    ghost var owners: map<KeyedMutex, nat>
    ghost var ops: map<nat, Phase<KeyedMutex>>

    /** The protocol state this object is in. */
    ghost function View(): State<KeyedMutex>
      reads this, mutexes
    {
      State(locks, map m | m in mutexes :: m.refs, owners, ops)
    }

    ghost predicate Valid()
      reads this, mutexes
    {
      Inv(View()) && forall m | m in mutexes :: m.locked <==> m in owners
    }

    constructor ()
      ensures Valid() && View() == Start() && fresh(mutexes)
    {
      locks, mutexes, owners, ops := map[], {}, map[], map[];
    }

    /** The mutex of the key, created if there is none. */
    method FindMutex(composite: Str) returns (m: KeyedMutex)
      requires Valid()
      modifies this`locks, this`mutexes
      ensures if composite in old(locks) then m == old(locks)[composite] && m in old(mutexes)
              else fresh(m) && m.refs == 0 && !m.locked
      ensures locks == old(locks)[composite := m] && mutexes == old(mutexes) + {m}
    {
      if composite in locks {
        LockInRefs(View(), composite);
        m := locks[composite];
        assert locks == locks[composite := m];
      } else {
        m := new KeyedMutex();
        locks := locks[composite := m];
        mutexes := mutexes + {m};
      }
    }

    /** Lock, up to the point where it waits for the mutex of the key: one section under `mu`. */
    method Enter(ghost op: nat, bucket: Str, key: Str) returns (composite: Str, m: KeyedMutex)
      requires Valid() && op !in ops
      modifies this, mutexes
      ensures Valid() && composite == Composite(bucket, key)
      ensures Enabled(old(View()), Event.Enter(op, composite, m)) &&
        View() == Next(old(View()), Event.Enter(op, composite, m))
      ensures mutexes == old(mutexes) + {m} && (m in old(mutexes) || fresh(m))
    {
      hide Inv;
      composite := Composite(bucket, key);
      ghost var before := View();
      m := FindMutex(composite);
      CountIn(op, composite, m, before);
    }

    /** Counting an operation in, with the key's mutex in the map. */
    method CountIn(ghost op: nat, composite: Str, m: KeyedMutex, ghost before: State<KeyedMutex>)
      requires Inv(before) && Enabled(before, Event.Enter(op, composite, m)) && m in mutexes
      requires locks == before.locks[composite := m] && ops == before.ops && owners == before.owners
      requires before.refs.Keys + {m} == mutexes
      requires forall x | x in mutexes :: x.refs == if x in before.refs then before.refs[x] else 0
      requires forall x | x in mutexes :: x.locked <==> x in owners
      modifies this`ops, m`refs
      ensures Valid() && View() == Next(before, Event.Enter(op, composite, m))
    {
      hide Inv;
      InvKept(before, Event.Enter(op, composite, m));
      m.refs := m.refs + 1;
      ops := ops[op := Waiting(composite, m)];
      assert View() == Next(before, Event.Enter(op, composite, m));
    }

    /** Lock, once its mutex is free. */
    method Acquire(ghost op: nat, m: KeyedMutex)
      requires Valid() && op in ops && ops[op].Waiting? && ops[op].mutex == m && !m.locked
      modifies this, mutexes
      ensures Valid() && Enabled(old(View()), Event.Acquire(op)) && View() == Next(old(View()), Event.Acquire(op))
      ensures mutexes == old(mutexes)
    {
      hide Inv;
      ghost var before := View();
      MutexInRefs(before, op);
      InvKept(before, Event.Acquire(op));
      m.locked := true;
      owners := owners[m := op];
      ops := ops[op := Holding(ops[op].key, m)];
      assert View() == Next(before, Event.Acquire(op));
    }

    /** The first half of the unlock closure. */
    method Unlock(ghost op: nat, m: KeyedMutex)
      requires Valid() && op in ops && ops[op].Holding? && ops[op].mutex == m
      modifies this, mutexes
      ensures Valid() && Enabled(old(View()), Event.Unlock(op)) && View() == Next(old(View()), Event.Unlock(op))
      ensures mutexes == old(mutexes)
    {
      hide Inv;
      ghost var before := View();
      MutexInRefs(before, op);
      InvKept(before, Event.Unlock(op));
      m.locked := false;
      owners := Dropped(owners, m);
      ops := ops[op := Releasing(ops[op].key, m)];
      assert View() == Next(before, Event.Unlock(op));
    }

    /** The second half of the unlock closure: one section under `mu`. */
    method Leave(ghost op: nat, composite: Str, m: KeyedMutex)
      requires Valid() && op in ops && ops[op] == Releasing(composite, m)
      modifies this, mutexes
      ensures Valid() && Enabled(old(View()), Event.Leave(op)) && View() == Next(old(View()), Event.Leave(op))
      ensures mutexes == old(mutexes)
    {
      hide Inv;
      ghost var before := View();
      MutexInRefs(before, op);
      InvKept(before, Event.Leave(op));
      m.refs := m.refs - 1;
      if m.refs == 0 && composite in locks && locks[composite] == m {
        locks := Dropped(locks, composite);
      }
      ops := Dropped(ops, op);
      assert View() == Next(before, Event.Leave(op));
    }
  }
}
