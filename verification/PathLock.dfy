/**
 The reference-counted registry of per-path thread locks behind `exclusive_path_lock`, and mutual
 exclusion over every interleaving of the threads that use it.
 */
module PathLock {
  /** The identity of a lock object. */
  type LockId = nat

  datatype Entry = Entry(lock: LockId, users: int)

  type Registry = map<string, Entry>

  // ---------------------------------------------------------------- the registry

  /** `_thread_lock_for`: `created` is the lock object created when the key is absent. */
  function TakeReference(r: Registry, key: string, created: LockId): (Registry, LockId) {
    if key in r then (r[key := Entry(r[key].lock, r[key].users + 1)], r[key].lock)
    else (r[key := Entry(created, 1)], created)
  }

  /** `_release_thread_lock_reference`. */
  function DropReference(r: Registry, key: string, lock: LockId): Registry {
    if key !in r || r[key].lock != lock then r
    else if r[key].users - 1 != 0 then r[key := Entry(lock, r[key].users - 1)]
    else r - {key}
  }

  /** Dropping a reference undoes taking it, exactly when no entry stands there without users. */
  lemma DropUndoesTake(r: Registry, key: string, created: LockId)
    ensures var (taken, lock) := TakeReference(r, key, created);
            && key in taken && taken[key] == Entry(lock, if key in r then r[key].users + 1 else 1)
            && (DropReference(taken, key, lock) == r <==> (key in r ==> r[key].users != 0))
  {
    var (taken, lock) := TakeReference(r, key, created);
    if key !in r {
      assert taken - {key} == r;
    } else if r[key].users == 0 {
      assert key !in DropReference(taken, key, lock);
    } else {
      assert taken[key := r[key]] == r;
    }
  }

  // ---------------------------------------------------------------- threads

  /** One use of `exclusive_path_lock`: waiting for the lock, past it, or on the way out. */
  datatype Phase = Waiting | Holding | Leaving
  datatype Thread = Thread(key: string, lock: LockId, phase: Phase)

  type ThreadId = nat

  /** `owner` maps each locked lock object to the thread that locked it. */
  datatype System = System(registry: Registry, owner: map<LockId, ThreadId>, threads: map<ThreadId, Thread>)

  const IDLE := System(map[], map[], map[])

  datatype Step =
    | Enter(t: ThreadId, key: string, created: LockId)
    | Acquire(t: ThreadId)
    | TimeOut(t: ThreadId)
    | Release(t: ThreadId)
    | Drop(t: ThreadId)

  /** A lock object that somebody can still reach. */
  ghost predicate Reachable(s: System, lock: LockId) {
    || (exists key :: key in s.registry && s.registry[key].lock == lock)
    || (exists t :: t in s.threads && s.threads[t].lock == lock)
  }

  predicate InPhase(s: System, t: ThreadId, phase: Phase) {
    t in s.threads && s.threads[t].phase == phase
  }

  ghost predicate Enabled(s: System, step: Step) {
    match step
    case Enter(t, key, created) => t !in s.threads && !Reachable(s, created)
    case Acquire(t) => InPhase(s, t, Waiting) && s.threads[t].lock !in s.owner
    case TimeOut(t) => InPhase(s, t, Waiting)
    case Release(t) => InPhase(s, t, Holding)
    case Drop(t) => InPhase(s, t, Leaving)
  }

  /** One atomic step of one thread, in the order `exclusive_path_lock` takes them. */
  ghost function Next(s: System, step: Step): System
    requires Enabled(s, step)
  {
    match step
    case Enter(t, key, created) =>
      var (registry, lock) := TakeReference(s.registry, key, created);
      s.(registry := registry, threads := s.threads[t := Thread(key, lock, Waiting)])
    case Acquire(t) =>
      s.(owner := s.owner[s.threads[t].lock := t], threads := s.threads[t := s.threads[t].(phase := Holding)])
    case TimeOut(t) =>
      s.(threads := s.threads[t := s.threads[t].(phase := Leaving)])
    case Release(t) =>
      s.(owner := s.owner - {s.threads[t].lock}, threads := s.threads[t := s.threads[t].(phase := Leaving)])
    case Drop(t) =>
      s.(registry := DropReference(s.registry, s.threads[t].key, s.threads[t].lock), threads := s.threads - {t})
  }

  /** The threads between taking and dropping a reference to `key`. */
  function Users(s: System, key: string): set<ThreadId> {
    set t | t in s.threads && s.threads[t].key == key
  }

  ghost predicate SharedLocks(s: System) {
    && (forall t :: t in s.threads ==>
          s.threads[t].key in s.registry && s.registry[s.threads[t].key].lock == s.threads[t].lock)
    && (forall k, k' :: k in s.registry && k' in s.registry && s.registry[k].lock == s.registry[k'].lock ==> k == k')
  }

  ghost predicate Counted(s: System) {
    forall key :: CountedAt(s, key)
  }

  ghost predicate Owned(s: System) {
    && (forall l :: l in s.owner ==> InPhase(s, s.owner[l], Holding) && s.threads[s.owner[l]].lock == l)
    && (forall t :: InPhase(s, t, Holding) ==> s.threads[t].lock in s.owner && s.owner[s.threads[t].lock] == t)
  }

  ghost predicate Inv(s: System) {
    SharedLocks(s) && Counted(s) && Owned(s)
  }

  lemma UsersAfter(s: System, s': System, t: ThreadId, key: string)
    requires forall u :: u != t ==> (u in s.threads <==> u in s'.threads)
    requires forall u :: u in s.threads && u in s'.threads ==> s.threads[u].key == s'.threads[u].key
    ensures t !in s.threads && t in s'.threads ==>
            Users(s', key) == (if s'.threads[t].key == key then Users(s, key) + {t} else Users(s, key))
    ensures t in s.threads && t !in s'.threads ==> Users(s', key) == Users(s, key) - {t}
    ensures (t in s.threads <==> t in s'.threads) ==> Users(s', key) == Users(s, key)
  {
    assert forall u :: u in Users(s, key) && u != t ==> u in Users(s', key);
    assert forall u :: u in Users(s', key) && u != t ==> u in Users(s, key);
  }

  /** What the registry says about one path. */
  ghost predicate CountedAt(s: System, key: string) {
    if key in s.registry then s.registry[key].users == |Users(s, key)| > 0 else Users(s, key) == {}
  }

  lemma CountAfterEnter(s: System, step: Step, key: string)
    requires CountedAt(s, key) && Enabled(s, step) && step.Enter?
    ensures CountedAt(Next(s, step), key)
  {
    UsersAfter(s, Next(s, step), step.t, key);
    assert step.t !in Users(s, key);
  }

  lemma CountsAfterEnter(s: System, step: Step)
    requires Inv(s) && Enabled(s, step) && step.Enter?
    ensures Counted(Next(s, step))
  {
    hide Users, Next;
    var s' := Next(s, step);
    forall key ensures CountedAt(s', key) {
      assert CountedAt(s, key);
      CountAfterEnter(s, step, key);
    }
  }

  lemma CountsAfterDrop(s: System, step: Step)
    requires Inv(s) && Enabled(s, step) && step.Drop?
    ensures Counted(Next(s, step))
  {
    var s' := Next(s, step);
    var mine := s.threads[step.t].key;
    forall key ensures CountedAt(s', key) {
      assert CountedAt(s, key);
      UsersAfter(s, s', step.t, key);
      if key == mine {
        assert step.t in Users(s, key);
        assert |Users(s', key)| == |Users(s, key)| - 1;
        assert |Users(s', key)| == 0 ==> Users(s', key) == {};
      } else {
        assert step.t !in Users(s, key);
        assert Users(s', key) == Users(s, key);
      }
    }
  }

  lemma CountsAfterOther(s: System, step: Step)
    requires Inv(s) && Enabled(s, step) && !step.Enter? && !step.Drop?
    ensures Counted(Next(s, step))
  {
    var s' := Next(s, step);
    forall key ensures CountedAt(s', key) {
      assert CountedAt(s, key);
      UsersAfter(s, s', step.t, key);
    }
  }

  lemma LocksSharedAfterEnter(s: System, step: Step)
    requires SharedLocks(s) && Enabled(s, step) && step.Enter?
    ensures SharedLocks(Next(s, step))
  {
    var s' := Next(s, step);
    forall k, k' | k in s'.registry && k' in s'.registry && s'.registry[k].lock == s'.registry[k'].lock
      ensures k == k'
    {
      assert k in s.registry ==> s'.registry[k].lock == s.registry[k].lock;
      assert k' in s.registry ==> s'.registry[k'].lock == s.registry[k'].lock;
    }
  }

  lemma LocksSharedAfterDrop(s: System, step: Step)
    requires Inv(s) && Enabled(s, step) && step.Drop?
    ensures SharedLocks(Next(s, step))
  {
    var s' := Next(s, step);
    var mine := s.threads[step.t];
    forall u | u in s'.threads && s.threads[u].key == mine.key ensures mine.key in s'.registry {
      TwoUsers(s, u, step.t);
    }
  }

  lemma LocksStayShared(s: System, step: Step)
    requires Inv(s) && Enabled(s, step)
    ensures SharedLocks(Next(s, step))
  {
    hide Counted, Owned;
    match step {
      case Enter(_, _, _) => LocksSharedAfterEnter(s, step);
      case Drop(_) => LocksSharedAfterDrop(s, step);
      case _ => assert Next(s, step).registry == s.registry;
    }
  }

  lemma TwoUsers(s: System, u: ThreadId, t: ThreadId)
    requires Inv(s) && u in s.threads && t in s.threads && u != t && s.threads[u].key == s.threads[t].key
    ensures s.registry[s.threads[t].key].users > 1
  {
    var key := s.threads[t].key;
    assert CountedAt(s, key);
    assert {u, t} <= Users(s, key);
    assert Users(s, key) == {u, t} + (Users(s, key) - {u, t});
  }

  lemma OwnershipAfterAcquire(s: System, step: Step)
    requires Owned(s) && Enabled(s, step) && step.Acquire?
    ensures Owned(Next(s, step))
  {
    assert s.threads[step.t].lock !in s.owner;
  }

  lemma OwnershipAfterRelease(s: System, step: Step)
    requires Owned(s) && Enabled(s, step) && step.Release?
    ensures Owned(Next(s, step))
  {
    assert s.owner[s.threads[step.t].lock] == step.t;
  }

  lemma OwnershipElsewhere(s: System, step: Step)
    requires Owned(s) && Enabled(s, step) && !step.Acquire? && !step.Release?
    ensures Owned(Next(s, step))
  {
    hide TakeReference, DropReference;
    assert Next(s, step).owner == s.owner;
    assert forall t :: InPhase(Next(s, step), t, Holding) <==> InPhase(s, t, Holding);
  }

  lemma OwnershipStays(s: System, step: Step)
    requires Inv(s) && Enabled(s, step)
    ensures Owned(Next(s, step))
  {
    hide Counted, SharedLocks, Owned, Next;
    match step {
      case Acquire(_) => OwnershipAfterAcquire(s, step);
      case Release(_) => OwnershipAfterRelease(s, step);
      case _ => OwnershipElsewhere(s, step);
    }
  }

  lemma InvStep(s: System, step: Step)
    requires Inv(s) && Enabled(s, step)
    ensures Inv(Next(s, step))
  {
    LocksStayShared(s, step);
    OwnershipStays(s, step);
    if step.Enter? {
      CountsAfterEnter(s, step);
    } else if step.Drop? {
      CountsAfterDrop(s, step);
    } else {
      CountsAfterOther(s, step);
    }
  }

  // ---------------------------------------------------------------- the mutable registry

  /** `_THREAD_LOCKS` with the lock objects it hands out and the uses of `exclusive_path_lock` under way. */
  class ThreadLocks {
    var locks: Registry
    var owner: map<LockId, ThreadId>
    var threads: map<ThreadId, Thread>

    ghost function Contents(): System
      reads this
    {
      System(locks, owner, threads)
    }

    constructor ()
      ensures Contents() == IDLE && Inv(Contents())
    {
      locks, owner, threads := map[], map[], map[];
    }

    method ThreadLockFor(key: string, created: LockId) returns (lock: LockId)
      modifies this`locks
      ensures (locks, lock) == TakeReference(old(locks), key, created)
    {
      if key !in locks {
        locks := locks[key := Entry(created, 1)];
        return created;
      }
      lock := locks[key].lock;
      locks := locks[key := Entry(lock, locks[key].users + 1)];
    }

    method ReleaseReference(key: string, lock: LockId)
      modifies this`locks
      ensures locks == DropReference(old(locks), key, lock)
    {
      if key !in locks || locks[key].lock != lock { return; }
      var users := locks[key].users - 1;
      if users != 0 {
        locks := locks[key := Entry(lock, users)];
      } else {
        locks := locks - {key};
      }
    }

    /**
     One step of one thread. Whoever comes through holds the path alone: the thread that acquires its lock is
     the only one past the lock of its path.
     */
    method Perform(step: Step)
      requires Inv(Contents()) && Enabled(Contents(), step)
      modifies this
      ensures Contents() == Next(old(Contents()), step) && Inv(Contents())
      ensures step.Acquire? ==> InPhase(Contents(), step.t, Holding)
      ensures step.Acquire? ==>
        forall u :: InPhase(Contents(), u, Holding) && threads[u].key == threads[step.t].key ==> u == step.t
    {
      InvStep(Contents(), step);
      match step {
        case Enter(t, key, created) =>
          var lock := ThreadLockFor(key, created);
          threads := threads[t := Thread(key, lock, Waiting)];
        case Acquire(t) =>
          owner := owner[threads[t].lock := t];
          threads := threads[t := threads[t].(phase := Holding)];
        case TimeOut(t) =>
          threads := threads[t := threads[t].(phase := Leaving)];
        case Release(t) =>
          owner := owner - {threads[t].lock};
          threads := threads[t := threads[t].(phase := Leaving)];
        case Drop(t) =>
          ReleaseReference(threads[t].key, threads[t].lock);
          threads := threads - {t};
      }
      if step.Acquire? { HoldsAlone(Contents(), step.t); }
    }
  }

  lemma HoldsAlone(s: System, t: ThreadId)
    requires Inv(s) && InPhase(s, t, Holding)
    ensures forall u :: InPhase(s, u, Holding) && s.threads[u].key == s.threads[t].key ==> u == t
  {
  }

  // ---------------------------------------------------------------- every interleaving

  datatype Run = Run(states: seq<System>, steps: seq<Step>)

  ghost predicate IsRun(run: Run) {
    && |run.states| == |run.steps| + 1
    && run.states[0] == IDLE
    && forall i :: 0 <= i < |run.steps| ==>
         Enabled(run.states[i], run.steps[i]) && run.states[i + 1] == Next(run.states[i], run.steps[i])
  }

  lemma {:induction false} InvHolds(run: Run, i: nat)
    requires IsRun(run) && i < |run.states|
    ensures Inv(run.states[i])
  {
    hide Next, Inv;
    if i == 0 {
      IdleIsFine();
    } else {
      InvHolds(run, i - 1);
      assert run.states[i] == Next(run.states[i - 1], run.steps[i - 1]);
      InvStep(run.states[i - 1], run.steps[i - 1]);
    }
  }

  lemma IdleIsFine()
    ensures Inv(IDLE)
  {
  }

  /** At most one thread per canonical path is past the lock. */
  lemma MutualExclusion(run: Run, i: nat, t: ThreadId, u: ThreadId)
    requires IsRun(run) && i < |run.states|
    requires InPhase(run.states[i], t, Holding) && InPhase(run.states[i], u, Holding)
    requires run.states[i].threads[t].key == run.states[i].threads[u].key
    ensures t == u
  {
    InvHolds(run, i);
  }

  /** All concurrent users of one path use one lock object, and users of two paths never share one. */
  lemma OneLockPerPath(run: Run, i: nat, t: ThreadId, u: ThreadId)
    requires IsRun(run) && i < |run.states| && t in run.states[i].threads && u in run.states[i].threads
    ensures run.states[i].threads[t].lock == run.states[i].threads[u].lock <==>
            run.states[i].threads[t].key == run.states[i].threads[u].key
  {
    InvHolds(run, i);
  }

  /** The stored count is the number of users; a path is registered exactly while it has users. */
  lemma CountIsExact(run: Run, i: nat, key: string)
    requires IsRun(run) && i < |run.states|
    ensures key in run.states[i].registry <==> Users(run.states[i], key) != {}
    ensures key in run.states[i].registry ==> run.states[i].registry[key].users == |Users(run.states[i], key)|
  {
    InvHolds(run, i);
    assert CountedAt(run.states[i], key);
  }

  /** Dropping a reference always finds the lock it was taken from: the defensive return is never taken. */
  lemma DropAlwaysFindsItsEntry(run: Run, i: nat)
    requires IsRun(run) && i < |run.steps| && run.steps[i].Drop?
    ensures var s, me := run.states[i], run.states[i].threads[run.steps[i].t];
            me.key in s.registry && s.registry[me.key].lock == me.lock && s.registry[me.key].users > 0
  {
    InvHolds(run, i);
    assert CountedAt(run.states[i], run.states[i].threads[run.steps[i].t].key);
  }
}
