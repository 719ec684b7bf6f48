/** The blocking mutex and the counting semaphore, as steps on one core.

    A step is what runs with interrupts off or in one atomic instruction: one evaluation of the wait
    condition together with the parking it may lead to, one load or compare-and-swap, the store of a
    release, the removal of a waiter from the queue, and its return to the ready queue. Steps of different
    threads may follow each other in any order. */
module Blocking {
  import opened Wrappers

  type Tid = nat

  /** Where the threads are that have to do with waiting: parked in the queue, taken off it and still in
      the waker's hand, ready to try again, or past the store of a release and about to wake someone. */
  datatype Room = Room(queue: seq<Tid>, transit: set<Tid>, ready: set<Tid>, waking: set<Tid>)

  const EMPTY := Room([], {}, {}, {})

  ghost predicate NoDup(s: seq<Tid>) { forall i, j | 0 <= i < j < |s| :: s[i] != s[j] }

  ghost predicate RoomOk(r: Room)
  {
    && NoDup(r.queue) && r.transit !! r.ready
    && (forall t | t in r.queue :: t !in r.transit && t !in r.ready && t !in r.waking)
    && r.transit !! r.waking && r.ready !! r.waking
  }

  /** A thread that is not waiting, not woken and not releasing. */
  predicate Idle(r: Room, t: Tid) { t !in r.queue && t !in r.transit && t !in r.ready && t !in r.waking }

  /** Releasers that have yet to wake someone, and woken threads that have yet to try again. */
  function Coming(r: Room): nat { |r.waking| + |r.transit| + |r.ready| }

  function Park(r: Room, t: Tid): Room { r.(queue := r.queue + [t], ready := r.ready - {t}) }

  function Leave(r: Room, t: Tid): Room { r.(ready := r.ready - {t}) }

  function StartWake(r: Room, t: Tid): Room { r.(waking := r.waking + {t}) }

  /** `wake_one`, first critical section: take the first waiter, if any. */
  function Pop(r: Room, t: Tid): Room
  {
    if r.queue == [] then r.(waking := r.waking - {t})
    else r.(waking := r.waking - {t}, queue := r.queue[1..], transit := r.transit + {r.queue[0]})
  }

  /** `wake_one`, second critical section: hand it to the scheduler. */
  function Deliver(r: Room, w: Tid): Room { r.(transit := r.transit - {w}, ready := r.ready + {w}) }

  /** Waker `t` has taken the longest waiting thread, if any, into its hand, and is done with the queue. */
  ghost predicate Popped(r: Room, r': Room, t: Tid, w: Option<Tid>)
  {
    && r'.waking == r.waking - {t} && r'.ready == r.ready && (w.None? <==> r.queue == [])
    && (w.None? ==> r'.queue == [] && r'.transit == r.transit)
    && (w.Some? ==> r.queue == [w.value] + r'.queue && r'.transit == r.transit + {w.value})
  }

  /** Thread `w` has gone from a waker's hand to the ready threads. */
  ghost predicate Delivered(r: Room, r': Room, w: Tid)
  {
    && r'.transit == r.transit - {w} && r'.ready == r.ready + {w}
    && r'.queue == r.queue && r'.waking == r.waking
  }

  lemma ParkOk(r: Room, t: Tid)
    requires RoomOk(r) && (Idle(r, t) || t in r.ready)
    ensures RoomOk(Park(r, t)) && Coming(Park(r, t)) >= Coming(r) - 1
  {
  }

  lemma LeaveOk(r: Room, t: Tid)
    requires RoomOk(r) && (Idle(r, t) || t in r.ready)
    ensures RoomOk(Leave(r, t)) && Coming(Leave(r, t)) >= Coming(r) - 1
    ensures Idle(r, t) ==> Leave(r, t) == r
  {
  }

  lemma StartWakeOk(r: Room, t: Tid)
    requires RoomOk(r) && Idle(r, t)
    ensures RoomOk(StartWake(r, t)) && Coming(StartWake(r, t)) == Coming(r) + 1
  {
  }

  lemma PopOk(r: Room, t: Tid)
    requires RoomOk(r) && t in r.waking
    ensures RoomOk(Pop(r, t))
    ensures r.queue != [] ==> Coming(Pop(r, t)) == Coming(r) && Pop(r, t).queue == r.queue[1..]
    ensures r.queue == [] ==> Pop(r, t).queue == []
  {
    if r.queue != [] {
      var w := r.queue[0];
      assert w in r.queue;
      forall x | x in r.queue[1..] ensures x in r.queue && x != w {
        var i :| 0 <= i < |r.queue[1..]| && r.queue[1..][i] == x;
        assert r.queue[i + 1] == x;
      }
    }
  }

  lemma DeliverOk(r: Room, w: Tid)
    requires RoomOk(r) && w in r.transit
    ensures RoomOk(Deliver(r, w)) && Coming(Deliver(r, w)) == Coming(r) && Deliver(r, w).queue == r.queue
  {
  }

  // --------------------------------------------------------------- semaphore

  /** A semaphore and the threads around it. `read` holds what each thread in `try_acquire` has read. */
  datatype Sem = Sem(initial: int, count: int, room: Room, read: map<Tid, int>, releases: nat, acquires: nat)

  datatype SemStep =
    | Attempt(t: Tid)                          // one round of `wait_until` in `acquire`
    | Load(t: Tid)                             // the first load in `try_acquire`
    | Swap(t: Tid, spurious: bool)             // one compare-and-swap there, which may fail for no reason
    | GiveUp(t: Tid)                           // the count read is not positive
    | Increment(t: Tid)                        // `release`: the increment
    | TakeWaiter(t: Tid)                       // `release`: taking the first waiter off the queue
    | ReadyWaiter(w: Tid)                      // `release`: handing it to the scheduler

  /** Whether a thread's program is at the point where it takes this step next. */
  predicate SemEnabled(s: Sem, step: SemStep)
  {
    match step
    case Attempt(t) => (Idle(s.room, t) || t in s.room.ready) && t !in s.read
    case Load(t) => Idle(s.room, t) && t !in s.read
    case Swap(t, _) => t in s.read && s.read[t] > 0
    case GiveUp(t) => t in s.read && s.read[t] <= 0
    case Increment(t) => Idle(s.room, t) && t !in s.read
    case TakeWaiter(t) => t in s.room.waking
    case ReadyWaiter(w) => w in s.room.transit
  }

  function SemNext(s: Sem, step: SemStep): Sem
    requires SemEnabled(s, step)
  {
    match step
    case Attempt(t) =>
      if s.count <= 0 then s.(room := Park(s.room, t))
      else s.(count := s.count - 1, room := Leave(s.room, t), acquires := s.acquires + 1)
    case Load(t) => s.(read := s.read[t := s.count])
    case Swap(t, spurious) =>
      if spurious || s.count != s.read[t] then s.(read := s.read[t := s.count])
      else s.(count := s.count - 1, read := s.read - {t}, acquires := s.acquires + 1)
    case GiveUp(t) => s.(read := s.read - {t})
    case Increment(t) => s.(count := s.count + 1, room := StartWake(s.room, t), releases := s.releases + 1)
    case TakeWaiter(t) => s.(room := Pop(s.room, t))
    case ReadyWaiter(w) => s.(room := Deliver(s.room, w))
  }

  /** Never negative, exactly initial plus releases minus acquires, and no lost wakeup: while someone is
      parked, enough threads are on the way for all the permits there are. */
  ghost predicate SemOk(s: Sem)
  {
    && RoomOk(s.room) && (forall t | t in s.read :: Idle(s.room, t))
    && 0 <= s.count == s.initial + s.releases - s.acquires
    && (s.room.queue != [] ==> Coming(s.room) >= s.count)
  }

  lemma SemRoomStep(s: Sem, step: SemStep)
    requires SemOk(s) && SemEnabled(s, step) && (step.TakeWaiter? || step.ReadyWaiter?)
    ensures SemOk(SemNext(s, step))
  {
    var room := SemNext(s, step).room;
    if step.TakeWaiter? {
      PopOk(s.room, step.t);
    } else {
      DeliverOk(s.room, step.w);
    }
    forall x | x in s.read ensures Idle(room, x) {
      assert Idle(s.room, x);
    }
  }

  /** Every step keeps the semaphore's invariant. */
  lemma SemKeeps(s: Sem, step: SemStep)
    requires SemOk(s) && SemEnabled(s, step)
    ensures SemOk(SemNext(s, step))
  {
    match step
    case Attempt(t) => ParkOk(s.room, t); LeaveOk(s.room, t);
    case Load(t) =>
    case Swap(t, _) =>
    case GiveUp(t) =>
    case Increment(t) => StartWakeOk(s.room, t);
    case TakeWaiter(t) => SemRoomStep(s, step);
    case ReadyWaiter(w) => SemRoomStep(s, step);
  }

  /** A run: every step is enabled when it is taken. */
  predicate SemRun(s: Sem, steps: seq<SemStep>)
    decreases |steps|
  {
    steps == [] || (SemEnabled(s, steps[0]) && SemRun(SemNext(s, steps[0]), steps[1..]))
  }

  function SemAfter(s: Sem, steps: seq<SemStep>): Sem
    requires SemRun(s, steps)
    decreases |steps|
  {
    if steps == [] then s else SemAfter(SemNext(s, steps[0]), steps[1..])
  }

  function NewSem(initial: int): Sem { Sem(initial, initial, EMPTY, map[], 0, 0) }

  lemma {:induction false} SemRunKeeps(s: Sem, steps: seq<SemStep>)
    requires SemOk(s) && SemRun(s, steps)
    ensures SemOk(SemAfter(s, steps)) && SemAfter(s, steps).initial == s.initial
    decreases |steps|
  {
    if steps != [] {
      SemKeeps(s, steps[0]);
      SemRunKeeps(SemNext(s, steps[0]), steps[1..]);
    }
  }

  /** In every reachable state: no negative count, no permit invented or lost, no more permits out than the
      initial count plus the releases, and nobody left waiting while permits are free and no one is coming. */
  lemma SemaphoreSafe(initial: int, steps: seq<SemStep>)
    requires initial >= 0 && SemRun(NewSem(initial), steps)
    ensures var s := SemAfter(NewSem(initial), steps);
            && s.count >= 0 && s.count == initial + s.releases - s.acquires
            && s.acquires <= initial + s.releases
            && (s.room.queue != [] ==> |s.room.waking| + |s.room.transit| + |s.room.ready| >= s.count)
  {
    SemRunKeeps(NewSem(initial), steps);
  }

  class Semaphore {
    var count: int
    var room: Room
    ghost var sem: Sem

    ghost predicate Valid()
      reads this
    {
      SemOk(sem) && sem.count == count && sem.room == room
    }

    constructor (initial: int)
      requires initial >= 0
      ensures Valid() && sem == NewSem(initial) && count == initial
      ensures room.queue == [] && room.transit == {} && room.ready == {} && room.waking == {}
    {
      count := initial;
      room := EMPTY;
      sem := NewSem(initial);
    }

    /** One round of `wait_until` in `acquire`: take a permit, or park. */
    method TakeOrPark(t: Tid) returns (ok: bool)
      requires Valid() && SemEnabled(sem, Attempt(t))
      modifies this
      ensures Valid() && sem == SemNext(old(sem), Attempt(t)) && (ok <==> old(count) > 0)
      ensures room.ready == old(room.ready) - {t} && room.transit == old(room.transit)
              && room.waking == old(room.waking)
      ensures ok ==> count == old(count) - 1 && room.queue == old(room.queue)
      ensures !ok ==> count == old(count) && room.queue == old(room.queue) + [t]
    {
      SemKeeps(sem, Attempt(t));
      sem := SemNext(sem, Attempt(t));
      if count <= 0 {
        room := Park(room, t);
        return false;
      }
      count := count - 1;
      room := Leave(room, t);
      return true;
    }

    /** `try_acquire`, the first load. */
    method TryLoad(t: Tid) returns (cur: int)
      requires Valid() && SemEnabled(sem, Load(t))
      modifies this
      ensures Valid() && sem == SemNext(old(sem), Load(t)) && cur == old(count)
      ensures count == old(count) && room == old(room) && sem.read == old(sem.read)[t := cur]
    {
      SemKeeps(sem, Load(t));
      sem := SemNext(sem, Load(t));
      cur := count;
    }

    /** `try_acquire`, one compare-and-swap: `None` when it took the permit, else the value found. */
    method TrySwap(t: Tid, cur: int, spurious: bool) returns (r: Option<int>)
      requires Valid() && SemEnabled(sem, Swap(t, spurious)) && sem.read[t] == cur
      modifies this
      ensures Valid() && sem == SemNext(old(sem), Swap(t, spurious))
      ensures room == old(room) && (r.None? <==> !spurious && old(count) == cur)
      ensures r.None? ==> count == cur - 1 && sem.acquires == old(sem.acquires) + 1 && sem.read == old(sem.read) - {t}
      ensures r.Some? ==> count == old(count) == r.value && sem.acquires == old(sem.acquires)
      ensures r.Some? ==> sem.read == old(sem.read)[t := r.value]
    {
      SemKeeps(sem, Swap(t, spurious));
      sem := SemNext(sem, Swap(t, spurious));
      if spurious || count != cur { return Some(count); }
      count := cur - 1;
      return None;
    }

    /** `release`, the increment. */
    method Release(t: Tid)
      requires Valid() && SemEnabled(sem, Increment(t))
      modifies this
      ensures Valid() && sem == SemNext(old(sem), Increment(t)) && count == old(count) + 1
      ensures room.waking == old(room.waking) + {t} && room.queue == old(room.queue)
      ensures room.transit == old(room.transit) && room.ready == old(room.ready)
    {
      SemKeeps(sem, Increment(t));
      sem := SemNext(sem, Increment(t));
      count := count + 1;
      room := StartWake(room, t);
    }

    /** `release`, taking the first waiter off the queue. */
    method WakePop(t: Tid) returns (w: Option<Tid>)
      requires Valid() && SemEnabled(sem, TakeWaiter(t))
      modifies this
      ensures Valid() && sem == SemNext(old(sem), TakeWaiter(t)) && count == old(count)
      ensures Popped(old(room), room, t, w)
    {
      SemKeeps(sem, TakeWaiter(t));
      sem := SemNext(sem, TakeWaiter(t));
      w := if room.queue == [] then None else Some(room.queue[0]);
      room := Pop(room, t);
    }

    /** `release`, handing the waiter to the scheduler. */
    method WakeReady(w: Tid)
      requires Valid() && SemEnabled(sem, ReadyWaiter(w))
      modifies this
      ensures Valid() && sem == SemNext(old(sem), ReadyWaiter(w)) && count == old(count)
      ensures Delivered(old(room), room, w)
    {
      SemKeeps(sem, ReadyWaiter(w));
      sem := SemNext(sem, ReadyWaiter(w));
      room := Deliver(room, w);
    }

    /** `try_acquire` as a whole, when no other thread comes between: it takes a permit if there is one. */
    method TryAcquire(t: Tid) returns (ok: bool)
      requires Valid() && Idle(room, t) && t !in sem.read
      modifies this
      ensures Valid() && room == old(room) && sem.read == old(sem.read) && (ok <==> old(count) > 0)
      ensures count == if ok then old(count) - 1 else old(count)
    {
      var cur := TryLoad(t);
      ghost var read := sem.read;
      if cur > 0 {
        var r := TrySwap(t, cur, false);
        assert read - {t} == old(sem.read);
        return true;
      }
      SemKeeps(sem, GiveUp(t));
      sem := SemNext(sem, GiveUp(t));
      assert read - {t} == old(sem.read);
      return false;
    }
  }

  // ------------------------------------------------------------------- mutex

  datatype Lock = Lock(locked: bool, room: Room, holders: set<Tid>)

  datatype LockStep =
    | LockOrPark(t: Tid)                       // one round of `wait_until` in `lock`
    | TryLock(t: Tid)                          // the swap in `try_lock`
    | Unlock(t: Tid)                           // dropping the guard: the store
    | LockTakeWaiter(t: Tid)                   // dropping the guard: taking the first waiter off the queue
    | LockReadyWaiter(w: Tid)                  // dropping the guard: handing it to the scheduler

  predicate LockEnabled(m: Lock, step: LockStep)
  {
    match step
    case LockOrPark(t) => (Idle(m.room, t) || t in m.room.ready) && t !in m.holders
    case TryLock(t) => Idle(m.room, t) && t !in m.holders
    case Unlock(t) => t in m.holders
    case LockTakeWaiter(t) => t in m.room.waking
    case LockReadyWaiter(w) => w in m.room.transit
  }

  function LockNext(m: Lock, step: LockStep): Lock
    requires LockEnabled(m, step)
  {
    match step
    case LockOrPark(t) =>
      if m.locked then m.(room := Park(m.room, t)) else Lock(true, Leave(m.room, t), m.holders + {t})
    case TryLock(t) => if m.locked then m else m.(locked := true, holders := m.holders + {t})
    case Unlock(t) => Lock(false, StartWake(m.room, t), m.holders - {t})
    case LockTakeWaiter(t) => m.(room := Pop(m.room, t))
    case LockReadyWaiter(w) => m.(room := Deliver(m.room, w))
  }

  /** At most one holder, exactly when locked; and no lost wakeup. */
  ghost predicate LockOk(m: Lock)
  {
    && RoomOk(m.room) && (forall t | t in m.holders :: Idle(m.room, t))
    && |m.holders| == (if m.locked then 1 else 0)
    && (m.room.queue != [] && !m.locked ==> Coming(m.room) >= 1)
  }

  lemma LockRoomStep(m: Lock, step: LockStep)
    requires LockOk(m) && LockEnabled(m, step) && (step.LockTakeWaiter? || step.LockReadyWaiter?)
    ensures LockOk(LockNext(m, step))
  {
    var room := LockNext(m, step).room;
    if step.LockTakeWaiter? {
      PopOk(m.room, step.t);
    } else {
      DeliverOk(m.room, step.w);
    }
    forall x | x in m.holders ensures Idle(room, x) {
      assert Idle(m.room, x);
    }
  }

  /** Every step keeps the mutex's invariant. */
  lemma LockKeeps(m: Lock, step: LockStep)
    requires LockOk(m) && LockEnabled(m, step)
    ensures LockOk(LockNext(m, step))
  {
    match step
    case LockOrPark(t) => ParkOk(m.room, t); LeaveOk(m.room, t);
    case TryLock(t) =>
    case Unlock(t) => StartWakeOk(m.room, t); OneHolder(m.holders, t);
    case LockTakeWaiter(t) => LockRoomStep(m, step);
    case LockReadyWaiter(w) => LockRoomStep(m, step);
  }

  lemma OneHolder(holders: set<Tid>, t: Tid)
    requires |holders| <= 1 && t in holders
    ensures holders == {t}
  {
    assert |holders - {t}| == 0;
  }

  predicate LockRun(m: Lock, steps: seq<LockStep>)
    decreases |steps|
  {
    steps == [] || (LockEnabled(m, steps[0]) && LockRun(LockNext(m, steps[0]), steps[1..]))
  }

  function LockAfter(m: Lock, steps: seq<LockStep>): Lock
    requires LockRun(m, steps)
    decreases |steps|
  {
    if steps == [] then m else LockAfter(LockNext(m, steps[0]), steps[1..])
  }

  const FREE := Lock(false, EMPTY, {})

  lemma {:induction false} LockRunKeeps(m: Lock, steps: seq<LockStep>)
    requires LockOk(m) && LockRun(m, steps)
    ensures LockOk(LockAfter(m, steps))
    decreases |steps|
  {
    if steps != [] {
      LockKeeps(m, steps[0]);
      LockRunKeeps(LockNext(m, steps[0]), steps[1..]);
    }
  }

  /** In every reachable state: two holders are one, the lock is held exactly when it is marked, and nobody
      is left waiting for a free lock with no one coming. */
  lemma MutexSafe(steps: seq<LockStep>, a: Tid, b: Tid)
    requires LockRun(FREE, steps)
    ensures var m := LockAfter(FREE, steps);
            && (a in m.holders && b in m.holders ==> a == b)
            && (m.locked <==> m.holders != {})
            && (m.room.queue != [] && |m.room.waking| + |m.room.transit| + |m.room.ready| == 0 ==> m.locked)
  {
    LockRunKeeps(FREE, steps);
    var m := LockAfter(FREE, steps);
    if a in m.holders {
      OneHolder(m.holders, a);
    }
  }

  /** A waiter gets the lock when the holder lets go: `a` locks, `b` parks, `a` releases and wakes `b`. */
  lemma Handover(a: Tid, b: Tid)
    requires a != b
    ensures var steps :=
              [LockOrPark(a), LockOrPark(b), Unlock(a), LockTakeWaiter(a), LockReadyWaiter(b), LockOrPark(b)];
            LockRun(FREE, steps) && LockAfter(FREE, steps) == Lock(true, EMPTY, {b})
  {
    var m1 := Lock(true, EMPTY, {a});
    var m2 := m1.(room := EMPTY.(queue := [b]));
    var m3 := Lock(false, Room([b], {}, {}, {a}), {});
    var m4 := Lock(false, Room([], {b}, {}, {}), {});
    var m5 := Lock(false, Room([], {}, {b}, {}), {});
    var m6 := Lock(true, EMPTY, {b});
    assert LockNext(FREE, LockOrPark(a)) == m1 && LockNext(m1, LockOrPark(b)) == m2 && LockNext(m2, Unlock(a)) == m3;
    assert LockNext(m3, LockTakeWaiter(a)) == m4 && LockNext(m4, LockReadyWaiter(b)) == m5;
    assert LockNext(m5, LockOrPark(b)) == m6;
    OneStep(m5, LockOrPark(b), []);
    OneStep(m4, LockReadyWaiter(b), [LockOrPark(b)]);
    OneStep(m3, LockTakeWaiter(a), [LockReadyWaiter(b), LockOrPark(b)]);
    OneStep(m2, Unlock(a), [LockTakeWaiter(a), LockReadyWaiter(b), LockOrPark(b)]);
    OneStep(m1, LockOrPark(b), [Unlock(a), LockTakeWaiter(a), LockReadyWaiter(b), LockOrPark(b)]);
    OneStep(FREE, LockOrPark(a), [LockOrPark(b), Unlock(a), LockTakeWaiter(a), LockReadyWaiter(b), LockOrPark(b)]);
  }

  lemma OneStep(m: Lock, step: LockStep, rest: seq<LockStep>)
    requires LockEnabled(m, step) && LockRun(LockNext(m, step), rest)
    ensures LockRun(m, [step] + rest) && LockAfter(m, [step] + rest) == LockAfter(LockNext(m, step), rest)
  {
    assert ([step] + rest)[1..] == rest;
  }

  class Mutex {
    var locked: bool
    var room: Room
    ghost var lock: Lock

    ghost predicate Valid()
      reads this
    {
      LockOk(lock) && lock.locked == locked && lock.room == room
    }

    constructor ()
      ensures Valid() && lock == FREE && !locked && lock.holders == {}
      ensures room.queue == [] && room.transit == {} && room.ready == {} && room.waking == {}
    {
      locked := false;
      room := EMPTY;
      lock := FREE;
    }

    /** One round of `wait_until` in `lock`: take the lock, or park. */
    method TakeOrPark(t: Tid) returns (ok: bool)
      requires Valid() && LockEnabled(lock, LockOrPark(t))
      modifies this
      ensures Valid() && lock == LockNext(old(lock), LockOrPark(t)) && (ok <==> !old(locked)) && locked
      ensures room.ready == old(room.ready) - {t} && room.transit == old(room.transit)
              && room.waking == old(room.waking)
      ensures ok ==> lock.holders == {t} && room.queue == old(room.queue)
      ensures !ok ==> lock.holders == old(lock.holders) && room.queue == old(room.queue) + [t]
    {
      LockKeeps(lock, LockOrPark(t));
      lock := LockNext(lock, LockOrPark(t));
      if t in lock.holders {
        OneHolder(lock.holders, t);
      }
      var was := locked;
      locked := true;
      room := if was then Park(room, t) else Leave(room, t);
      return !was;
    }

    /** Take the lock only if it is free right now. */
    method TryToLock(t: Tid) returns (ok: bool)
      requires Valid() && LockEnabled(lock, TryLock(t))
      modifies this
      ensures Valid() && lock == LockNext(old(lock), TryLock(t)) && (ok <==> !old(locked))
      ensures locked && room == old(room) && lock.holders == if ok then {t} else old(lock.holders)
    {
      LockKeeps(lock, TryLock(t));
      lock := LockNext(lock, TryLock(t));
      if t in lock.holders {
        OneHolder(lock.holders, t);
      }
      var was := locked;
      locked := true;
      return !was;
    }

    /** Dropping the guard, the store. */
    method Release(t: Tid)
      requires Valid() && LockEnabled(lock, Unlock(t))
      modifies this
      ensures Valid() && lock == LockNext(old(lock), Unlock(t)) && !locked && lock.holders == {}
      ensures room.waking == old(room.waking) + {t} && room.queue == old(room.queue)
      ensures room.transit == old(room.transit) && room.ready == old(room.ready)
    {
      LockKeeps(lock, Unlock(t));
      OneHolder(lock.holders, t);
      lock := LockNext(lock, Unlock(t));
      locked := false;
      room := StartWake(room, t);
    }

    /** Dropping the guard, taking the first waiter off the queue. */
    method WakePop(t: Tid) returns (w: Option<Tid>)
      requires Valid() && LockEnabled(lock, LockTakeWaiter(t))
      modifies this
      ensures Valid() && lock == LockNext(old(lock), LockTakeWaiter(t))
      ensures locked == old(locked) && lock.holders == old(lock.holders) && Popped(old(room), room, t, w)
    {
      LockKeeps(lock, LockTakeWaiter(t));
      lock := LockNext(lock, LockTakeWaiter(t));
      w := if room.queue == [] then None else Some(room.queue[0]);
      room := Pop(room, t);
    }

    /** Dropping the guard, handing the waiter to the scheduler. */
    method WakeReady(w: Tid)
      requires Valid() && LockEnabled(lock, LockReadyWaiter(w))
      modifies this
      ensures Valid() && lock == LockNext(old(lock), LockReadyWaiter(w))
      ensures locked == old(locked) && lock.holders == old(lock.holders) && Delivered(old(room), room, w)
    {
      LockKeeps(lock, LockReadyWaiter(w));
      lock := LockNext(lock, LockReadyWaiter(w));
      room := Deliver(room, w);
    }
  }
}
