/** The round-robin scheduler on one core. Every method is one critical section (interrupts off). */
module RoundRobin {
  import opened Wrappers
  import opened SchedPlaces

  const MAX_SLOTS: nat := 512

  datatype Next = Yield | Sleep(wakeAt: nat) | Exit | Block(q: nat)

  /** What a kernel stack slot is used for. */
  datatype SlotUse = SlotFree | SlotNew(id: nat) | SlotOf(t: Thread)

  ghost predicate NoDupNat(s: seq<nat>) { forall i, j | 0 <= i < j < |s| :: s[i] != s[j] }

  /** There is one idle thread, and it is always running or in the idle slot. */
  ghost predicate IdleOk(place: Places, idle: Thread)
  {
    && idle in place && (place[idle] == AtCurrent || place[idle] == InIdleSlot)
    && (forall t | t in place :: (t.isIdle <==> t == idle) && (place[t] == InIdleSlot ==> t == idle))
  }

  /** No two threads share an id, or page tables; nobody owns the kernel's page tables. */
  ghost predicate Distinct(threads: set<Thread>, kernelCr3: nat)
  {
    && (forall a, b | a in threads && b in threads && a.id == b.id :: a == b)
    && (forall a, b | a in threads && b in threads && a.aspace.Some? && a.aspace == b.aspace :: a == b)
    && (forall a | a in threads :: a.aspace != Some(kernelCr3))
  }

  /** Every stack slot handed out so far is free, being set up, or the stack of exactly one thread. */
  ghost predicate SlotsOk(threads: set<Thread>, use: map<nat, SlotUse>, freeSlots: seq<nat>, nextSlot: nat)
  {
    && nextSlot <= MAX_SLOTS && (forall s: nat :: s in use <==> s < nextSlot)
    && NoDupNat(freeSlots) && (forall s: nat :: s in freeSlots <==> s in use && use[s] == SlotFree)
    && (forall t | t in threads && t.slot.Some? :: t.slot.value in use && use[t.slot.value] == SlotOf(t))
    && (forall s | s in use && use[s].SlotOf? :: use[s].t in threads && use[s].t.slot == Some(s))
  }

  /** Ids handed out so far are not used twice, by threads or by threads being set up. */
  ghost predicate IdsOk(threads: set<Thread>, use: map<nat, SlotUse>, nextId: nat)
  {
    && (forall t | t in threads :: t.id < nextId)
    && (forall s | s in use && use[s].SlotNew? :: use[s].id < nextId && forall t | t in threads :: t.id != use[s].id)
    && (forall a, b | a in use && b in use && use[a].SlotNew? && use[a] == use[b] :: a == b)
  }

  /** A sleeper's entry carries its deadline, and whoever has left the sleepers has passed it. */
  ghost predicate SleepOk(place: Places, sleeping: seq<Sleeper>, until: map<Thread, nat>, clock: nat)
  {
    && (forall i | 0 <= i < |sleeping| ::
         sleeping[i].thread in until
         && until[sleeping[i].thread] == sleeping[i].wakeAt)
    && (forall t | t in until :: t in place && (place[t] != InSleeping ==> until[t] <= clock))
  }

  function Want(kernelCr3: nat, t: Thread): nat { match t.aspace case Some(a) => a case None => kernelCr3 }

  /** The scheduler's other records, and what is known about its threads. */
  datatype Books = Books(kernelCr3: nat, idle: Thread, use: map<nat, SlotUse>, freeSlots: seq<nat>, nextSlot: nat,
    nextId: nat,
                         until: map<Thread, nat>, clock: nat)

  /** What holds at every point, inside critical sections too. */
  ghost predicate Sound(place: Places, v: View, b: Books)
  {
    && PlacesOk(place, v)
    && IdleOk(place, b.idle) && Distinct(place.Keys, b.kernelCr3)
    && SlotsOk(place.Keys, b.use, b.freeSlots, b.nextSlot) && IdsOk(place.Keys, b.use, b.nextId)
    && SleepOk(place, v.sleeping, b.until, b.clock)
  }

  // ----------------------------------------------------------- step by step

  /** Threads in a waker's hand stay there. */
  ghost predicate HandsKept(place: Places, place': Places)
  {
    && (forall t | t in place && place[t] == InHand :: t in place' && place'[t] == InHand)
    && (forall t | t in place' && place'[t] == InHand :: t in place && place[t] == InHand)
  }

  /** Slots being set up stay set aside. */
  ghost predicate NewKept(use: map<nat, SlotUse>, use': map<nat, SlotUse>)
  {
    && (forall s | s in use && use[s].SlotNew? :: s in use' && use'[s] == use[s])
    && (forall s | s in use' && use'[s].SlotNew? :: s in use && use[s] == use'[s])
  }

  lemma NewTrans(u0: map<nat, SlotUse>, u1: map<nat, SlotUse>, u2: map<nat, SlotUse>)
    requires NewKept(u0, u1) && NewKept(u1, u2)
    ensures NewKept(u0, u2)
  {
  }

  lemma KeptSelf(place: Places, use: map<nat, SlotUse>)
    ensures HandsKept(place, place) && NewKept(use, use)
  {
  }

  lemma KeptTrans(p0: Places, p1: Places, p2: Places)
    requires HandsKept(p0, p1) && HandsKept(p1, p2)
    ensures HandsKept(p0, p2)
  {
  }

  lemma Later(place: Places, v: View, b: Books, now: nat)
    requires Sound(place, v, b) && now >= b.clock
    ensures Sound(place, v, b.(clock := now))
  {
  }

  lemma StepWake(place: Places, v: View, b: Books, i: nat)
    requires Sound(place, v, b) && i < |v.sleeping| && v.sleeping[i].wakeAt <= b.clock
    ensures var t := v.sleeping[i].thread; var place' := place[t := InReady];
            && Sound(place', v.(sleeping := SwapRemove(v.sleeping, i), ready := v.ready + [t]), b)
            && place'.Keys == place.Keys && place'[b.idle] == place[b.idle] && HandsKept(place, place')
  {
    hide PlacesOk, Distinct, SlotsOk, IdsOk;
    var t := v.sleeping[i].thread;
    MoveWake(place, v, i);
    assert place[t := InReady].Keys == place.Keys;
    WakeOne(place, v.sleeping, b.until, b.clock, i);
  }

  lemma WakeOne(place: Places, sleeping: seq<Sleeper>, until: map<Thread, nat>, clock: nat, i: nat)
    requires SleepOk(place, sleeping, until, clock) && i < |sleeping| && sleeping[i].wakeAt <= clock
    ensures SleepOk(place[sleeping[i].thread := InReady], SwapRemove(sleeping, i), until, clock)
  {
  }

  lemma ThreadsMore(s: seq<Sleeper>, t: Sleeper)
    ensures Threads(s + [t]) == Threads(s) + [t.thread]
  {
  }

  /** The due sleepers, all of them and no other, went to the end of the ready queue. */
  ghost predicate Woken(ready: seq<Thread>, sleeping: seq<Sleeper>, ready': seq<Thread>, sleeping': seq<Sleeper>,
                        woken: seq<Sleeper>, now: nat)
  {
    && ready' == ready + Threads(woken)
    && multiset(sleeping) == multiset(sleeping') + multiset(woken)
    && (forall i | 0 <= i < |sleeping'| :: sleeping'[i].wakeAt > now)
    && (forall i | 0 <= i < |woken| :: woken[i].wakeAt <= now)
  }

  /** The same, with the first `n` of those left looked at. */
  ghost predicate Waking(ready: seq<Thread>, sleeping: seq<Sleeper>, ready': seq<Thread>, sleeping': seq<Sleeper>,
                         woken: seq<Sleeper>, now: nat, n: nat)
  {
    && n <= |sleeping'|
    && ready' == ready + Threads(woken)
    && multiset(sleeping) == multiset(sleeping') + multiset(woken)
    && (forall i | 0 <= i < n :: sleeping'[i].wakeAt > now)
    && (forall i | 0 <= i < |woken| :: woken[i].wakeAt <= now)
  }

  lemma WakeStart(ready: seq<Thread>, sleeping: seq<Sleeper>, now: nat)
    ensures Waking(ready, sleeping, ready, sleeping, [], now, 0)
  {
  }

  lemma WakeNext(ready: seq<Thread>, sleeping: seq<Sleeper>, ready': seq<Thread>, sleeping': seq<Sleeper>,
                 woken: seq<Sleeper>, now: nat, i: nat)
    requires Waking(ready, sleeping, ready', sleeping', woken, now, i) && i < |sleeping'|
    ensures sleeping'[i].wakeAt <= now ==>
              Waking(ready, sleeping, ready' + [sleeping'[i].thread], SwapRemove(sleeping', i), woken + [sleeping'[i]],
                now, i)
    ensures sleeping'[i].wakeAt > now ==> Waking(ready, sleeping, ready', sleeping', woken, now, i + 1)
  {
    if sleeping'[i].wakeAt <= now {
      var t := sleeping'[i];
      SwapRemoveHas(sleeping', i);
      ThreadsMore(woken, t);
      assert ready' + [t.thread] == ready + Threads(woken + [t]);
    }
  }

  lemma WakeEnd(ready: seq<Thread>, sleeping: seq<Sleeper>, ready': seq<Thread>, sleeping': seq<Sleeper>,
                woken: seq<Sleeper>, now: nat)
    requires Waking(ready, sleeping, ready', sleeping', woken, now, |sleeping'|)
    ensures Woken(ready, sleeping, ready', sleeping', woken, now)
  {
  }

  /** Where the current thread goes. */
  function Target(t: Thread, how: Next): Where
  {
    match how
    case Yield => if t.isIdle then InIdleSlot else InReady
    case Sleep(_) => InSleeping
    case Exit => InZombies
    case Block(q) => InQueue(q)
  }

  function Off(v: View, how: Next): View
    requires v.current.Some?
  {
    var t := v.current.value;
    match how
    case Yield => if t.isIdle then v.(current := None, idle := Some(t)) else v.(current := None, ready := v.ready + [t])
    case Sleep(wakeAt) => v.(current := None, sleeping := v.sleeping + [Sleeper(t, wakeAt)])
    case Exit => v.(current := None, zombies := v.zombies + [t])
    case Block(q) => v.(current := None, queues := v.queues[q := Q(v.queues, q) + [t]])
  }

  function OffBooks(b: Books, t: Thread, how: Next): Books
  {
    match how case Sleep(wakeAt) => b.(until := b.until[t := wakeAt]) case _ => b
  }

  lemma CurrentPlace(place: Places, v: View, t: Thread)
    requires PlacesOk(place, v) && v.current == Some(t)
    ensures t in place && place[t] == AtCurrent && forall x | x in place && place[x] == AtCurrent :: x == t
  {
  }

  lemma IdleSlotFree(place: Places, v: View, b: Books)
    requires PlacesOk(place, v) && IdleOk(place, b.idle) && v.current == Some(b.idle)
    ensures v.idle == None
  {
  }

  lemma MoveOff(place: Places, v: View, b: Books, how: Next)
    requires PlacesOk(place, v) && IdleOk(place, b.idle) && v.current.Some?
    ensures PlacesOk(place[v.current.value := Target(v.current.value, how)], Off(v, how))
  {
    hide PlacesOk;
    var t := v.current.value;
    CurrentPlace(place, v, t);
    match how
    case Yield =>
      if t.isIdle {
        IdleSlotFree(place, v, b);
        MoveRest(place, v);
      } else {
        MoveYield(place, v);
      }
    case Sleep(wakeAt) => MoveSleep(place, v, wakeAt);
    case Exit => MoveExit(place, v);
    case Block(q) => MoveBlock(place, v, q);
  }

  lemma SleepOff(place: Places, v: View, b: Books, how: Next)
    requires SleepOk(place, v.sleeping, b.until, b.clock) && PlacesOk(place, v) && v.current.Some?
    ensures var t := v.current.value;
            SleepOk(place[t := Target(t, how)], Off(v, how).sleeping, OffBooks(b, t, how).until, b.clock)
  {
    var t := v.current.value;
    CurrentPlace(place, v, t);
    forall i | 0 <= i < |v.sleeping| ensures v.sleeping[i].thread != t {
      assert Threads(v.sleeping)[i] in Threads(v.sleeping);
    }
  }

  /** The current thread is taken off the CPU. Only the idle thread must not do anything but yield. */
  lemma StepOff(place: Places, v: View, b: Books, how: Next)
    requires Sound(place, v, b) && v.current.Some? && (v.current.value.isIdle ==> how == Yield)
    ensures var t := v.current.value; var place' := place[t := Target(t, how)];
            && t in place && place'.Keys == place.Keys
            && Sound(place', Off(v, how), OffBooks(b, t, how))
            && place'[b.idle] == InIdleSlot && HandsKept(place, place')
  {
    hide PlacesOk, Distinct, SlotsOk, IdsOk;
    var t := v.current.value;
    MoveOff(place, v, b, how);
    SleepOff(place, v, b, how);
    CurrentPlace(place, v, t);
    assert place[t := Target(t, how)].Keys == place.Keys;
  }

  /** The next thread to run: the first of the ready queue, else the idle thread. */
  function Pick(v: View): Option<Thread> { if v.ready != [] then Some(v.ready[0]) else v.idle }

  function On(v: View): View
  {
    if v.ready != [] then v.(current := Some(v.ready[0]), ready := v.ready[1..])
      else v.(current := v.idle, idle := None)
  }

  lemma IdleThere(place: Places, v: View, b: Books)
    requires PlacesOk(place, v) && IdleOk(place, b.idle) && place[b.idle] == InIdleSlot
    ensures v.idle == Some(b.idle)
  {
  }

  lemma StepOn(place: Places, v: View, b: Books)
    requires Sound(place, v, b) && v.current == None && place[b.idle] == InIdleSlot
    ensures v.idle == Some(b.idle) && Pick(v).Some?
    ensures var n := Pick(v).value;
            n in place && place[n := AtCurrent].Keys == place.Keys
            && Sound(place[n := AtCurrent], On(v), b)
    ensures HandsKept(place, place[Pick(v).value := AtCurrent])
  {
    hide PlacesOk, Distinct, SlotsOk, IdsOk;
    IdleThere(place, v, b);
    var n := Pick(v).value;
    if v.ready != [] {
      MoveRun(place, v);
    } else {
      MoveRunIdle(place, v);
    }
    assert place[n := AtCurrent].Keys == place.Keys;
  }

  // ----------------------------------------------------------------- reaping

  function Reaped(b: Books, t: Thread): Books
  {
    var b := b.(until := b.until - {t});
    if t.slot.Some? then b.(freeSlots := b.freeSlots + [t.slot.value], use := b.use[t.slot.value := SlotFree]) else b
  }

  lemma ReapSlots(threads: set<Thread>, b: Books, t: Thread)
    requires SlotsOk(threads, b.use, b.freeSlots, b.nextSlot) && t in threads
    ensures SlotsOk(threads - {t}, Reaped(b, t).use, Reaped(b, t).freeSlots, b.nextSlot)
  {
    if t.slot.Some? {
      var s := t.slot.value;
      var free := b.freeSlots + [s];
      assert s !in b.freeSlots;
      forall x: nat ensures x in free <==> x in b.use[s := SlotFree] && b.use[s := SlotFree][x] == SlotFree {
        assert x in b.freeSlots <==> x in b.use && b.use[x] == SlotFree;
      }
    }
  }

  lemma ReapIds(threads: set<Thread>, b: Books, t: Thread)
    requires IdsOk(threads, b.use, b.nextId) && t in threads
    requires t.slot.Some? ==> t.slot.value in b.use && b.use[t.slot.value] == SlotOf(t)
    ensures IdsOk(threads - {t}, Reaped(b, t).use, b.nextId)
  {
  }

  lemma StepReap(place: Places, v: View, b: Books)
    requires Sound(place, v, b) && v.zombies != []
    ensures Sound(place - {v.zombies[0]}, v.(zombies := v.zombies[1..]), Reaped(b, v.zombies[0]))
    ensures HandsKept(place, place - {v.zombies[0]}) && NewKept(b.use, Reaped(b, v.zombies[0]).use)
  {
    hide PlacesOk, SlotsOk, IdsOk, Distinct;
    var t := v.zombies[0];
    MoveAway(place, v);
    assert (place - {t}).Keys == place.Keys - {t};
    ReapSlots(place.Keys, b, t);
    ReapParts(place.Keys, b, t);
    ReapIds(place.Keys, b, t);
    ReapSleep(place, v, b);
  }

  lemma ReapSleep(place: Places, v: View, b: Books)
    requires SleepOk(place, v.sleeping, b.until, b.clock) && PlacesOk(place, v) && v.zombies != []
    ensures SleepOk(place - {v.zombies[0]}, v.sleeping, b.until - {v.zombies[0]}, b.clock)
  {
    MoveAway(place, v);
    forall i | 0 <= i < |v.sleeping| ensures v.sleeping[i].thread != v.zombies[0] {
      assert Threads(v.sleeping)[i] in Threads(v.sleeping);
    }
  }

  lemma ReapParts(threads: set<Thread>, b: Books, t: Thread)
    requires SlotsOk(threads, b.use, b.freeSlots, b.nextSlot) && Distinct(threads, b.kernelCr3) && t in threads
    ensures t.slot.Some? ==> t.slot.value in b.use && b.use[t.slot.value] == SlotOf(t)
    ensures Distinct(threads - {t}, b.kernelCr3)
  {
  }

  /** A thread that has exited is not the one running, and the CPU does not use its page tables. */
  lemma NotRunning(place: Places, v: View, b: Books)
    requires Sound(place, v, b) && v.zombies != [] && v.current.Some?
    ensures var t := v.zombies[0];
            v.current != Some(t) && (t.aspace.Some? ==> Want(b.kernelCr3, v.current.value) != t.aspace.value)
  {
    hide PlacesOk, SlotsOk, IdsOk;
    MoveAway(place, v);
    CurrentPlace(place, v, v.current.value);
  }

  ghost function Elems(s: seq<Thread>): set<Thread> { set t | t in s }

  lemma NoElems()
    ensures Elems([]) == {}
  {
  }

  lemma OneElem(t: Thread)
    ensures Elems([t]) == {t}
  {
  }

  lemma FirstElem(s: seq<Thread>)
    requires s != []
    ensures Elems(s) == {s[0]} + Elems(s[1..])
  {
  }

  lemma WokenReady(ready: seq<Thread>, sleeping: seq<Sleeper>, ready': seq<Thread>, sleeping': seq<Sleeper>,
                   woken: seq<Sleeper>, now: nat)
    requires Woken(ready, sleeping, ready', sleeping', woken, now)
    ensures ready' == ready + Threads(woken)
  {
  }

  /** The running thread is no zombie. */
  lemma NotAmong(place: Places, v: View, b: Books)
    requires Sound(place, v, b) && v.current.Some?
    ensures v.current.value !in v.zombies && v.current.value in place
  {
  }

  /** Who stands in line for the CPU: the ready threads, the woken sleepers, and the yielding thread. */
  function Line(ready: seq<Thread>, woken: seq<Sleeper>, cur: Thread, how: Next): seq<Thread>
  {
    ready + Threads(woken) + (if how == Yield && !cur.isIdle then [cur] else [])
  }

  /** The first in line runs, the others keep their order; the idle thread runs if there is no one. */
  ghost predicate Chosen(line: seq<Thread>, current: Option<Thread>, ready: seq<Thread>, idle: Thread)
  {
    current == Some(if line != [] then line[0] else idle) && ready == if line != [] then line[1..] else []
  }

  /** Off and on again: who runs, who waits, and that only an exiting thread becomes a zombie. */
  lemma SwitchView(ready: seq<Thread>, woken: seq<Sleeper>, v: View, how: Next)
    requires v.current.Some? && v.ready == ready + Threads(woken)
    ensures var off := Off(v, how); var on := On(off);
            && off.current == None
            && (off.idle.Some? ==> Chosen(Line(ready, woken, v.current.value, how), on.current, on.ready,
               off.idle.value))
            && (on.sleeping == if how.Sleep? then v.sleeping + [Sleeper(v.current.value, how.wakeAt)] else v.sleeping)
            && (on.queues == if how.Block? then v.queues[how.q := Q(v.queues, how.q) + [v.current.value]] else v.queues)
  {
  }

  lemma Zombies(v: View, how: Next)
    requires v.current.Some? && v.zombies == []
    ensures On(Off(v, how)).zombies == if how == Exit then [v.current.value] else []
  {
  }

  lemma SwitchOffCurrent(v: View, how: Next)
    requires v.current.Some?
    ensures Off(v, how).current == None
  {
  }

  // ------------------------------------------------------- creating, waking

  const BOOT := Thread(0, None, false, None)
  const IDLE := Thread(1, Some(0), true, None)

  lemma StartSound(kernelCr3: nat)
    ensures Sound(map[BOOT := AtCurrent, IDLE := InIdleSlot], View(Some(BOOT), [], [], Some(IDLE), [], map[]),
                  Books(kernelCr3, IDLE, map[0 := SlotOf(IDLE)], [], 1, 2, map[], 0))
  {
  }

  lemma SlotBounds(place: Places, v: View, b: Books)
    requires Sound(place, v, b)
    ensures b.nextSlot <= MAX_SLOTS && forall s | s in b.freeSlots :: s < b.nextSlot
  {
  }

  lemma StepTakeFree(place: Places, v: View, b: Books)
    requires Sound(place, v, b) && b.freeSlots != []
    ensures var n := |b.freeSlots| - 1; var s := b.freeSlots[n];
            && s in b.use && b.use[s] == SlotFree
            && Sound(place, v, b.(freeSlots := b.freeSlots[..n], use := b.use[s := SlotNew(b.nextId)],
               nextId := b.nextId + 1))
  {
    hide PlacesOk, Distinct, SleepOk;
    var n := |b.freeSlots| - 1;
    var s := b.freeSlots[n];
    assert s in b.freeSlots;
    var use := b.use[s := SlotNew(b.nextId)];
    forall x: nat ensures x in b.freeSlots[..n] <==> x in use && use[x] == SlotFree {
      assert x in b.freeSlots <==> x in b.use && b.use[x] == SlotFree;
      LastOnce(b.freeSlots, x);
    }
  }

  lemma LastOnce(s: seq<nat>, x: nat)
    requires NoDupNat(s) && s != []
    ensures x in s[..|s| - 1] <==> x in s && x != s[|s| - 1]
  {
  }

  lemma StepTakeNew(place: Places, v: View, b: Books)
    requires Sound(place, v, b) && b.nextSlot < MAX_SLOTS
    ensures b.nextSlot !in b.use
    ensures Sound(place, v, b.(nextSlot := b.nextSlot + 1, use := b.use[b.nextSlot := SlotNew(b.nextId)],
            nextId := b.nextId + 1))
  {
    hide PlacesOk, Distinct, SleepOk;
    assert b.nextSlot !in b.use;
    var use := b.use[b.nextSlot := SlotNew(b.nextId)];
    forall x: nat ensures x in b.freeSlots <==> x in use && use[x] == SlotFree {
      assert x in b.freeSlots <==> x in b.use && b.use[x] == SlotFree;
    }
  }

  /** The records once the next slot and id are taken. */
  function Took(b: Books): Books
  {
    if b.freeSlots != [] then
      var n := |b.freeSlots| - 1;
      b.(freeSlots := b.freeSlots[..n], use := b.use[b.freeSlots[n] := SlotNew(b.nextId)], nextId := b.nextId + 1)
    else b.(nextSlot := b.nextSlot + 1, use := b.use[b.nextSlot := SlotNew(b.nextId)], nextId := b.nextId + 1)
  }

  lemma StepTakeSlot(place: Places, v: View, b: Books)
    requires Sound(place, v, b) && (b.freeSlots != [] || b.nextSlot < MAX_SLOTS)
    ensures Sound(place, v, Took(b))
  {
    hide Sound;
    if b.freeSlots != [] {
      StepTakeFree(place, v, b);
    } else {
      StepTakeNew(place, v, b);
    }
  }

  lemma StepReturn(place: Places, v: View, b: Books, s: nat)
    requires Sound(place, v, b) && s in b.use && b.use[s].SlotNew?
    ensures Sound(place, v, b.(freeSlots := b.freeSlots + [s], use := b.use[s := SlotFree]))
  {
    hide PlacesOk, Distinct, SleepOk;
    var use, free := b.use[s := SlotFree], b.freeSlots + [s];
    assert s !in b.freeSlots;
    forall x: nat ensures x in free <==> x in use && use[x] == SlotFree {
      assert x in b.freeSlots <==> x in b.use && b.use[x] == SlotFree;
    }
  }

  /** A thread that nobody knows yet, in the slot and with the id set aside for it. */
  ghost predicate Fresh(place: Places, b: Books, t: Thread)
  {
    && t.slot.Some? && t.slot.value in b.use && b.use[t.slot.value] == SlotNew(t.id) && !t.isIdle
    && (t.aspace.Some? ==> t.aspace.value != b.kernelCr3 && forall x | x in place :: x.aspace != t.aspace)
  }

  lemma FreshSlots(threads: set<Thread>, b: Books, t: Thread)
    requires SlotsOk(threads, b.use, b.freeSlots, b.nextSlot) && t !in threads
    requires t.slot.Some? && t.slot.value in b.use && b.use[t.slot.value].SlotNew?
    ensures SlotsOk(threads + {t}, b.use[t.slot.value := SlotOf(t)], b.freeSlots, b.nextSlot)
  {
  }

  lemma FreshIds(threads: set<Thread>, b: Books, t: Thread)
    requires IdsOk(threads, b.use, b.nextId) && t.slot.Some? && t.slot.value in b.use
             && b.use[t.slot.value] == SlotNew(t.id)
    ensures IdsOk(threads + {t}, b.use[t.slot.value := SlotOf(t)], b.nextId) && t !in threads
    ensures forall x | x in threads :: x.id != t.id
  {
  }

  lemma StepEnqueue(place: Places, v: View, b: Books, t: Thread)
    requires Sound(place, v, b) && Fresh(place, b, t)
    ensures t !in place
    ensures Sound(place[t := InReady], v.(ready := v.ready + [t]), b.(use := b.use[t.slot.value := SlotOf(t)]))
  {
    hide PlacesOk, SlotsOk, IdsOk;
    FreshIds(place.Keys, b, t);
    FreshSlots(place.Keys, b, t);
    MoveQueue(place, v, t);
    assert place[t := InReady].Keys == place.Keys + {t};
  }

  lemma StepTake(place: Places, v: View, b: Books, q: nat)
    requires Sound(place, v, b) && Q(v.queues, q) != []
    ensures var t := Q(v.queues, q)[0];
            t in place && place[t] == InQueue(q) && Sound(place[t := InHand],
              v.(queues := v.queues[q := Q(v.queues, q)[1..]]), b)
  {
    hide PlacesOk, Distinct, SlotsOk, IdsOk;
    var t := Q(v.queues, q)[0];
    MoveTake(place, v, q);
    assert place[t := InHand].Keys == place.Keys;
  }

  lemma StepReady(place: Places, v: View, b: Books, t: Thread)
    requires Sound(place, v, b) && t in place && place[t] == InHand
    ensures Sound(place[t := InReady], v.(ready := v.ready + [t]), b)
  {
    hide PlacesOk, Distinct, SlotsOk, IdsOk;
    MoveQueue(place, v, t);
    assert place[t := InReady].Keys == place.Keys;
  }

  class Scheduler {
    const kernelCr3: nat
    var current: Option<Thread>
    var ready: seq<Thread>
    var sleeping: seq<Sleeper>
    var idle: Option<Thread>
    var zombies: seq<Thread>
    var queues: map<nat, seq<Thread>>
    var freeSlots: seq<nat>
    var nextSlot: nat
    var nextId: nat
    var cr3: nat
    ghost var place: Places
    ghost var use: map<nat, SlotUse>
    ghost var idleThread: Thread
    ghost var until: map<Thread, nat>
    ghost var clock: nat

    ghost function Collections(): View
      reads this
    {
      View(current, ready, sleeping, idle, zombies, queues)
    }

    ghost function Notes(): Books
      reads this
    {
      Books(kernelCr3, idleThread, use, freeSlots, nextSlot, nextId, until, clock)
    }

    ghost predicate Valid()
      reads this
    {
      Sound(place, Collections(), Notes()) && current.Some? && zombies == []
      && cr3 == match current.value.aspace { case Some(a) => a case None => kernelCr3 }
    }

    // ------------------------------------------------------------ rescheduling

    /** Move every due sleeper to the ready queue. */
    method WakeSleepers(now: nat) returns (ghost woken: seq<Sleeper>)
      requires Sound(place, Collections(), Notes()) && now >= clock
      modifies `ready, `sleeping, `place, `clock
      ensures Sound(place, Collections(), Notes()) && clock == now && place.Keys == old(place.Keys)
              && HandsKept(old(place), place)
      ensures Woken(old(ready), old(sleeping), ready, sleeping, woken, now)
    {
      hide Sound, Waking, SwapRemove, Threads, Woken, HandsKept;
      KeptSelf(place, use);
      woken := [];
      Later(place, Collections(), Notes(), now);
      WakeStart(ready, sleeping, now);
      clock := now;
      var i := 0;
      while i < |sleeping|
        invariant 0 <= i <= |sleeping| && clock == now
        invariant Sound(place, Collections(), Notes()) && place.Keys == old(place.Keys) && HandsKept(old(place), place)
        invariant Waking(old(ready), old(sleeping), ready, sleeping, woken, now, i)
        decreases |sleeping| - i
      {
        WakeNext(old(ready), old(sleeping), ready, sleeping, woken, now, i);
        if sleeping[i].wakeAt <= now {
          var t := sleeping[i];
          StepWake(place, Collections(), Notes(), i);
          KeptTrans(old(place), place, place[t.thread := InReady]);
          sleeping := SwapRemove(sleeping, i);
          ready := ready + [t.thread];
          place := place[t.thread := InReady];
          woken := woken + [t];
        } else {
          i := i + 1;
        }
      }
      WakeEnd(old(ready), old(sleeping), ready, sleeping, woken, now);
    }

    /** Release a dead thread: its stack slot is free again and its page tables are torn down. It must not
        be running, and the CPU must not be using its page tables. */
    method FreeThread()
      requires Sound(place, Collections(), Notes()) && zombies != []
      requires current != Some(zombies[0]) && (zombies[0].aspace.Some? ==> cr3 != zombies[0].aspace.value)
      modifies `zombies, `place, `use, `freeSlots, `until
      ensures Sound(place, Collections(), Notes()) && zombies == old(zombies)[1..]
              && place == old(place) - {old(zombies)[0]}
      ensures freeSlots == match old(zombies)[0].slot
                           case None => old(freeSlots)
                           case Some(slot) => old(freeSlots) + [slot]
      ensures HandsKept(old(place), place) && NewKept(old(use), use)
    {
      hide Sound, HandsKept, NewKept;
      var t := zombies[0];
      StepReap(place, Collections(), Notes());
      zombies := zombies[1..];
      place := place - {t};
      until := until - {t};
      if t.slot.Some? {
        freeSlots := freeSlots + [t.slot.value];
        use := use[t.slot.value := SlotFree];
      }
    }

    /** Runs right after every switch, on the new thread: reap what exited before it. */
    method FinishSwitch()
      requires Sound(place, Collections(), Notes()) && current.Some? && cr3 == Want(kernelCr3, current.value)
      modifies `zombies, `place, `use, `freeSlots, `until
      ensures Valid() && place.Keys == old(place.Keys) - Elems(old(zombies))
      ensures HandsKept(old(place), place) && NewKept(old(use), use)
    {
      hide Sound, Elems, HandsKept, NewKept;
      NoElems();
      KeptSelf(place, use);
      while zombies != []
        invariant Sound(place, Collections(), Notes())
        invariant place.Keys - Elems(zombies) == old(place.Keys) - Elems(old(zombies))
        invariant HandsKept(old(place), place) && NewKept(old(use), use)
        decreases |zombies|
      {
        NotRunning(place, Collections(), Notes());
        FirstElem(zombies);
        ghost var p, u := place, use;
        FreeThread();
        KeptTrans(old(place), p, place);
        NewTrans(old(use), u, use);
      }
    }

    /** Take the current thread off the CPU. */
    method SwitchOff(how: Next)
      requires Sound(place, Collections(), Notes()) && current.Some? && (current.value.isIdle ==> how == Yield)
      modifies `current, `ready, `sleeping, `idle, `zombies, `queues, `place, `until
      ensures Sound(place, Collections(), Notes()) && place.Keys == old(place.Keys) && place[idleThread] == InIdleSlot
      ensures HandsKept(old(place), place)
      ensures Collections() == Off(old(Collections()), how)
    {
      hide Sound, HandsKept;
      var cur := current.value;
      StepOff(place, Collections(), Notes(), how);
      current := None;
      place := place[cur := Target(cur, how)];
      match how {
        case Yield =>
          if cur.isIdle {
            idle := Some(cur);
          } else {
            ready := ready + [cur];
          }
        case Sleep(wakeAt) =>
          sleeping := sleeping + [Sleeper(cur, wakeAt)];
          until := until[cur := wakeAt];
        case Exit => zombies := zombies + [cur];
        case Block(q) => queues := queues[q := Q(queues, q) + [cur]];
      }
    }

    /** Put the next thread on the CPU, with its page tables. */
    method SwitchOn()
      requires Sound(place, Collections(), Notes()) && current == None && place[idleThread] == InIdleSlot
      modifies `current, `ready, `idle, `place, `cr3
      ensures Sound(place, Collections(), Notes()) && place.Keys == old(place.Keys)
      ensures Collections() == On(old(Collections())) && current.Some? && cr3 == Want(kernelCr3, current.value)
      ensures old(idle) == Some(idleThread) && HandsKept(old(place), place)
    {
      hide Sound, Want, HandsKept;
      StepOn(place, Collections(), Notes());
      var next;
      if ready != [] {
        next := ready[0];
        ready := ready[1..];
      } else {
        next := idle.value;
        idle := None;
      }
      place := place[next := AtCurrent];
      var want := Want(kernelCr3, next);
      if want != cr3 {
        cr3 := want;
      }
      current := Some(next);
    }

    /** Off and on: the current thread goes, the next one comes. */
    method Switch(how: Next)
      requires Sound(place, Collections(), Notes()) && current.Some? && (current.value.isIdle ==> how == Yield)
      modifies `current, `ready, `sleeping, `idle, `zombies, `queues, `place, `until, `cr3
      ensures Sound(place, Collections(), Notes()) && place.Keys == old(place.Keys)
      ensures Off(old(Collections()), how).idle == Some(idleThread) && Collections() == On(Off(old(Collections()), how))
      ensures current.Some? && cr3 == Want(kernelCr3, current.value) && HandsKept(old(place), place)
    {
      hide Sound, Off, On, Want, HandsKept;
      SwitchOffCurrent(Collections(), how);
      SwitchOff(how);
      ghost var p := place;
      SwitchOn();
      KeptTrans(old(place), p, place);
    }

    /** A switch, and the new thread's first act. */
    method SwitchAndReap(how: Next) returns (switched: bool)
      requires Sound(place, Collections(), Notes()) && current.Some? && zombies == []
               && (current.value.isIdle ==> how == Yield)
      modifies `current, `ready, `sleeping, `idle, `zombies, `queues, `place, `until, `cr3, `use, `freeSlots
      ensures Valid() && HandsKept(old(place), place) && NewKept(old(use), use)
      ensures place.Keys == if how == Exit then old(place.Keys) - {old(current).value} else old(place.Keys)
      ensures switched <==> current != old(current)
      ensures var off := Off(old(Collections()), how); var on := On(off);
              off.idle == Some(idleThread) && current == on.current && ready == on.ready && sleeping == on.sleeping
                && queues == on.queues
    {
      hide Sound, Elems, Off, On, HandsKept, NewKept;
      var cur := current.value;
      Zombies(Collections(), how);
      Switch(how);
      ghost var p := place;
      KeptSelf(place, use);
      switched := current.value != cur;
      NotAmong(place, Collections(), Notes());
      OneElem(cur);
      NoElems();
      if switched {
        FinishSwitch();
      }
      KeptTrans(old(place), p, place);
    }

    /** Take the current thread off the CPU and run the next one. */
    method Reschedule(how: Next, now: nat) returns (switched: bool, ghost woken: seq<Sleeper>, ghost left: seq<Sleeper>)
      requires Valid() && now >= clock && (current.value.isIdle ==> how == Yield)
      modifies this
      ensures Valid() && clock == now && nextSlot == old(nextSlot) && nextId == old(nextId)
              && idleThread == old(idleThread)
      ensures place.Keys == if how == Exit then old(place.Keys) - {old(current).value} else old(place.Keys)
      ensures switched <==> current != old(current)
      ensures Chosen(Line(old(ready), woken, old(current).value, how), current, ready, idleThread)
      ensures Woken(old(ready), old(sleeping), old(ready) + Threads(woken), left, woken, now)
      ensures sleeping == if how.Sleep? then left + [Sleeper(old(current).value, how.wakeAt)] else left
      ensures queues == if how.Block? then old(queues)[how.q := Q(old(queues), how.q) + [old(current).value]]
              else old(queues)
      ensures HandsKept(old(place), place) && NewKept(old(use), use)
    {
      hide Sound, Elems, Want, Woken, Off, On, Line, Chosen, Threads, HandsKept, NewKept;
      woken := WakeSleepers(now);
      ghost var p := place;
      left := sleeping;
      WokenReady(old(ready), old(sleeping), ready, sleeping, woken, now);
      SwitchView(old(ready), woken, Collections(), how);
      switched := SwitchAndReap(how);
      KeptTrans(old(place), p, place);
    }

    // ------------------------------------------------------------ other steps

    /** The state after `init`: the boot thread runs, the idle thread rests. */
    constructor (kernelCr3: nat)
      ensures Valid() && current == Some(BOOT) && ready == [] && clock == 0
    {
      hide Sound;
      this.kernelCr3 := kernelCr3;
      current, idle := Some(BOOT), Some(IDLE);
      ready, sleeping, zombies, queues := [], [], [], map[];
      freeSlots, nextSlot, nextId, cr3 := [], 1, 2, kernelCr3;
      place := map[BOOT := AtCurrent, IDLE := InIdleSlot];
      use := map[0 := SlotOf(IDLE)];
      idleThread, until, clock := IDLE, map[], 0;
      new;
      StartSound(kernelCr3);
    }

    /** `create_thread`, first critical section: a stack slot and an id. */
    method TakeSlot() returns (r: Option<(nat, nat)>)
      requires Valid()
      modifies `freeSlots, `nextSlot, `nextId, `use
      ensures Valid()
      ensures r.None? <==> old(freeSlots) == [] && old(nextSlot) == MAX_SLOTS
      ensures r.None? ==> Notes() == old(Notes())
      ensures r.Some? ==> && r.value.0 < nextSlot && r.value.1 == old(nextId) && nextId == old(nextId) + 1
                          && use == old(use)[r.value.0 := SlotNew(r.value.1)]
      ensures r.Some? ==> if old(freeSlots) == []
                          then r.value.0 == old(nextSlot) && nextSlot == old(nextSlot) + 1 && freeSlots == []
                          else old(freeSlots) == freeSlots + [r.value.0] && nextSlot == old(nextSlot)
    {
      hide Sound, Want;
      SlotBounds(place, Collections(), Notes());
      if freeSlots == [] && nextSlot == MAX_SLOTS { return None; }
      StepTakeSlot(place, Collections(), Notes());
      var slot;
      if freeSlots != [] {
        slot := freeSlots[|freeSlots| - 1];
        assert slot in freeSlots;
        freeSlots := freeSlots[..|freeSlots| - 1];
      } else {
        slot := nextSlot;
        nextSlot := nextSlot + 1;
      }
      var id := nextId;
      nextId := nextId + 1;
      use := use[slot := SlotNew(id)];
      assert Notes() == Took(old(Notes()));
      return Some((slot, id));
    }

    /** `create_thread` when the stack could not be mapped: the slot goes back. */
    method ReturnSlot(slot: nat)
      requires Valid() && slot in use && use[slot].SlotNew?
      modifies `freeSlots, `use
      ensures Valid() && freeSlots == old(freeSlots) + [slot] && use == old(use)[slot := SlotFree]
    {
      hide Sound;
      StepReturn(place, Collections(), Notes(), slot);
      freeSlots := freeSlots + [slot];
      use := use[slot := SlotFree];
    }

    /** `spawn` and `spawn_user`, last critical section: the new thread is ready. */
    method Enqueue(t: Thread)
      requires Valid() && Fresh(place, Notes(), t)
      modifies `ready, `place, `use
      ensures Valid() && ready == old(ready) + [t] && place == old(place)[t := InReady] && t !in old(place)
      ensures use == old(use)[t.slot.value := SlotOf(t)]
    {
      hide Sound;
      StepEnqueue(place, Collections(), Notes(), t);
      ready := ready + [t];
      place := place[t := InReady];
      use := use[t.slot.value := SlotOf(t)];
    }

    /** `wake_one`, first critical section: the first waiter comes into the waker's hand. */
    method WakeTake(q: nat) returns (r: Option<Thread>)
      requires Valid()
      modifies `queues, `place
      ensures Valid()
      ensures r == if Q(old(queues), q) == [] then None else Some(Q(old(queues), q)[0])
      ensures r.None? ==> queues == old(queues) && place == old(place)
      ensures r.Some? ==> queues == old(queues)[q := Q(old(queues), q)[1..]]
      ensures r.Some? ==> r.value in old(place) && place == old(place)[r.value := InHand]
    {
      hide Sound;
      if Q(queues, q) == [] { return None; }
      StepTake(place, Collections(), Notes(), q);
      var t := Q(queues, q)[0];
      queues := queues[q := Q(queues, q)[1..]];
      place := place[t := InHand];
      return Some(t);
    }

    /** `wake_one`, second critical section: the woken thread is ready. */
    method WakeReady(t: Thread)
      requires Valid() && t in place && place[t] == InHand
      modifies `ready, `place
      ensures Valid() && ready == old(ready) + [t] && place == old(place)[t := InReady]
    {
      hide Sound;
      StepReady(place, Collections(), Notes(), t);
      ready := ready + [t];
      place := place[t := InReady];
    }

    /** The timer tick asks for a switch when a sleeper is due, or the slice is over and someone waits. */
    method Tick(now: nat, used: nat, sliceTicks: nat) returns (need: bool)
      ensures need <==>
                (exists i :: 0 <= i < |sleeping| && sleeping[i].wakeAt <= now)
                || (used >= sliceTicks && ready != [])
    {
      var due := false;
      for i := 0 to |sleeping|
        invariant due <==> exists k :: 0 <= k < i && sleeping[k].wakeAt <= now
      {
        if sleeping[i].wakeAt <= now {
          due := true;
        }
      }
      need := due || (used >= sliceTicks && ready != []);
    }
  }
}
