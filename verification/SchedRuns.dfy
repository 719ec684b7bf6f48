/** Whole runs of the scheduler: any order of critical sections by any threads, at any times. */
module SchedRuns {
  import opened Wrappers
  import opened SchedPlaces
  import opened RoundRobin

  /** What the laws about runs speak of. */
  datatype Moment = Moment(current: Option<Thread>, ready: seq<Thread>, threads: set<Thread>, sleeping: seq<Sleeper>,
                           clock: nat, queues: map<nat, seq<Thread>>, full: bool)

  /** A reschedule runs the first ready thread and keeps the order of the others; every sleeper whose deadline
      has come is ready or runs, and every other sleeps on. */
  ghost predicate Turned(a: Moment, b: Moment)
  {
    && (a.ready != [] ==> b.current == Some(a.ready[0]) && a.ready[1..] <= b.ready)
    && (forall s | s in a.sleeping && s.wakeAt <= b.clock :: b.current == Some(s.thread) || s.thread in b.ready)
    && (forall s | s in a.sleeping && s.wakeAt > b.clock :: s in b.sleeping)
    && (forall s | s in b.sleeping :: (s in a.sleeping && s.wakeAt > b.clock) || a.current == Some(s.thread))
  }

  /** Any other step only adds threads behind those that are ready. */
  ghost predicate Joined(a: Moment, b: Moment)
  {
    b.current == a.current && a.ready <= b.ready && b.sleeping == a.sleeping && b.clock == a.clock
  }

  /** A run: between two moments there is a reschedule (`true`) or another step. */
  ghost predicate Linked(trace: seq<Moment>, turns: seq<bool>)
  {
    && |trace| == |turns| + 1
    && forall i | 0 <= i < |turns| :: if turns[i] then Turned(trace[i], trace[i + 1])
       else Joined(trace[i], trace[i + 1])
  }

  function Count(turns: seq<bool>): nat
  {
    if turns == [] then 0 else Count(turns[..|turns| - 1]) + (if turns[|turns| - 1] then 1 else 0)
  }

  /** A thread at index `k` of the ready queue moves up by one with each reschedule, whatever else happens,
      and it is the one that the reschedule number `k + 1` chooses. */
  lemma {:induction false} RoundRobinLaw(trace: seq<Moment>, turns: seq<bool>, k: nat)
    requires Linked(trace, turns) && k < |trace[0].ready|
    ensures Count(turns) <= k ==>
              k - Count(turns) < |trace[|turns|].ready| && trace[|turns|].ready[k - Count(turns)] == trace[0].ready[k]
    ensures turns != [] && turns[|turns| - 1] && Count(turns) == k + 1 ==>
            trace[|turns|].current == Some(trace[0].ready[k])
    decreases |turns|
  {
    if turns != [] {
      var n := |turns| - 1;
      var before, after := trace[n], trace[n + 1];
      assert Linked(trace[..n + 1], turns[..n]);
      RoundRobinLaw(trace[..n + 1], turns[..n], k);
      var c := Count(turns[..n]);
      if c <= k {
        assert before.ready[k - c] == trace[0].ready[k];
        if turns[n] {
          assert Turned(before, after);
          assert k > c ==> before.ready[1..][k - c - 1] == trace[0].ready[k];
        } else {
          assert Joined(before, after);
        }
      }
    }
  }

  /** A sleeper is awake at the latest after the first reschedule at or behind its deadline, whatever else
      happens: the lemma returns a moment at which it runs or is ready. */
  lemma Punctual(trace: seq<Moment>, turns: seq<bool>, i: nat, s: Sleeper) returns (j: nat)
    requires Linked(trace, turns) && i < |turns| && turns[i]
    requires s in trace[0].sleeping && s.wakeAt <= trace[i + 1].clock
    ensures 0 < j <= i + 1 && (trace[j].current == Some(s.thread) || s.thread in trace[j].ready)
  {
    j := 1;
    while j <= i
      invariant 0 < j <= i + 1 && s in trace[j - 1].sleeping
    {
      assert if turns[j - 1] then Turned(trace[j - 1], trace[j]) else Joined(trace[j - 1], trace[j]);
      if turns[j - 1] && s.wakeAt <= trace[j].clock {
        return;
      }
      j := j + 1;
    }
    assert Turned(trace[i], trace[i + 1]);
  }

  lemma ChosenTurns(a: Moment, b: Moment, woken: seq<Sleeper>, left: seq<Sleeper>, cur: Thread, how: Next, idle: Thread)
    requires Chosen(Line(a.ready, woken, cur, how), b.current, b.ready, idle) && a.current == Some(cur)
    requires Woken(a.ready, a.sleeping, a.ready + Threads(woken), left, woken, b.clock)
    requires b.sleeping == if how.Sleep? then left + [Sleeper(cur, how.wakeAt)] else left
    ensures Turned(a, b)
  {
    hide Threads;
    forall s | s in a.sleeping ensures s in woken || s in left {
      assert s in multiset(a.sleeping);
      assert s in multiset(left) || s in multiset(woken);
    }
    forall s | s in left ensures s in a.sleeping {
      assert s in multiset(left);
      assert s in multiset(a.sleeping);
    }
    forall s | s in woken ensures b.current == Some(s.thread) || s.thread in b.ready {
      InLine(a.ready, woken, cur, how, s);
    }
  }

  lemma CurrentWent(a: Moment, b: Moment, woken: seq<Sleeper>, left: seq<Sleeper>, cur: Thread, how: Next, idle: Thread)
    requires Chosen(Line(a.ready, woken, cur, how), b.current, b.ready, idle)
    requires b.sleeping == if how.Sleep? then left + [Sleeper(cur, how.wakeAt)] else left
    requires b.queues == if how.Block? then a.queues[how.q := Q(a.queues, how.q) + [cur]] else a.queues
    requires how == Exit ==> cur !in b.threads
    ensures Went(how, cur, a, b)
  {
    hide Threads;
    if how == Yield && !cur.isIdle {
      var line := Line(a.ready, woken, cur, how);
      assert line[|line| - 1] == cur;
      assert |line| > 1 ==> line[1..][|line| - 2] == cur;
    }
    if how.Sleep? {
      assert b.sleeping[|left|] == Sleeper(cur, how.wakeAt);
    }
  }

  lemma InLine(ready: seq<Thread>, woken: seq<Sleeper>, cur: Thread, how: Next, s: Sleeper)
    requires s in woken
    ensures var line := Line(ready, woken, cur, how); line != [] && (line[0] == s.thread || s.thread in line[1..])
  {
    var i :| 0 <= i < |woken| && woken[i] == s;
    var line := Line(ready, woken, cur, how);
    assert Threads(woken)[i] == s.thread;
    assert line[|ready| + i] == s.thread;
    assert |ready| + i > 0 ==> line[1..][|ready| + i - 1] == s.thread;
  }

  datatype Op =
    | Resched(how: Next, dt: nat)              // at a time `dt` ms later
    | Begin                                    // `create_thread` takes a slot
    | Fail(i: nat)                             // ... and cannot map the stack
    | Finish(i: nat, aspace: Option<nat>)      // ... and queues the thread
    | Take(q: nat)                             // `wake_one` takes a waiter
    | Ready(i: nat)                            // ... and makes it ready

  /** What the code between critical sections holds: slots being set up, woken threads, roots in use. */
  datatype Locals = Locals(now: nat, slots: seq<(nat, nat)>, hands: seq<Thread>, roots: set<nat>, kernel: nat)

  /** The slots being set up are distinct and set aside. */
  ghost predicate SlotsHeld(use: map<nat, SlotUse>, slots: seq<(nat, nat)>)
  {
    && (forall i, j | 0 <= i < j < |slots| :: slots[i].0 != slots[j].0)
    && (forall i | 0 <= i < |slots| :: slots[i].0 in use && use[slots[i].0] == SlotNew(slots[i].1))
  }

  /** The woken threads are exactly those on their way from a wait queue to the ready queue. */
  ghost predicate HandsHeld(place: Places, hands: seq<Thread>)
  {
    && NoDup(hands) && (forall i | 0 <= i < |hands| :: hands[i] in place && place[hands[i]] == InHand)
    && (forall t | t in place && place[t] == InHand :: t in hands)
  }

  /** Every process's page tables are among the roots in use. */
  ghost predicate RootsHeld(threads: set<Thread>, roots: set<nat>)
  {
    forall t | t in threads && t.aspace.Some? :: t.aspace.value in roots
  }

  ghost predicate LocalsOk(s: Scheduler, l: Locals)
    reads s
  {
    && s.clock == l.now && s.kernelCr3 == l.kernel && s.kernelCr3 !in l.roots
    && SlotsHeld(s.use, l.slots) && HandsHeld(s.place, l.hands) && RootsHeld(s.place.Keys, l.roots)
  }

  /** A sequence without its entry `i`. */
  function Without<T>(s: seq<T>, i: nat): seq<T>
    requires i < |s|
  {
    s[..i] + s[i + 1..]
  }

  lemma SlotsKept(use: map<nat, SlotUse>, use': map<nat, SlotUse>, slots: seq<(nat, nat)>)
    requires SlotsHeld(use, slots) && NewKept(use, use')
    ensures SlotsHeld(use', slots)
  {
  }

  lemma SlotHeld(use: map<nat, SlotUse>, slots: seq<(nat, nat)>, i: nat)
    requires SlotsHeld(use, slots) && i < |slots|
    ensures slots[i].0 in use && use[slots[i].0] == SlotNew(slots[i].1)
  {
  }

  lemma SlotsLess(use: map<nat, SlotUse>, slots: seq<(nat, nat)>, i: nat, u: SlotUse)
    requires SlotsHeld(use, slots) && i < |slots|
    ensures SlotsHeld(use[slots[i].0 := u], Without(slots, i))
  {
  }

  lemma SlotsMore(use: map<nat, SlotUse>, slots: seq<(nat, nat)>, slot: nat, id: nat)
    requires SlotsHeld(use, slots) && (slot in use ==> !use[slot].SlotNew?)
    ensures SlotsHeld(use[slot := SlotNew(id)], slots + [(slot, id)])
  {
  }

  lemma HandsLess(place: Places, hands: seq<Thread>, i: nat, w: Where)
    requires HandsHeld(place, hands) && i < |hands| && w != InHand
    ensures hands[i] in place && place[hands[i]] == InHand
    ensures HandsHeld(place[hands[i] := w], Without(hands, i))
  {
    var place', rest := place[hands[i] := w], Without(hands, i);
    forall t | t in place' && place'[t] == InHand ensures t in rest {
      var k :| 0 <= k < |hands| && hands[k] == t;
      assert rest[if k < i then k else k - 1] == t;
    }
  }

  lemma HandsMore(place: Places, hands: seq<Thread>, t: Thread)
    requires HandsHeld(place, hands) && t in place && place[t] != InHand
    ensures HandsHeld(place[t := InHand], hands + [t])
  {
  }

  lemma HandsSame(place: Places, hands: seq<Thread>, t: Thread)
    requires HandsHeld(place, hands) && t !in place
    ensures HandsHeld(place[t := InReady], hands)
  {
  }

  lemma HandsThere(place: Places, place': Places, hands: seq<Thread>)
    requires HandsHeld(place, hands) && HandsKept(place, place')
    ensures HandsHeld(place', hands)
  {
  }

  lemma WasWaiting(s: Scheduler, q: nat)
    requires s.Valid() && Q(s.queues, q) != []
    ensures var t := Q(s.queues, q)[0]; t in s.place && s.place[t] == InQueue(q)
  {
  }

  ghost function Now(s: Scheduler): Moment
    reads s
  {
    Moment(s.current, s.ready, s.place.Keys, s.sleeping, s.clock, s.queues,
           s.freeSlots == [] && s.nextSlot == MAX_SLOTS)
  }

  // ------------------------------------------------------- what a step does

  /** Where a reschedule leaves the thread `cur` that ran. */
  ghost predicate Went(how: Next, cur: Thread, a: Moment, b: Moment)
  {
    && b.queues == (if how.Block? then a.queues[how.q := Q(a.queues, how.q) + [cur]] else a.queues)
    && match how
       case Yield => !cur.isIdle ==> b.current == Some(cur) || (b.ready != [] && b.ready[|b.ready| - 1] == cur)
       case Sleep(wakeAt) => Sleeper(cur, wakeAt) in b.sleeping
       case Exit => cur !in b.threads
       case Block(q) => true
  }

  /** Whether a step switches threads: only the idle thread may not sleep, block or exit. */
  ghost predicate Switches(op: Op, a: Moment)
  {
    op.Resched? && a.current.Some? && !(a.current.value.isIdle && op.how != Yield)
  }

  /** What one step of a run does; only steps that the code cannot take at this point do nothing. */
  ghost predicate Did(op: Op, l: Locals, a: Moment, l': Locals, b: Moment)
  {
    match op
    case Resched(how, dt) =>
      a.current.Some? &&
      if !Switches(op, a) then b == a && l' == l
      else Went(how, a.current.value, a, b) && b.clock == a.clock + dt && l'.slots == l.slots && l'.hands == l.hands
    case Begin =>
      && b.(full := a.full) == a && (l' == l <==> a.full)
      && (l' != l ==> exists slot, id :: l' == l.(slots := l.slots + [(slot, id)]))
    case Fail(i) =>
      if i < |l.slots| then b == a.(full := false) && l' == l.(slots := Without(l.slots, i)) else b == a && l' == l
    case Finish(i, aspace) =>
      if i < |l.slots| && (aspace.Some? ==> aspace.value !in l.roots && l.kernel != aspace.value)
      then var t := Thread(l.slots[i].1, Some(l.slots[i].0), false, aspace);
           && b == a.(ready := a.ready + [t], threads := a.threads + {t})
           && l'.slots == Without(l.slots, i) && l'.hands == l.hands
      else b == a && l' == l
    case Take(q) =>
      if Q(a.queues, q) == [] then b == a && l' == l
      else && b == a.(queues := a.queues[q := Q(a.queues, q)[1..]])
           && l' == l.(hands := l.hands + [Q(a.queues, q)[0]])
    case Ready(i) =>
      if i < |l.hands|
      then b == a.(ready := a.ready + [l.hands[i]]) && l' == l.(hands := Without(l.hands, i))
      else b == a && l' == l
  }

  // ------------------------------------------------------ who joins, who leaves

  /** The thread that a step queues for the first time. */
  ghost function Enters(op: Op, a: Moment, b: Moment): set<Thread>
  {
    if op.Finish? && |a.ready| < |b.ready| then {b.ready[|a.ready|]} else {}
  }

  /** The thread that ends with a step. */
  ghost function Exits(op: Op, turned: bool, a: Moment): set<Thread>
  {
    if turned && op.Resched? && op.how == Exit && a.current.Some? then {a.current.value} else {}
  }

  /** The threads that a run has queued for the first time. */
  ghost function Entered(trace: seq<Moment>, ops: seq<Op>): set<Thread>
    requires |ops| < |trace|
  {
    var n := |ops| - 1;
    if ops == [] then {} else Entered(trace, ops[..n]) + Enters(ops[n], trace[n], trace[n + 1])
  }

  /** The threads that have ended in a run. */
  ghost function Exited(trace: seq<Moment>, turns: seq<bool>, ops: seq<Op>): set<Thread>
    requires |ops| <= |turns| && |ops| < |trace|
  {
    var n := |ops| - 1;
    if ops == [] then {} else Exited(trace, turns, ops[..n]) + Exits(ops[n], turns[n], trace[n])
  }

  /** A step takes in whom it queues, who was not there, and lets go who ends, who was. */
  ghost predicate Stepped(op: Op, turned: bool, a: Moment, b: Moment)
  {
    && Enters(op, a, b) !! a.threads && Exits(op, turned, a) <= a.threads
    && b.threads == a.threads + Enters(op, a, b) - Exits(op, turned, a)
  }

  lemma EnterStep(op: Op, a: Moment, b: Moment, t: Thread)
    requires op.Finish? && t !in a.threads && b.threads == a.threads + {t} && b.ready == a.ready + [t]
    ensures Stepped(op, false, a, b) && Enters(op, a, b) == {t}
  {
  }

  /** The `dead` have no place left, and nothing will get their ids. */
  ghost predicate Buried(threads: set<Thread>, use: map<nat, SlotUse>, nextId: nat, dead: set<Thread>)
  {
    && dead !! threads
    && forall t | t in dead :: t.id < nextId && forall k | k in use && use[k].SlotNew? :: use[k].id != t.id
  }

  /** Threads before plus threads queued are threads now plus threads ended, none of them twice. */
  ghost predicate Conserved(before: set<Thread>, entered: set<Thread>, now: set<Thread>, exited: set<Thread>)
  {
    before !! entered && now !! exited && before + entered == now + exited
  }

  lemma ConservedNext(before: set<Thread>, entered: set<Thread>, exited: set<Thread>, op: Op, turned: bool, a: Moment,
                      b: Moment)
    requires Conserved(before, entered, a.threads, exited) && Stepped(op, turned, a, b) && Enters(op, a, b) !! exited
    ensures Conserved(before, entered + Enters(op, a, b), b.threads, exited + Exits(op, turned, a))
  {
    var n, x := Enters(op, a, b), Exits(op, turned, a);
    assert n == {} || x == {};
    assert b.threads + x == a.threads + n;
    assert before + (entered + n) == b.threads + (exited + x);
  }

  /** Whoever ends has an id that no slot being set up holds. */
  lemma BuryOne(place: Places, v: View, b: Books, use': map<nat, SlotUse>, dead: set<Thread>, t: Thread)
    requires Sound(place, v, b) && Buried(place.Keys, b.use, b.nextId, dead) && NewKept(b.use, use') && t in place
    ensures Buried(place.Keys - {t}, use', b.nextId, dead + {t}) && Buried(place.Keys, use', b.nextId, dead)
  {
  }

  lemma BuriedNew(threads: set<Thread>, use: map<nat, SlotUse>, nextId: nat, dead: set<Thread>, slot: nat)
    requires Buried(threads, use, nextId, dead)
    ensures Buried(threads, use[slot := SlotNew(nextId)], nextId + 1, dead)
    ensures Buried(threads, use[slot := SlotFree], nextId, dead)
  {
  }

  lemma BuriedOld(threads: set<Thread>, use: map<nat, SlotUse>, nextId: nat, dead: set<Thread>, t: Thread, slot: nat)
    requires Buried(threads, use, nextId, dead) && slot in use && use[slot] == SlotNew(t.id)
    ensures Buried(threads + {t}, use[slot := SlotOf(t)], nextId, dead) && t !in dead
  {
  }

  /** One step of a run; a step that the code cannot take at this point is skipped. */
  method RunOne(s: Scheduler, op: Op, l: Locals, ghost dead: set<Thread>) returns (l': Locals, turned: bool)
    requires s.Valid() && LocalsOk(s, l) && Buried(s.place.Keys, s.use, s.nextId, dead)
    modifies s
    ensures s.Valid() && LocalsOk(s, l')
    ensures Buried(s.place.Keys, s.use, s.nextId, dead + Exits(op, turned, old(Now(s))))
    ensures Stepped(op, turned, old(Now(s)), Now(s)) && Enters(op, old(Now(s)), Now(s)) !! dead
    ensures Did(op, l, old(Now(s)), l', Now(s)) && turned == Switches(op, old(Now(s)))
    ensures if turned then Turned(old(Now(s)), Now(s)) else Joined(old(Now(s)), Now(s))
  {
    hide Sound, SlotsHeld, HandsHeld, RootsHeld, Buried, Turned;
    turned := false;
    l' := l;
    assert dead + {} == dead;
    match op {
      case Resched(how, dt) =>
        if !s.current.value.isIdle || how == Yield {
          l' := RunResched(s, op, l, dead);
          turned := true;
        }
      case Begin => l' := RunBegin(s, l, dead);
      case Fail(i) =>
        if i < |l.slots| {
          l' := RunFail(s, i, l, dead);
        }
      case Finish(i, aspace) =>
        if i < |l.slots| && (aspace.Some? ==> aspace.value !in l.roots && aspace.value != l.kernel) {
          l' := RunFinish(s, op, l, dead);
        }
      case Take(q) => l' := RunTake(s, q, l);
      case Ready(i) =>
        if i < |l.hands| {
          l' := RunReady(s, i, l);
        }
    }
  }

  lemma RootsLess(threads: set<Thread>, kernelCr3: nat, roots: set<nat>, t: Thread)
    requires RootsHeld(threads, roots) && Distinct(threads, kernelCr3) && t in threads
    ensures RootsHeld(threads - {t}, if t.aspace.Some? then roots - {t.aspace.value} else roots)
  {
  }

  lemma DistinctNow(s: Scheduler)
    requires s.Valid()
    ensures Distinct(s.place.Keys, s.kernelCr3) && s.current.value in s.place
  {
  }

  method RunResched(s: Scheduler, op: Op, l: Locals, ghost dead: set<Thread>) returns (l': Locals)
    requires s.Valid() && LocalsOk(s, l) && op.Resched? && (s.current.value.isIdle ==> op.how == Yield)
    requires Buried(s.place.Keys, s.use, s.nextId, dead)
    modifies s
    ensures s.Valid() && LocalsOk(s, l') && Turned(old(Now(s)), Now(s)) && Stepped(op, true, old(Now(s)), Now(s))
    ensures Buried(s.place.Keys, s.use, s.nextId, dead + Exits(op, true, old(Now(s))))
    ensures Went(op.how, old(s.current).value, old(Now(s)), Now(s)) && s.clock == old(s.clock) + op.dt
    ensures l'.slots == l.slots && l'.hands == l.hands
  {
    hide Sound, Buried, Went, SlotsHeld, HandsHeld, RootsHeld, Distinct, HandsKept, NewKept, Chosen, Woken, Turned,
      Line, Threads, Want;
    DistinctNow(s);
    var how, dt, cur := op.how, op.dt, s.current.value;
    RootsLess(s.place.Keys, s.kernelCr3, l.roots, cur);
    var switched;
    ghost var woken, left;
    switched, woken, left := s.Reschedule(how, l.now + dt);
    ChosenTurns(old(Now(s)), Now(s), woken, left, cur, how, s.idleThread);
    SlotsKept(old(s.use), s.use, l.slots);
    HandsThere(old(s.place), s.place, l.hands);
    CurrentWent(old(Now(s)), Now(s), woken, left, cur, how, s.idleThread);
    BuryOne(old(s.place), old(s.Collections()), old(s.Notes()), s.use, dead, cur);
    assert dead + {} == dead;
    var roots := if how == Exit && cur.aspace.Some? then l.roots - {cur.aspace.value} else l.roots;
    l' := l.(now := l.now + dt, roots := roots);
  }

  method RunBegin(s: Scheduler, l: Locals, ghost dead: set<Thread>) returns (l': Locals)
    requires s.Valid() && LocalsOk(s, l) && Buried(s.place.Keys, s.use, s.nextId, dead)
    modifies s
    ensures s.Valid() && LocalsOk(s, l') && Joined(old(Now(s)), Now(s)) && s.place == old(s.place)
    ensures Buried(s.place.Keys, s.use, s.nextId, dead) && Did(Begin, l, old(Now(s)), l', Now(s))
  {
    hide Sound, Buried, SlotsHeld, HandsHeld, RootsHeld;
    var r := s.TakeSlot();
    if r.None? { return l; }
    SlotWasFreeAt(old(s.freeSlots), old(s.nextSlot), old(s.use), old(s.place), old(s.Collections()), old(s.Notes()),
      r.value.0);
    SlotsMore(old(s.use), l.slots, r.value.0, r.value.1);
    BuriedNew(s.place.Keys, old(s.use), old(s.nextId), dead, r.value.0);
    l' := l.(slots := l.slots + [r.value]);
    assert r.value == (r.value.0, r.value.1);
  }

  lemma SlotWasFreeAt(freeSlots: seq<nat>, nextSlot: nat, use: map<nat, SlotUse>, place: Places, v: View, b: Books,
                      slot: nat)
    requires Sound(place, v, b) && b.freeSlots == freeSlots && b.nextSlot == nextSlot && b.use == use
    requires slot in freeSlots || slot == nextSlot
    ensures slot in use ==> !use[slot].SlotNew?
  {
  }

  method RunFail(s: Scheduler, i: nat, l: Locals, ghost dead: set<Thread>) returns (l': Locals)
    requires s.Valid() && LocalsOk(s, l) && i < |l.slots| && Buried(s.place.Keys, s.use, s.nextId, dead)
    modifies s
    ensures s.Valid() && LocalsOk(s, l') && Joined(old(Now(s)), Now(s)) && s.place == old(s.place)
    ensures Buried(s.place.Keys, s.use, s.nextId, dead) && Did(Fail(i), l, old(Now(s)), l', Now(s))
  {
    hide Sound, Buried, SlotsHeld, HandsHeld, RootsHeld, Without;
    BuriedNew(s.place.Keys, s.use, s.nextId, dead, l.slots[i].0);
    SlotsLess(s.use, l.slots, i, SlotFree);
    SlotHeld(s.use, l.slots, i);
    s.ReturnSlot(l.slots[i].0);
    l' := l.(slots := Without(l.slots, i));
  }

  lemma RootsMore(threads: set<Thread>, roots: set<nat>, t: Thread)
    requires RootsHeld(threads, roots)
    ensures RootsHeld(threads + {t}, if t.aspace.Some? then roots + {t.aspace.value} else roots)
  {
  }

  lemma FreshRoot(place: Places, b: Books, roots: set<nat>, t: Thread, slots: seq<(nat, nat)>, i: nat)
    requires RootsHeld(place.Keys, roots) && (t.aspace.Some? ==>
             t.aspace.value !in roots && t.aspace.value != b.kernelCr3)
    requires SlotsHeld(b.use, slots) && i < |slots| && t == Thread(slots[i].1, Some(slots[i].0), false, t.aspace)
    ensures Fresh(place, b, t)
  {
  }

  method RunFinish(s: Scheduler, op: Op, l: Locals, ghost dead: set<Thread>) returns (l': Locals)
    requires s.Valid() && LocalsOk(s, l) && op.Finish? && op.i < |l.slots|
    requires op.aspace.Some? ==> op.aspace.value !in l.roots && op.aspace.value != l.kernel
    requires Buried(s.place.Keys, s.use, s.nextId, dead)
    modifies s
    ensures s.Valid() && LocalsOk(s, l') && Joined(old(Now(s)), Now(s)) && Stepped(op, false, old(Now(s)), Now(s))
    ensures Buried(s.place.Keys, s.use, s.nextId, dead) && Enters(op, old(Now(s)), Now(s)) !! dead
    ensures Did(op, l, old(Now(s)), l', Now(s))
  {
    hide Sound, SlotsHeld, HandsHeld, RootsHeld, Without, Fresh, Buried, Stepped, Enters, Exits;
    SlotHeld(s.use, l.slots, op.i);
    var i, aspace := op.i, op.aspace;
    var t := Thread(l.slots[i].1, Some(l.slots[i].0), false, aspace);
    BuriedOld(s.place.Keys, s.use, s.nextId, dead, t, l.slots[i].0);
    FreshRoot(s.place, s.Notes(), l.roots, t, l.slots, i);
    SlotsLess(s.use, l.slots, i, SlotOf(t));
    RootsMore(s.place.Keys, l.roots, t);
    s.Enqueue(t);
    HandsSame(old(s.place), l.hands, t);
    assert s.place.Keys == old(s.place).Keys + {t};
    EnterStep(op, old(Now(s)), Now(s), t);
    l' := l.(slots := Without(l.slots, i), roots := if aspace.Some? then l.roots + {aspace.value} else l.roots);
  }

  method RunTake(s: Scheduler, q: nat, l: Locals) returns (l': Locals)
    requires s.Valid() && LocalsOk(s, l)
    modifies s
    ensures s.Valid() && LocalsOk(s, l') && Joined(old(Now(s)), Now(s))
    ensures Did(Take(q), l, old(Now(s)), l', Now(s))
    ensures s.place.Keys == old(s.place.Keys) && s.use == old(s.use) && s.nextId == old(s.nextId)
  {
    hide Sound, SlotsHeld, HandsHeld, RootsHeld;
    if Q(s.queues, q) == [] { return l; }
    WasWaiting(s, q);
    var r := s.WakeTake(q);
    HandsMore(old(s.place), l.hands, r.value);
    assert s.place.Keys == old(s.place).Keys;
    l' := l.(hands := l.hands + [r.value]);
  }

  method RunReady(s: Scheduler, i: nat, l: Locals) returns (l': Locals)
    requires s.Valid() && LocalsOk(s, l) && i < |l.hands|
    modifies s
    ensures s.Valid() && LocalsOk(s, l') && Joined(old(Now(s)), Now(s))
    ensures Did(Ready(i), l, old(Now(s)), l', Now(s))
    ensures s.place.Keys == old(s.place.Keys) && s.use == old(s.use) && s.nextId == old(s.nextId)
  {
    hide Sound, SlotsHeld, HandsHeld, RootsHeld, Without;
    HandsLess(s.place, l.hands, i, InReady);
    s.WakeReady(l.hands[i]);
    assert s.place.Keys == old(s.place).Keys;
    l' := l.(hands := Without(l.hands, i));
  }

  /** Any run keeps the scheduler sound, its trace obeys the round-robin law, and no thread is lost
      or doubled: those there before and those queued since are those there now and those that ended. */
  method Run(s: Scheduler, ops: seq<Op>, l: Locals)
      returns (l': Locals, ghost trace: seq<Moment>, ghost turns: seq<bool>, ghost locals: seq<Locals>)
    requires s.Valid() && LocalsOk(s, l)
    modifies s
    ensures s.Valid() && LocalsOk(s, l') && Linked(trace, turns) && |turns| == |ops|
    ensures trace[0] == old(Now(s)) && trace[|turns|] == Now(s)
    ensures |locals| == |ops| + 1 && locals[0] == l && locals[|ops|] == l'
    ensures forall i | 0 <= i < |ops| :: Did(ops[i], locals[i], trace[i], locals[i + 1], trace[i + 1])
    ensures forall i | 0 <= i < |ops| :: turns[i] == Switches(ops[i], trace[i])
    ensures Conserved(old(s.place.Keys), Entered(trace, ops), s.place.Keys, Exited(trace, turns, ops))
  {
    hide Sound, LocalsOk, Turned, Joined, Linked, Stepped, Buried, Conserved, Enters, Exits, Did, Switches;
    l', trace, turns, locals := l, [Now(s)], [], [l];
    ghost var dead := {};
    NobodyGone(s.place.Keys, s.use, s.nextId);
    StartLinked(Now(s));
    for i := 0 to |ops|
      invariant s.Valid() && LocalsOk(s, l') && Linked(trace, turns) && |turns| == i < |trace|
      invariant trace[0] == old(Now(s)) && trace[i] == Now(s)
      invariant |locals| == |trace| == i + 1 && locals[0] == l && locals[i] == l'
      invariant forall k | 0 <= k < i :: Did(ops[k], locals[k], trace[k], locals[k + 1], trace[k + 1])
      invariant forall k | 0 <= k < i :: turns[k] == Switches(ops[k], trace[k])
      invariant dead == Exited(trace, turns, ops[..i]) && Buried(s.place.Keys, s.use, s.nextId, dead)
      invariant Conserved(old(s.place.Keys), Entered(trace, ops[..i]), s.place.Keys, dead)
    {
      var turned;
      ghost var a := Now(s);
      l', turned := RunOne(s, ops[i], l', dead);
      LinkedMore(trace, turns, Now(s), turned);
      ConservedNext(old(s.place.Keys), Entered(trace, ops[..i]), dead, ops[i], turned, a, Now(s));
      CountMore(trace, turns, ops, i, Now(s), turned);
      dead := dead + Exits(ops[i], turned, a);
      trace, turns, locals := trace + [Now(s)], turns + [turned], locals + [l'];
    }
    assert ops[..|ops|] == ops;
  }

  lemma NobodyGone(threads: set<Thread>, use: map<nat, SlotUse>, nextId: nat)
    ensures Buried(threads, use, nextId, {}) && Conserved(threads, {}, threads, {})
  {
  }

  lemma StartLinked(m: Moment)
    ensures Linked([m], [])
  {
  }

  lemma {:induction false} CountFrame(trace: seq<Moment>, turns: seq<bool>, ops: seq<Op>, m: Moment, turned: bool)
    requires |ops| <= |turns| && |ops| < |trace|
    ensures Entered(trace + [m], ops) == Entered(trace, ops)
    ensures Exited(trace + [m], turns + [turned], ops) == Exited(trace, turns, ops)
    decreases |ops|
  {
    if ops != [] {
      CountFrame(trace, turns, ops[..|ops| - 1], m, turned);
    }
  }

  /** One more step adds whom it queues and whom it ends. */
  lemma CountMore(trace: seq<Moment>, turns: seq<bool>, ops: seq<Op>, i: nat, m: Moment, turned: bool)
    requires |turns| == i < |ops| && |trace| == i + 1
    ensures Entered(trace + [m], ops[..i + 1]) == Entered(trace, ops[..i]) + Enters(ops[i], trace[i], m)
    ensures Exited(trace + [m], turns + [turned], ops[..i + 1])
            == Exited(trace, turns, ops[..i]) + Exits(ops[i], turned, trace[i])
  {
    hide Enters, Exits;
    assert ops[..i + 1][..i] == ops[..i];
    CountFrame(trace, turns, ops[..i], m, turned);
  }

  lemma LinkedMore(trace: seq<Moment>, turns: seq<bool>, m: Moment, turned: bool)
    requires Linked(trace, turns)
    requires if turned then Turned(trace[|turns|], m) else Joined(trace[|turns|], m)
    ensures Linked(trace + [m], turns + [turned])
  {
  }

  /** A thread that has gone to sleep runs, or is ready to run, only once its deadline has passed. */
  lemma SleepLaw(s: Scheduler, t: Thread)
    requires s.Valid() && t in s.until && (s.current == Some(t) || t in s.ready)
    ensures s.until[t] <= s.clock
  {
  }

  /** Uptime, from the tick count, never goes back. */
  lemma UptimeMonotone(ticks: nat, later: nat, hz: nat)
    requires ticks <= later && hz > 0
    ensures ticks * 1000 / hz <= later * 1000 / hz
  {
    var a, b := ticks * 1000, later * 1000;
    assert a == a / hz * hz + a % hz;
    assert b == b / hz * hz + b % hz;
    Grows(b / hz + 1, a / hz, hz);
  }

  lemma Grows(x: nat, y: nat, h: nat)
    ensures x <= y ==> x * h <= y * h
  {
  }
}
