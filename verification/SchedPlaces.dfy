/** Where each thread of the scheduler is, and what moving one thread does to all the collections. */
module SchedPlaces {
  import opened Wrappers

  /** A thread by what never changes about it. `slot` is its kernel stack, `aspace` the root of its page tables. */
  datatype Thread = Thread(id: nat, slot: Option<nat>, isIdle: bool, aspace: Option<nat>)

  datatype Sleeper = Sleeper(thread: Thread, wakeAt: nat)

  datatype Where = AtCurrent | InReady | InSleeping | InIdleSlot | InZombies | InQueue(q: nat) | InHand

  type Places = map<Thread, Where>

  /** The scheduler's collections. */
  datatype View = View(current: Option<Thread>, ready: seq<Thread>, sleeping: seq<Sleeper>, idle: Option<Thread>,
                       zombies: seq<Thread>, queues: map<nat, seq<Thread>>)

  function Q(queues: map<nat, seq<Thread>>, q: nat): seq<Thread> { if q in queues then queues[q] else [] }

  function Threads(s: seq<Sleeper>): seq<Thread> { seq(|s|, i requires 0 <= i < |s| => s[i].thread) }

  ghost predicate NoDup(s: seq<Thread>) { forall i, j | 0 <= i < j < |s| :: s[i] != s[j] }

  /** `s` holds exactly the threads at `w`, each once. */
  ghost predicate Here(place: Places, w: Where, s: seq<Thread>)
  {
    NoDup(s) && forall t :: t in s <==> t in place && place[t] == w
  }

  ghost predicate HereOne(place: Places, w: Where, o: Option<Thread>)
  {
    forall t :: o == Some(t) <==> t in place && place[t] == w
  }

  ghost predicate PlacesOk(place: Places, v: View)
  {
    && HereOne(place, AtCurrent, v.current)
    && Here(place, InReady, v.ready)
    && Here(place, InSleeping, Threads(v.sleeping))
    && HereOne(place, InIdleSlot, v.idle)
    && Here(place, InZombies, v.zombies)
    && (forall q :: Here(place, InQueue(q), Q(v.queues, q)))
  }

  // -------------------------------------------------------------- one moves

  /** A thread that moves between two other places leaves this one alone. */
  lemma Elsewhere(place: Places, t: Thread, to: Where, w: Where, s: seq<Thread>)
    requires Here(place, w, s) && to != w && (t in place ==> place[t] != w)
    ensures Here(place[t := to], w, s)
  {
  }

  lemma ElsewhereOne(place: Places, t: Thread, to: Where, w: Where, o: Option<Thread>)
    requires HereOne(place, w, o) && to != w && (t in place ==> place[t] != w)
    ensures HereOne(place[t := to], w, o)
  {
  }

  lemma Arrives(place: Places, t: Thread, w: Where, s: seq<Thread>)
    requires Here(place, w, s) && (t in place ==> place[t] != w)
    ensures Here(place[t := w], w, s + [t])
  {
  }

  lemma ArrivesOne(place: Places, t: Thread, w: Where)
    requires HereOne(place, w, None)
    ensures HereOne(place[t := w], w, Some(t))
  {
  }

  lemma LeavesFirst(place: Places, w: Where, s: seq<Thread>, to: Where)
    requires Here(place, w, s) && s != [] && to != w
    ensures Here(place[s[0] := to], w, s[1..])
  {
  }

  lemma LeavesOne(place: Places, w: Where, t: Thread, to: Where)
    requires HereOne(place, w, Some(t)) && to != w
    ensures HereOne(place[t := to], w, None)
  {
  }

  /** `swap_remove(i)`: the last entry takes the place of entry `i`. */
  function SwapRemove<T>(s: seq<T>, i: nat): (r: seq<T>)
    requires i < |s|
    ensures |r| == |s| - 1
  {
    if i == |s| - 1 then s[..i] else s[i := s[|s| - 1]][..|s| - 1]
  }

  lemma SwapRemoveHas(s: seq<Sleeper>, i: nat)
    requires i < |s|
    ensures multiset(s) == multiset(SwapRemove(s, i)) + multiset{s[i]}
  {
    var n := |s| - 1;
    assert s == s[..n] + [s[n]];
    if i < n {
      var u := s[i := s[n]];
      assert multiset(u) == multiset(s) - multiset{s[i]} + multiset{s[n]};
      assert u == u[..n] + [s[n]];
    }
  }

  lemma SwapRemoveThreads(s: seq<Sleeper>, i: nat)
    requires i < |s|
    ensures Threads(SwapRemove(s, i)) == SwapRemove(Threads(s), i)
  {
  }

  lemma SwapRemoveLeft(s: seq<Thread>, i: nat, x: Thread)
    requires i < |s| && NoDup(s)
    ensures x in SwapRemove(s, i) <==> x in s && x != s[i]
  {
  }

  lemma LeavesAt(place: Places, w: Where, s: seq<Thread>, i: nat, to: Where)
    requires Here(place, w, s) && i < |s| && to != w
    ensures Here(place[s[i] := to], w, SwapRemove(s, i))
  {
    var u := SwapRemove(s, i);
    forall x ensures x in u <==> x in place[s[i] := to] && place[s[i] := to][x] == w {
      assert x in s <==> x in place && place[x] == w;
      SwapRemoveLeft(s, i, x);
    }
  }

  // ------------------------------------------------------- the scheduler's moves

  /** All queues but the one that `t` leaves or joins. */
  lemma QueuesElsewhere(place: Places, v: View, t: Thread, to: Where)
    requires PlacesOk(place, v) && !to.InQueue? && (t in place ==> !place[t].InQueue?)
    ensures forall q :: Here(place[t := to], InQueue(q), Q(v.queues, q))
  {
  }

  /** A due sleeper becomes ready. */
  lemma MoveWake(place: Places, v: View, i: nat)
    requires PlacesOk(place, v) && i < |v.sleeping|
    ensures var t := v.sleeping[i].thread;
            && t in place && place[t] == InSleeping
            && PlacesOk(place[t := InReady], v.(sleeping := SwapRemove(v.sleeping, i), ready := v.ready + [t]))
  {
    var t := v.sleeping[i].thread;
    assert Threads(v.sleeping)[i] == t;
    assert t in Threads(v.sleeping);
    hide Here, HereOne;
    SwapRemoveThreads(v.sleeping, i);
    LeavesAt(place, InSleeping, Threads(v.sleeping), i, InReady);
    Arrives(place, t, InReady, v.ready);
    ElsewhereOne(place, t, InReady, AtCurrent, v.current);
    ElsewhereOne(place, t, InReady, InIdleSlot, v.idle);
    Elsewhere(place, t, InReady, InZombies, v.zombies);
    QueuesElsewhere(place, v, t, InReady);
  }

  /** The current thread goes to the end of the ready queue. */
  lemma MoveYield(place: Places, v: View)
    requires PlacesOk(place, v) && v.current.Some?
    ensures PlacesOk(place[v.current.value := InReady], v.(current := None, ready := v.ready + [v.current.value]))
  {
    var t := v.current.value;
    assert v.current == Some(t);
    assert t in place && place[t] == AtCurrent;
    hide Here, HereOne;
    LeavesOne(place, AtCurrent, t, InReady);
    Arrives(place, t, InReady, v.ready);
    Elsewhere(place, t, InReady, InSleeping, Threads(v.sleeping));
    ElsewhereOne(place, t, InReady, InIdleSlot, v.idle);
    Elsewhere(place, t, InReady, InZombies, v.zombies);
    QueuesElsewhere(place, v, t, InReady);
  }

  lemma MoveRest(place: Places, v: View)
    requires PlacesOk(place, v) && v.current.Some? && v.idle == None
    ensures PlacesOk(place[v.current.value := InIdleSlot], v.(current := None, idle := v.current))
  {
    var t := v.current.value;
    assert v.current == Some(t);
    assert t in place && place[t] == AtCurrent;
    hide Here, HereOne;
    LeavesOne(place, AtCurrent, t, InIdleSlot);
    ArrivesOne(place, t, InIdleSlot);
    Elsewhere(place, t, InIdleSlot, InReady, v.ready);
    Elsewhere(place, t, InIdleSlot, InSleeping, Threads(v.sleeping));
    Elsewhere(place, t, InIdleSlot, InZombies, v.zombies);
    QueuesElsewhere(place, v, t, InIdleSlot);
  }

  lemma MoveSleep(place: Places, v: View, wakeAt: nat)
    requires PlacesOk(place, v) && v.current.Some?
    ensures PlacesOk(place[v.current.value := InSleeping],
            v.(current := None, sleeping := v.sleeping + [Sleeper(v.current.value, wakeAt)]))
  {
    var t := v.current.value;
    assert v.current == Some(t);
    assert t in place && place[t] == AtCurrent;
    assert Threads(v.sleeping + [Sleeper(t, wakeAt)]) == Threads(v.sleeping) + [t];
    hide Here, HereOne;
    LeavesOne(place, AtCurrent, t, InSleeping);
    Arrives(place, t, InSleeping, Threads(v.sleeping));
    Elsewhere(place, t, InSleeping, InReady, v.ready);
    ElsewhereOne(place, t, InSleeping, InIdleSlot, v.idle);
    Elsewhere(place, t, InSleeping, InZombies, v.zombies);
    QueuesElsewhere(place, v, t, InSleeping);
  }

  lemma MoveExit(place: Places, v: View)
    requires PlacesOk(place, v) && v.current.Some?
    ensures PlacesOk(place[v.current.value := InZombies], v.(current := None, zombies := v.zombies + [v.current.value]))
  {
    var t := v.current.value;
    assert v.current == Some(t);
    assert t in place && place[t] == AtCurrent;
    hide Here, HereOne;
    LeavesOne(place, AtCurrent, t, InZombies);
    Arrives(place, t, InZombies, v.zombies);
    Elsewhere(place, t, InZombies, InReady, v.ready);
    Elsewhere(place, t, InZombies, InSleeping, Threads(v.sleeping));
    ElsewhereOne(place, t, InZombies, InIdleSlot, v.idle);
    QueuesElsewhere(place, v, t, InZombies);
  }

  lemma MoveBlock(place: Places, v: View, q: nat)
    requires PlacesOk(place, v) && v.current.Some?
    ensures PlacesOk(place[v.current.value := InQueue(q)],
            v.(current := None, queues := v.queues[q := Q(v.queues, q) + [v.current.value]]))
  {
    var t := v.current.value;
    assert v.current == Some(t);
    assert t in place && place[t] == AtCurrent;
    hide Here, HereOne;
    LeavesOne(place, AtCurrent, t, InQueue(q));
    Elsewhere(place, t, InQueue(q), InReady, v.ready);
    Elsewhere(place, t, InQueue(q), InSleeping, Threads(v.sleeping));
    ElsewhereOne(place, t, InQueue(q), InIdleSlot, v.idle);
    Elsewhere(place, t, InQueue(q), InZombies, v.zombies);
    var queues := v.queues[q := Q(v.queues, q) + [t]];
    forall p ensures Here(place[t := InQueue(q)], InQueue(p), Q(queues, p)) {
      if p == q {
        Arrives(place, t, InQueue(q), Q(v.queues, q));
      } else {
        Elsewhere(place, t, InQueue(q), InQueue(p), Q(v.queues, p));
      }
    }
  }

  /** The first ready thread becomes current. */
  lemma MoveRun(place: Places, v: View)
    requires PlacesOk(place, v) && v.current == None && v.ready != []
    ensures PlacesOk(place[v.ready[0] := AtCurrent], v.(current := Some(v.ready[0]), ready := v.ready[1..]))
    ensures v.ready[0] in place && place[v.ready[0]] == InReady
  {
    var t := v.ready[0];
    assert t in v.ready;
    hide Here, HereOne;
    ArrivesOne(place, t, AtCurrent);
    LeavesFirst(place, InReady, v.ready, AtCurrent);
    Elsewhere(place, t, AtCurrent, InSleeping, Threads(v.sleeping));
    ElsewhereOne(place, t, AtCurrent, InIdleSlot, v.idle);
    Elsewhere(place, t, AtCurrent, InZombies, v.zombies);
    QueuesElsewhere(place, v, t, AtCurrent);
  }

  lemma MoveRunIdle(place: Places, v: View)
    requires PlacesOk(place, v) && v.current == None && v.idle.Some?
    ensures PlacesOk(place[v.idle.value := AtCurrent], v.(current := v.idle, idle := None))
    ensures v.idle.value in place && place[v.idle.value] == InIdleSlot
  {
  }

  /** A new thread, or one in a waker's hand, becomes ready. */
  lemma MoveQueue(place: Places, v: View, t: Thread)
    requires PlacesOk(place, v) && (t !in place || place[t] == InHand)
    ensures PlacesOk(place[t := InReady], v.(ready := v.ready + [t]))
  {
    hide Here, HereOne;
    Arrives(place, t, InReady, v.ready);
    ElsewhereOne(place, t, InReady, AtCurrent, v.current);
    Elsewhere(place, t, InReady, InSleeping, Threads(v.sleeping));
    ElsewhereOne(place, t, InReady, InIdleSlot, v.idle);
    Elsewhere(place, t, InReady, InZombies, v.zombies);
    QueuesElsewhere(place, v, t, InReady);
  }

  /** The first waiter of a queue comes into its waker's hand. */
  lemma MoveTake(place: Places, v: View, q: nat)
    requires PlacesOk(place, v) && Q(v.queues, q) != []
    ensures var t := Q(v.queues, q)[0];
            && t in place && place[t] == InQueue(q)
            && PlacesOk(place[t := InHand], v.(queues := v.queues[q := Q(v.queues, q)[1..]]))
  {
    var t := Q(v.queues, q)[0];
    assert Here(place, InQueue(q), Q(v.queues, q));
    assert t in Q(v.queues, q);
    hide Here, HereOne;
    ElsewhereOne(place, t, InHand, AtCurrent, v.current);
    Elsewhere(place, t, InHand, InReady, v.ready);
    Elsewhere(place, t, InHand, InSleeping, Threads(v.sleeping));
    ElsewhereOne(place, t, InHand, InIdleSlot, v.idle);
    Elsewhere(place, t, InHand, InZombies, v.zombies);
    var queues := v.queues[q := Q(v.queues, q)[1..]];
    forall p ensures Here(place[t := InHand], InQueue(p), Q(queues, p)) {
      if p == q {
        LeavesFirst(place, InQueue(q), Q(v.queues, q), InHand);
      } else {
        Elsewhere(place, t, InHand, InQueue(p), Q(v.queues, p));
      }
    }
  }

  /** A reaped thread is nowhere any more. */
  lemma MoveAway(place: Places, v: View)
    requires PlacesOk(place, v) && v.zombies != []
    ensures PlacesOk(place - {v.zombies[0]}, v.(zombies := v.zombies[1..]))
    ensures v.zombies[0] in place && place[v.zombies[0]] == InZombies
  {
  }
}
