/** The producer and consumer rings of the USB driver (xHCI specification, section 4.9). */
module XhciRings {
  import opened Wrappers

  const RING_SIZE: nat := 16
  /** Entries a lap on a ring whose last slot is a link. */
  const LAP: nat := 15
  const LINK: nat := 15

  /** A transfer request block by what the protocol needs: its content and its cycle bit. */
  datatype Trb<T> = Trb(payload: Option<T>, cycle: bool)

  // ------------------------------------------------------------ laps and slots

  /** The two kinds of rings: fifteen entries a lap with a link, sixteen without. */
  predicate Size(n: nat) { n == LAP || n == RING_SIZE }

  /** Cycle bit of entry number `n`: set on the first lap, then alternating. */
  function CycleOf(n: nat, size: nat): bool
    requires Size(size)
  {
    n / size % 2 == 0
  }

  /** Which entry slot `i` holds after `p` pushes: the last one with that remainder, if any. */
  function LastIn(i: nat, p: nat, size: nat): Option<nat>
    requires i < size
  {
    if p <= i then None else Some((p - 1 - i) / size * size + i)
  }

  lemma LastInBounds(i: nat, p: nat, size: nat)
    requires Size(size) && i < size
    ensures var n := LastIn(i, p, size);
            (n.Some? ==> n.value < p <= n.value + size && n.value % size == i) && (n.None? ==> p <= i)
  {
  }

  /** Pushing entry `p` changes only its own slot. */
  lemma LastInNext(i: nat, p: nat, size: nat)
    requires Size(size) && i < size
    ensures LastIn(i, p + 1, size) == if i == p % size then Some(p) else LastIn(i, p, size)
  {
    if size == LAP {
      LastInParts15(i, p);
    } else {
      LastInParts16(i, p);
    }
  }

  lemma LastInParts15(i: nat, p: nat)
    requires i < 15
    ensures p >= i ==> (p - i) / 15 * 15 + i == if i == p % 15 then p else if p > i then (p - 1 - i) / 15 * 15 + i
            else i
    ensures p == i ==> p % 15 == i
  {
  }

  lemma LastInParts16(i: nat, p: nat)
    requires i < 16
    ensures p >= i ==> (p - i) / 16 * 16 + i == if i == p % 16 then p else if p > i then (p - 1 - i) / 16 * 16 + i
            else i
    ensures p == i ==> p % 16 == i
  {
  }

  /** What a lap and a step do to cycle bit and slot. */
  ghost predicate Turns(n: nat, size: nat)
    requires Size(size)
  {
    && CycleOf(n + size, size) == !CycleOf(n, size) && (n + size) % size == n % size
    && CycleOf(n + 1, size) == (if n % size == size - 1 then !CycleOf(n, size) else CycleOf(n, size))
    && (n + 1) % size == if n % size == size - 1 then 0 else n % size + 1
  }

  lemma Turns15(n: nat)
    ensures Turns(n, 15)
  {
  }

  lemma Turns16(n: nat)
    ensures Turns(n, 16)
  {
  }

  lemma CycleFlips(n: nat, size: nat)
    requires Size(size)
    ensures Turns(n, size)
  {
    hide Turns;
    if size == LAP {
      Turns15(n);
    } else {
      Turns16(n);
    }
  }

  lemma FirstLap(c: nat, size: nat)
    requires Size(size) && c < size
    ensures CycleOf(c, size) && c % size == c
  {
  }

  lemma SameSlot(c: nat, p: nat, size: nat)
    requires Size(size) && c < p <= c + size
    ensures LastIn(c % size, p, size) == Some(c)
  {
  }

  lemma SameBefore(c: nat, n: nat, size: nat)
    requires Size(size) && n < c <= n + size && n % size == c % size
    ensures c == n + size
  {
  }

  /** The slots after the entries `pushed`. */
  ghost predicate Written<T(!new)>(slots: seq<Trb<T>>, pushed: seq<T>, size: nat)
    requires Size(size)
  {
    |slots| == RING_SIZE && forall i | 0 <= i < size :: slots[i] == Entry(pushed, LastIn(i, |pushed|, size), size)
  }

  function Entry<T>(pushed: seq<T>, n: Option<nat>, size: nat): Trb<T>
    requires Size(size)
  {
    if n.Some? && n.value < |pushed| then Trb(Some(pushed[n.value]), CycleOf(n.value, size)) else Trb(None, false)
  }

  /** The slot the consumer looks at holds the next entry or, if there is none, shows the other cycle bit. */
  lemma NextSlot<T(!new)>(slots: seq<Trb<T>>, pushed: seq<T>, c: nat, size: nat)
    requires Size(size) && Written(slots, pushed, size) && c <= |pushed| <= c + size
    ensures c % size < RING_SIZE
    ensures c < |pushed| ==> slots[c % size] == Trb(Some(pushed[c]), CycleOf(c, size))
    ensures c == |pushed| ==> slots[c % size].cycle != CycleOf(c, size)
  {
    hide CycleOf, LastIn;
    var i := c % size;
    LastInBounds(i, |pushed|, size);
    var n := LastIn(i, |pushed|, size);
    assert slots[i] == Entry(pushed, n, size);
    if c < |pushed| {
      SameSlot(c, |pushed|, size);
    } else if n.Some? {
      CycleFlips(n.value, size);
      SameBefore(c, n.value, size);
    } else {
      SmallMod(c, size);
      FirstLap(c, size);
    }
  }

  lemma SmallMod(c: nat, size: nat)
    requires Size(size) && c <= c % size
    ensures c < size
  {
  }

  lemma WrittenPush<T(!new)>(slots: seq<Trb<T>>, slots': seq<Trb<T>>, pushed: seq<T>, t: T, size: nat)
    requires Size(size) && Written(slots, pushed, size) && |slots'| == RING_SIZE
    requires forall i | 0 <= i < size :: slots'[i] == if i == |pushed| % size then Trb(Some(t), CycleOf(|pushed|, size))
             else slots[i]
    ensures Written(slots', pushed + [t], size)
  {
    hide CycleOf, LastIn;
    forall i | 0 <= i < size ensures slots'[i] == Entry(pushed + [t], LastIn(i, |pushed + [t]|, size), size) {
      LastInNext(i, |pushed|, size);
      LastInBounds(i, |pushed|, size);
      assert slots[i] == Entry(pushed, LastIn(i, |pushed|, size), size);
    }
  }

  // --------------------------------------------------- the ring with a link

  /** The controller's dequeue position and cycle state. */
  datatype Reader = Reader(dequeue: nat, cycle: bool)

  /** Where the controller is after `c` entries: behind the last one, or still before the link. */
  ghost predicate ReaderAt(r: Reader, c: nat)
  {
    if r.dequeue == LINK then c > 0 && c % LAP == 0 && r.cycle == CycleOf(c - 1, LAP)
    else r.dequeue == c % LAP && r.cycle == CycleOf(c, LAP)
  }

  /** A command or transfer ring: fifteen entries and a link back to the first. */
  class Ring<T(!new)> {
    const slots: array<Trb<T>>
    const phys: nat
    var enqueue: nat
    var cycle: bool
    var reader: Reader
    ghost var pushed: seq<T>
    ghost var taken: nat

    ghost predicate Valid()
      reads this, slots
    {
      && slots.Length == RING_SIZE && Written(slots[..], pushed, LAP)
      && enqueue == |pushed| % LAP && cycle == CycleOf(|pushed|, LAP)
      && taken <= |pushed| <= taken + LAP && ReaderAt(reader, taken)
      && (reader.dequeue == LINK ==> |pushed| < taken + LAP)
      && (|pushed| >= LAP ==> slots[LINK].cycle == !CycleOf(|pushed|, LAP))
    }

    /** One more entry fits: it overwrites nothing that is still to be read, and does not turn the link's
        cycle bit while the controller is waiting before it. */
    ghost predicate Fits()
      reads this
    {
      |pushed| < taken + LAP && (reader.dequeue == LINK ==> |pushed| + 1 < taken + LAP)
    }

    constructor (phys: nat)
      ensures Valid() && fresh(slots) && pushed == [] && taken == 0 && this.phys == phys
    {
      slots := new Trb<T>[RING_SIZE](i => Trb(None, i == LINK));
      this.phys := phys;
      enqueue, cycle := 0, true;
      reader := Reader(0, true);
      pushed, taken := [], 0;
      new;
      assert forall i | 0 <= i < LAP :: slots[..][i] == Trb(None, false);
    }

    /** Write one entry and advance, following the link and turning the cycle when the ring wraps. The ring
        stays in order exactly when there was room. */
    method Push(t: T) returns (address: nat)
      requires Valid()
      modifies this, slots
      ensures Valid() <==> old(Fits())
      ensures pushed == old(pushed) + [t] && taken == old(taken) && reader == old(reader)
      ensures address == phys + |old(pushed)| % LAP * 16
    {
      hide CycleOf, Written;
      address := phys + enqueue * 16;
      slots[enqueue] := Trb(Some(t), cycle);
      enqueue := enqueue + 1;
      CycleFlips(|pushed|, LAP);
      if enqueue == RING_SIZE - 1 {
        slots[LINK] := slots[LINK].(cycle := cycle);
        enqueue := 0;
        cycle := !cycle;
      }
      WrittenPush(old(slots[..]), slots[..], pushed, t, LAP);
      pushed := pushed + [t];
    }

    /** The controller looks at its slot: it follows the link, takes the next entry, or finds nothing new. */
    method Step() returns (r: Option<T>)
      requires Valid()
      modifies `reader, `taken
      ensures Valid()
      ensures r.Some? ==> taken == old(taken) + 1 && old(taken) < |pushed| && r.value == pushed[old(taken)]
      ensures r.None? ==> taken == old(taken)
      ensures old(reader).dequeue != LINK ==> (r.None? <==> old(taken) == |pushed|)
      ensures old(reader).dequeue == LINK ==> r.None? && reader.dequeue == 0
      ensures r.Some? ==> (reader.dequeue == LINK <==> taken % LAP == 0)
      ensures r.None? && old(reader).dequeue != LINK ==> reader == old(reader)
    {
      hide CycleOf, Written;
      var trb := slots[reader.dequeue];
      if reader.dequeue == LINK {
        LinkTurns(|pushed|, taken);
        if trb.cycle == reader.cycle {
          reader := Reader(0, !reader.cycle);
        }
        return None;
      }
      NextSlot(slots[..], pushed, taken, LAP);
      if trb.cycle != reader.cycle { return None; }
      CycleFlips(taken, LAP);
      r := trb.payload;
      taken := taken + 1;
      reader := Reader(reader.dequeue + 1, reader.cycle);
    }

    /** Without room, a push would overwrite an entry that the controller has yet to read ... */
    lemma Overwrites()
      requires Valid() && |pushed| == taken + LAP
      ensures slots[enqueue] == Trb(Some(pushed[taken]), CycleOf(taken, LAP))
    {
    }

    /** ... or give the link a cycle bit that the controller, waiting before it, does not expect. */
    lemma Stalls()
      requires Valid() && reader.dequeue == LINK && |pushed| + 1 == taken + LAP
      ensures enqueue == LAP - 1 && cycle != reader.cycle
    {
    }
  }

  /** What may happen next on a ring: the driver has an entry to push, or the controller looks. */
  datatype RingEvent<T> = Pushes(t: T) | Looks

  /** The queue that a ring stands for: the entries not yet taken, how many were, and whether the controller
      stands before the link. */
  datatype Queue<T> = Queue(waiting: seq<T>, taken: nat, atLink: bool)

  ghost function QueueOf<T(!new)>(ring: Ring<T>): Queue<T>
    reads ring, ring.slots
    requires ring.Valid()
  {
    Queue(ring.pushed[ring.taken..], ring.taken, ring.reader.dequeue == LINK)
  }

  /** A queue of fifteen: an entry is added while there is room, fourteen before the link, and taken from the
      front; after every fifteenth the controller spends one look on the link. */
  function QueueStep<T>(q: Queue<T>, e: RingEvent<T>): Queue<T>
  {
    match e
    case Pushes(t) => if |q.waiting| < (if q.atLink then 14 else 15) then q.(waiting := q.waiting + [t]) else q
    case Looks =>
      if q.atLink then q.(atLink := false)
      else if q.waiting == [] then q
      else Queue(q.waiting[1..], q.taken + 1, (q.taken + 1) % 15 == 0)
  }

  /** What a look takes. */
  function QueueOut<T>(q: Queue<T>, e: RingEvent<T>): seq<T>
  {
    if e.Looks? && !q.atLink && q.waiting != [] then [q.waiting[0]] else []
  }

  function QueueRun<T>(q: Queue<T>, events: seq<RingEvent<T>>): Queue<T>
  {
    if events == [] then q else QueueStep(QueueRun(q, events[..|events| - 1]), events[|events| - 1])
  }

  function QueueTaken<T>(q: Queue<T>, events: seq<RingEvent<T>>): seq<T>
  {
    if events == [] then []
    else
      var n := |events| - 1;
      QueueTaken(q, events[..n]) + QueueOut(QueueRun(q, events[..n]), events[n])
  }

  /** One event on the ring; `left` entries are not yet taken. */
  method RingTurn<T(!new)>(ring: Ring<T>, e: RingEvent<T>, left: nat) returns (more: seq<T>, out: seq<T>, left': nat)
    requires ring.Valid() && |ring.pushed| == ring.taken + left
    modifies ring, ring.slots
    ensures ring.Valid() && |ring.pushed| == ring.taken + left' && ring.pushed == old(ring.pushed) + more
    ensures QueueOf(ring) == QueueStep(old(QueueOf(ring)), e) && out == QueueOut(old(QueueOf(ring)), e)
    ensures ring.taken == old(ring.taken) + |out| && out == ring.pushed[old(ring.taken)..ring.taken]
  {
    hide Written, CycleOf, ReaderAt;
    more, out, left' := [], [], left;
    ghost var q := QueueOf(ring);
    match e {
      case Pushes(t) =>
        if left + 1 < LAP || (left < LAP && ring.reader.dequeue != LINK) {
          ghost var before, n := ring.pushed, ring.taken;
          var _ := ring.Push(t);
          assert (before + [t])[n..] == before[n..] + [t];
          more, left' := [t], left + 1;
        }
      case Looks =>
        var r := ring.Step();
        if r.Some? {
          assert ring.pushed[ring.taken..] == q.waiting[1..];
          out, left' := [r.value], left - 1;
        }
    }
  }

  /** Any interleaving of pushes and the controller's looks, with `waiting` entries not yet taken at the
      start; the driver pushes while there is room. The ring does what the queue does: the controller takes what
      was pushed, in order, each entry once. */
  method RunRing<T(!new)>(ring: Ring<T>, events: seq<RingEvent<T>>, waiting: nat)
      returns (consumed: seq<T>, accepted: seq<T>, left: nat)
    requires ring.Valid() && |ring.pushed| == ring.taken + waiting
    modifies ring, ring.slots
    ensures ring.Valid() && |ring.pushed| == ring.taken + left && ring.taken == old(ring.taken) + |consumed|
    ensures ring.pushed == old(ring.pushed) + accepted && consumed == ring.pushed[old(ring.taken)..ring.taken]
    ensures QueueOf(ring) == QueueRun(old(QueueOf(ring)), events)
    ensures consumed == QueueTaken(old(QueueOf(ring)), events)
  {
    hide Written, CycleOf, ReaderAt, QueueStep, QueueOut, QueueOf;
    consumed, accepted, left := [], [], waiting;
    for i := 0 to |events|
      invariant ring.Valid() && |ring.pushed| == ring.taken + left && ring.taken == old(ring.taken) + |consumed|
      invariant ring.pushed == old(ring.pushed) + accepted && consumed == ring.pushed[old(ring.taken)..ring.taken]
      invariant QueueOf(ring) == QueueRun(old(QueueOf(ring)), events[..i])
      invariant consumed == QueueTaken(old(QueueOf(ring)), events[..i])
    {
      assert events[..i + 1][..i] == events[..i];
      ghost var before, from := ring.pushed, ring.taken;
      var more, out;
      more, out, left := RingTurn(ring, events[i], left);
      assert (before + more)[old(ring.taken)..from] == before[old(ring.taken)..from];
      consumed, accepted := consumed + out, accepted + more;
    }
    assert events[..|events|] == events;
  }

  /** Before the link, the controller has finished a lap whose cycle the link still shows. */
  lemma LinkTurns(p: nat, c: nat)
    requires c > 0 && c % LAP == 0 && c <= p < c + LAP
    ensures p >= LAP && CycleOf(p, LAP) == CycleOf(c, LAP) && CycleOf(c, LAP) == !CycleOf(c - 1, LAP)
  {
  }

  // ------------------------------------------------------------- event ring

  /** The event ring: sixteen entries, no link; the controller writes and the driver reads. The controller
      knows from ERDP how far the driver has read. */
  class EventRing<T(!new)> {
    const slots: array<Trb<T>>
    var dequeue: nat
    var cycle: bool
    var erdp: nat
    /** The controller's side. */
    var enqueue: nat
    var producerCycle: bool
    ghost var produced: seq<T>
    ghost var read: nat

    ghost predicate Valid()
      reads this, slots
    {
      && slots.Length == RING_SIZE && Written(slots[..], produced, RING_SIZE)
      && dequeue == read % RING_SIZE && cycle == CycleOf(read, RING_SIZE) && erdp == dequeue
      && enqueue == |produced| % RING_SIZE && producerCycle == CycleOf(|produced|, RING_SIZE)
      && read <= |produced| <= read + RING_SIZE
    }

    constructor ()
      ensures Valid() && fresh(slots) && produced == [] && read == 0
    {
      slots := new Trb<T>[RING_SIZE](_ => Trb(None, false));
      dequeue, cycle, erdp, enqueue, producerCycle := 0, true, 0, 0, true;
      produced, read := [], 0;
      new;
      assert forall i | 0 <= i < RING_SIZE :: slots[..][i] == Trb(None, false);
    }

    /** No room for another event: the controller is a whole lap ahead of ERDP. */
    predicate Full()
      reads this
    {
      enqueue == erdp && producerCycle != cycle
    }

    lemma FullIff()
      requires Valid()
      ensures Full() <==> |produced| == read + RING_SIZE
    {
      hide Written;
      CycleFlips(read, RING_SIZE);
      if enqueue == erdp && read < |produced| {
        SameBefore(|produced|, read, RING_SIZE);
      }
    }

    /** The controller adds an event; it never runs past ERDP. */
    method Produce(t: T)
      requires Valid() && |produced| < read + RING_SIZE
      modifies slots, `produced, `enqueue, `producerCycle
      ensures Valid() && produced == old(produced) + [t] && read == old(read)
    {
      hide CycleOf, Written;
      slots[enqueue] := Trb(Some(t), producerCycle);
      CycleFlips(|produced|, RING_SIZE);
      enqueue := enqueue + 1;
      if enqueue == RING_SIZE {
        enqueue := 0;
        producerCycle := !producerCycle;
      }
      WrittenPush(old(slots[..]), slots[..], produced, t, RING_SIZE);
      produced := produced + [t];
    }

    /** `poll_event_ring`: the next event, if there is one. */
    method Poll() returns (r: Option<T>)
      requires Valid()
      modifies `dequeue, `cycle, `erdp, `read
      ensures Valid()
      ensures r.None? <==> old(read) == |produced|
      ensures r.None? ==> read == old(read)
      ensures r.Some? ==> read == old(read) + 1 && r.value == produced[old(read)]
    {
      hide CycleOf, Written;
      var trb := slots[dequeue];
      NextSlot(slots[..], produced, read, RING_SIZE);
      if trb.cycle != cycle { return None; }
      CycleFlips(read, RING_SIZE);
      dequeue := dequeue + 1;
      if dequeue == RING_SIZE {
        dequeue := 0;
        cycle := !cycle;
      }
      erdp := dequeue;
      read := read + 1;
      r := trb.payload;
    }
  }
}
