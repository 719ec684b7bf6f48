/** The keyboard's window of report reads: eight buffers posted on a transfer ring, read back in order. */
module UsbKeyboards {
  import opened Wrappers
  import opened XhciRings

  const DEPTH: nat := 8

  type Report = seq<nat>

  /** An event on the event ring: a transfer of this keyboard completed, well or not, or something else. */
  datatype Event = Transfer(ok: bool) | OtherEvent

  /** How many of the events are transfers of this keyboard. */
  function Transfers(events: seq<Event>): nat
  {
    if events == [] then 0 else Transfers(events[..|events| - 1]) + (if events[|events| - 1].Transfer? then 1 else 0)
  }

  lemma TransfersNext(events: seq<Event>, n: nat)
    requires n < |events|
    ensures Transfers(events[..n + 1]) == Transfers(events[..n]) + (if events[n].Transfer? then 1 else 0)
  {
    assert events[..n + 1][..n] == events[..n];
  }

  lemma TransfersPush(events: seq<Event>, e: Event)
    ensures Transfers(events + [e]) == Transfers(events) + (if e.Transfer? then 1 else 0)
  {
  }

  lemma {:induction false} TransfersMonotone(events: seq<Event>, n: nat)
    requires n <= |events|
    ensures Transfers(events[..n]) <= Transfers(events)
    decreases |events| - n
  {
    if n == |events| {
      assert events[..n] == events;
    } else {
      TransfersNext(events, n);
      TransfersMonotone(events, n + 1);
    }
  }

  /** Transfer event number `k` says how transfer number `k` went. */
  ghost predicate Reported(events: seq<Event>, oks: seq<bool>)
  {
    && |oks| == Transfers(events)
    && forall n | 0 <= n < |events| && events[n].Transfer? ::
         Transfers(events[..n]) < |oks| && events[n].ok == oks[Transfers(events[..n])]
  }

  lemma ReportedMore(events: seq<Event>, oks: seq<bool>, e: Event)
    requires Reported(events, oks)
    ensures Reported(events + [e], if e.Transfer? then oks + [e.ok] else oks)
  {
    hide Transfers;
    var events', oks' := events + [e], if e.Transfer? then oks + [e.ok] else oks;
    TransfersPush(events, e);
    forall n | 0 <= n < |events'| && events'[n].Transfer?
      ensures Transfers(events'[..n]) < |oks'| && events'[n].ok == oks'[Transfers(events'[..n])]
    {
      assert events'[..n] == events[..n];
      if n == |events| {
        assert events[..n] == events;
      }
    }
  }

  class Keyboard {
    const ring: Ring<nat>
    const events: EventRing<Event>
    const reportPhys: seq<nat>
    var reportEnqueue: nat
    var reportDequeue: nat
    /** The report buffers, by physical address. */
    var memory: map<nat, Report>
    /** What the controller has written, report by report. */
    ghost var reports: seq<Report>
    /** ... and which of these transfers went well. */
    ghost var oks: seq<bool>
    ghost var dispatched: nat

    ghost predicate Shape()
      reads this
    {
      |reportPhys| == DEPTH && forall i, j | 0 <= i < j < DEPTH :: reportPhys[i] != reportPhys[j]
    }

    /** The reads are posted in order on the buffers in turn; reports that have yet to be dispatched are
        still in their buffers; and every report has its event. */
    ghost predicate Valid()
      reads this, ring, ring.slots, events, events.slots
    {
      && Shape() && ring.Valid() && events.Valid()
      && |ring.pushed| == dispatched + DEPTH
      && reportEnqueue == |ring.pushed| % DEPTH && reportDequeue == dispatched % DEPTH
      && (forall i | 0 <= i < |ring.pushed| :: ring.pushed[i] == reportPhys[i % DEPTH])
      && ring.taken == |reports| && dispatched <= |reports|
      && (forall i | dispatched <= i < |reports| ::
           reportPhys[i % DEPTH] in memory
           && memory[reportPhys[i % DEPTH]] == reports[i])
      && Transfers(events.produced) == |reports| && Transfers(events.produced[..events.read]) == dispatched
      && Reported(events.produced, oks)
    }

    /** Add a read for the next buffer to the transfer ring. */
    method QueueReportRead()
      requires Shape() && ring.Valid() && ring.Fits() && reportEnqueue == |ring.pushed| % DEPTH
      modifies ring, ring.slots, `reportEnqueue
      ensures ring.Valid() && ring.taken == old(ring.taken) && reportEnqueue == |ring.pushed| % DEPTH
      ensures ring.reader == old(ring.reader)
      ensures ring.pushed == old(ring.pushed) + [reportPhys[|old(ring.pushed)| % DEPTH]]
    {
      hide Written, CycleOf, ReaderAt;
      Window(|ring.pushed|);
      var buffer := reportEnqueue;
      var _ := ring.Push(reportPhys[buffer]);
      reportEnqueue := (buffer + 1) % DEPTH;
    }

    /** Post the whole window. */
    constructor (reportPhys: seq<nat>, ringPhys: nat)
      requires |reportPhys| == DEPTH && forall i, j | 0 <= i < j < DEPTH :: reportPhys[i] != reportPhys[j]
      ensures Valid() && fresh(ring) && fresh(ring.slots) && fresh(events) && fresh(events.slots) && dispatched == 0
    {
      this.reportPhys := reportPhys;
      ring := new Ring<nat>(ringPhys);
      events := new EventRing<Event>();
      reportEnqueue, reportDequeue, memory := 0, 0, map[];
      reports, oks, dispatched := [], [], 0;
      new;
      hide Written, CycleOf, ReaderAt;
      PostWindow();
    }

    /** Post a read for every buffer. */
    method PostWindow()
      requires Shape() && ring.Valid() && ring.taken == 0 && ring.pushed == [] && reportEnqueue == 0
      modifies ring, ring.slots, `reportEnqueue
      ensures ring.Valid() && ring.taken == 0 && |ring.pushed| == DEPTH && reportEnqueue == 0
      ensures forall i | 0 <= i < DEPTH :: ring.pushed[i] == reportPhys[i]
    {
      hide Written, CycleOf, ReaderAt;
      for n := 0 to DEPTH
        invariant ring.Valid() && ring.taken == 0 && |ring.pushed| == n && reportEnqueue == n % DEPTH
        invariant forall i | 0 <= i < n :: ring.pushed[i] == reportPhys[i]
      {
        QueueReportRead();
      }
    }

    /** The controller completes the next read: it takes the entry, writes the buffer and posts one event.
        It does not while there is no room for the event, no read is posted, or it has yet to follow the
        ring's link. */
    method Complete(report: Report, ok: bool) returns (done: bool)
      requires Valid()
      modifies `memory, `reports, `oks, ring, ring.slots, events, events.slots
      ensures Valid() && dispatched == old(dispatched)
      ensures reports == if done then old(reports) + [report] else old(reports)
      ensures oks == if done then old(oks) + [ok] else old(oks)
      ensures done <==> && |old(events.produced)| < old(events.read) + RING_SIZE
                        && |old(reports)| < |old(ring.pushed)| && old(ring.reader).dequeue != LINK
      ensures events.read == old(events.read)
      ensures events.produced == if done then old(events.produced) + [Transfer(ok)] else old(events.produced)
      ensures done ==> (ring.reader.dequeue == LINK <==> |reports| % LAP == 0)
      ensures !done && |old(events.produced)| == old(events.read) + RING_SIZE ==> ring.reader == old(ring.reader)
      ensures !done && |old(events.produced)| < old(events.read) + RING_SIZE ==> ring.reader.dequeue != LINK
    {
      hide Transfers, Written, CycleOf, ReaderAt;
      events.FullIff();
      if events.Full() { return false; }
      var r := ring.Step();
      if r.None? { return false; }
      ghost var n := |reports|;
      assert r.value == reportPhys[n % DEPTH];
      memory := memory[r.value := report];
      TransfersPush(events.produced, Transfer(ok));
      ReportedMore(events.produced, oks, Transfer(ok));
      events.Produce(Transfer(ok));
      reports, oks := reports + [report], oks + [ok];
      KeepBuffers(reportPhys, old(memory), memory, old(reports), report, dispatched);
      TransfersKept(old(events.produced), Transfer(ok), events.read);
      return true;
    }

    /** The controller posts an event that is no transfer of this keyboard, if there is room. */
    method Other() returns (done: bool)
      requires Valid()
      modifies events, events.slots
      ensures Valid() && (done <==> |old(events.produced)| < old(events.read) + RING_SIZE)
      ensures events.read == old(events.read)
      ensures events.produced == if done then old(events.produced) + [OtherEvent] else old(events.produced)
      ensures ring.reader == old(ring.reader) && reports == old(reports) && oks == old(oks)
      ensures dispatched == old(dispatched)
    {
      hide Transfers, Written, CycleOf, ReaderAt;
      events.FullIff();
      if events.Full() { return false; }
      TransfersPush(events.produced, OtherEvent);
      ReportedMore(events.produced, oks, OtherEvent);
      events.Produce(OtherEvent);
      TransfersKept(old(events.produced), OtherEvent, events.read);
      return true;
    }

    /** Service one event: decode the buffer of the completed read, then post it again. */
    method PollAndDispatch() returns (decoded: Option<Report>)
      requires Valid()
      modifies `reportDequeue, `reportEnqueue, `dispatched, ring, ring.slots, events
      ensures Valid() && reports == old(reports) && oks == old(oks) && ring.reader == old(ring.reader)
      ensures events.produced == old(events.produced)
      ensures events.read == old(events.read) + if old(events.read) < |events.produced| then 1 else 0
      ensures dispatched > old(dispatched) ==> |oks| == |reports| > old(dispatched)
      ensures decoded.Some? <==> dispatched > old(dispatched) && oks[old(dispatched)]
      ensures var next := if old(events.read) < |events.produced| then Some(events.produced[old(events.read)])
              else None;
              && (dispatched == old(dispatched) + if next.Some? && next.value.Transfer? then 1 else 0)
              && (decoded.Some? <==> next == Some(Transfer(true)))
      ensures decoded.Some? ==> old(dispatched) < |reports| && decoded.value == reports[old(dispatched)]
      ensures decoded.Some? ==> NotPosted(old(ring.pushed), old(dispatched))
    {
      hide Transfers, Written, CycleOf, ReaderAt;
      decoded := None;
      var e := events.Poll();
      if e.None? { return; }
      TransfersNext(events.produced, old(events.read));
      if e.value.OtherEvent? { return; }
      TransfersMonotone(events.produced, events.read);
      Window(dispatched);
      if e.value.ok {
        decoded := Some(memory[reportPhys[reportDequeue]]);
      }
      BufferFree(reportPhys, ring.pushed, dispatched);
      reportDequeue := (reportDequeue + 1) % DEPTH;
      dispatched := dispatched + 1;
      QueueReportRead();
    }
  }

  // ----------------------------------------------------------------- runs

  /** What may happen next: the controller completes a read or posts another event, or the driver polls. */
  datatype Turn = Completes(report: Report, ok: bool) | PostsOther | Polls

  /** Those of the reports `[a, b)` whose transfers went well. */
  function Good(reports: seq<Report>, oks: seq<bool>, a: nat, b: nat): seq<Report>
    requires a <= b <= |reports| && |oks| == |reports|
    decreases b
  {
    if a == b then [] else Good(reports, oks, a, b - 1) + (if oks[b - 1] then [reports[b - 1]] else [])
  }

  lemma {:induction false} GoodPrefix(reports: seq<Report>, oks: seq<bool>, a: nat, b: nat, reports': seq<Report>,
                                      oks': seq<bool>)
    requires a <= b <= |reports| == |oks| && reports <= reports' && oks <= oks' && |oks'| == |reports'|
    ensures Good(reports', oks', a, b) == Good(reports, oks, a, b)
    decreases b
  {
    if a < b {
      GoodPrefix(reports, oks, a, b - 1, reports', oks');
    }
  }

  /** When every transfer goes well, the good reports are all of them, in order. */
  lemma {:induction false} GoodAll(reports: seq<Report>, oks: seq<bool>, a: nat, b: nat)
    requires a <= b <= |reports| == |oks| && forall i | a <= i < b :: oks[i]
    ensures Good(reports, oks, a, b) == reports[a..b]
    decreases b
  {
    if a < b {
      GoodAll(reports, oks, a, b - 1);
    }
  }

  /** What the keyboard, its ring and its events stand for: the events not yet read, the reports so far and how
      they went, how many were dispatched, and whether the controller stands before the link. */
  datatype Desk = Desk(unread: seq<Event>, reports: seq<Report>, oks: seq<bool>, dispatched: nat, atLink: bool)

  ghost function DeskOf(k: Keyboard): Desk
    reads k, k.ring, k.ring.slots, k.events, k.events.slots
    requires k.Valid()
  {
    Desk(k.events.produced[k.events.read..], k.reports, k.oks, k.dispatched, k.ring.reader.dequeue == LINK)
  }

  /** Sixteen events and eight reads are outstanding at most; a completion that finds the link only passes it. */
  function DeskStep(d: Desk, turn: Turn): Desk
  {
    match turn
    case Completes(report, ok) =>
      if |d.unread| >= 16 then d
      else if d.atLink then d.(atLink := false)
      else if |d.reports| >= d.dispatched + 8 then d
      else d.(unread := d.unread + [Transfer(ok)], reports := d.reports + [report], oks := d.oks + [ok],
              atLink := (|d.reports| + 1) % 15 == 0)
    case PostsOther => if |d.unread| >= 16 then d else d.(unread := d.unread + [OtherEvent])
    case Polls =>
      if d.unread == [] then d
      else d.(unread := d.unread[1..], dispatched := d.dispatched + (if d.unread[0].Transfer? then 1 else 0))
  }

  function DeskRun(d: Desk, turns: seq<Turn>): Desk
  {
    if turns == [] then d else DeskStep(DeskRun(d, turns[..|turns| - 1]), turns[|turns| - 1])
  }

  /** One turn. */
  method Take(k: Keyboard, turn: Turn) returns (decoded: seq<Report>)
    requires k.Valid()
    modifies k, k.ring, k.ring.slots, k.events, k.events.slots
    ensures k.Valid() && DeskOf(k) == DeskStep(old(DeskOf(k)), turn)
    ensures old(k.reports) <= k.reports && old(k.oks) <= k.oks && |k.oks| == |k.reports|
    ensures old(k.dispatched) <= k.dispatched <= old(k.dispatched) + 1 && k.dispatched <= |k.reports|
    ensures decoded ==
              if k.dispatched > old(k.dispatched) && k.oks[old(k.dispatched)] then [k.reports[old(k.dispatched)]]
              else []
  {
    hide Transfers, Written, CycleOf, ReaderAt, Reported;
    decoded := [];
    ghost var d, all := DeskOf(k), k.events.produced;
    Counted(k);
    match turn {
      case Completes(report, ok) =>
        var done := k.Complete(report, ok);
        assert done ==> (all + [Transfer(ok)])[k.events.read..] == d.unread + [Transfer(ok)];
      case PostsOther =>
        var done := k.Other();
        assert done ==> (all + [OtherEvent])[k.events.read..] == d.unread + [OtherEvent];
      case Polls =>
        var r := k.PollAndDispatch();
        assert d.unread != [] ==> all[k.events.read..] == d.unread[1..];
        if r.Some? {
          decoded := [r.value];
        }
    }
    Counted(k);
  }

  /** Any interleaving of controller and driver does what the desk does, and decodes the reports of the good
      transfers, in order, each once, as far as the driver has got. */
  method Run(k: Keyboard, turns: seq<Turn>) returns (decoded: seq<Report>)
    requires k.Valid()
    modifies k, k.ring, k.ring.slots, k.events, k.events.slots
    ensures k.Valid() && DeskOf(k) == DeskRun(old(DeskOf(k)), turns)
    ensures old(k.reports) <= k.reports && old(k.oks) <= k.oks
    ensures old(k.dispatched) <= k.dispatched <= |k.reports| == |k.oks|
    ensures decoded == Good(k.reports, k.oks, old(k.dispatched), k.dispatched)
  {
    hide Transfers, Written, CycleOf, ReaderAt, Reported, Good, DeskOf, DeskStep;
    decoded := [];
    Counted(k);
    GoodNone(k.reports, k.oks, k.dispatched);
    for i := 0 to |turns|
      invariant k.Valid() && DeskOf(k) == DeskRun(old(DeskOf(k)), turns[..i])
      invariant old(k.reports) <= k.reports && old(k.oks) <= k.oks
      invariant old(k.dispatched) <= k.dispatched <= |k.reports| == |k.oks|
      invariant decoded == Good(k.reports, k.oks, old(k.dispatched), k.dispatched)
    {
      ghost var reports, oks, d := k.reports, k.oks, k.dispatched;
      assert turns[..i + 1][..i] == turns[..i];
      var more := Take(k, turns[i]);
      decoded := decoded + more;
      GoodPrefix(reports, oks, old(k.dispatched), d, k.reports, k.oks);
      GoodNext(k.reports, k.oks, old(k.dispatched), k.dispatched);
    }
    assert turns[..|turns|] == turns;
  }

  lemma Counted(k: Keyboard)
    requires k.Valid()
    ensures k.dispatched <= |k.reports| == |k.oks|
  {
  }

  lemma GoodNone(reports: seq<Report>, oks: seq<bool>, a: nat)
    requires a <= |reports| == |oks|
    ensures Good(reports, oks, a, a) == []
  {
  }

  lemma GoodNext(reports: seq<Report>, oks: seq<bool>, a: nat, b: nat)
    requires a <= b <= |reports| == |oks|
    ensures a < b ==> Good(reports, oks, a, b) == Good(reports, oks, a, b - 1) + (if oks[b - 1] then [reports[b - 1]]
            else [])
  {
  }

  /** The buffer of read number `d` is not posted for any later read. */
  ghost predicate NotPosted(pushed: seq<nat>, d: nat)
  {
    d < |pushed| && forall i | d < i < |pushed| :: pushed[i] != pushed[d]
  }

  lemma BufferFree(phys: seq<nat>, pushed: seq<nat>, d: nat)
    requires |phys| == DEPTH && (forall i, j | 0 <= i < j < DEPTH :: phys[i] != phys[j])
    requires |pushed| == d + DEPTH && forall i | 0 <= i < |pushed| :: pushed[i] == phys[i % DEPTH]
    ensures NotPosted(pushed, d)
  {
  }

  /** Writing one more buffer leaves those that have yet to be dispatched. */
  lemma KeepBuffers(phys: seq<nat>, memory: map<nat, Report>, memory': map<nat, Report>, reports: seq<Report>,
                    report: Report, d: nat)
    requires |phys| == DEPTH && (forall i, j | 0 <= i < j < DEPTH :: phys[i] != phys[j])
    requires d <= |reports| < d + DEPTH && memory' == memory[phys[|reports| % DEPTH] := report]
    requires forall i | d <= i < |reports| :: phys[i % DEPTH] in memory && memory[phys[i % DEPTH]] == reports[i]
    ensures forall i | d <= i < |reports| + 1 ::
              phys[i % DEPTH] in memory'
              && memory'[phys[i % DEPTH]] == (reports + [report])[i]
  {
  }

  lemma TransfersKept(events: seq<Event>, e: Event, n: nat)
    requires n <= |events|
    ensures Transfers((events + [e])[..n]) == Transfers(events[..n])
  {
    assert (events + [e])[..n] == events[..n];
  }

  lemma Window(d: nat)
    ensures (d + DEPTH) % DEPTH == d % DEPTH && (d + 1) % DEPTH == (d % DEPTH + 1) % DEPTH
  {
  }
}
