/** What holds in every reachable state of the whole system. */
module PipelineSafety {
  import opened EventCodec
  import opened TraceRing
  import opened RingSafety
  import RingHistory
  import opened Pipeline

  // ---------------------------------------------------------------- the invariant

  ghost function IfValid(e: Wire): seq<Wire> { if IsValidTraceEvent(e) then [e] else [] }

  /** The events that survive the reader's check, in order. */
  ghost function ValidOnly(events: seq<Wire>): seq<Wire> {
    if events == [] then [] else ValidOnly(events[..|events| - 1]) + IfValid(events[|events| - 1])
  }

  /** The event the reader thread has taken from the ring but not yet queued, if it will be queued. */
  ghost function HeldByReader(r: Ring, loop: Loop): seq<Wire> {
    match loop
    case Trying(_) => if r.reader.Advance? then IfValid(r.reader.event) else []
    case Checking(_, e) => IfValid(e)
    case Locking(_, e) => [e]
    case Sleeping(_, e) => [e]
    case _ => []
  }

  function HeldByWriter(w: Writer): seq<Wire> {
    match w
    case WriterNotifying(e) => [e]
    case Rendering(e) => [e]
    case _ => []
  }

  /** Everything past the reader thread: rendered, in the writer's hand, queued. */
  function Flow(c: Control): seq<Wire> { c.rendered + HeldByWriter(c.writer) + c.queue }

  /** Nothing valid is lost, duplicated or reordered between the ring and the output. */
  ghost predicate Refines(r: Ring, c: Control) {
    ValidOnly(r.delivered) == Flow(c) + HeldByReader(r, c.loop)
  }

  ghost predicate LoopOk(r: Ring, c: Control) {
    && (!c.loop.Trying? ==> r.reader.Out?)
    && |c.queue| <= QUEUE_CAPACITY
    && c.reported <= r.droppedEvents
  }

  /** A thread asleep on the queue has a reason, or its wake-up call is on the way. */
  predicate SleepOk(c: Control) {
    && |c.queue| <= QUEUE_CAPACITY
    && (c.loop.Sleeping? ==> |c.queue| == QUEUE_CAPACITY || c.writer.WriterNotifying?)
    && (c.writer.WriterSleeping? ==>
          (c.queue == [] && !c.readerFinished) || c.loop.Notifying? || c.loop.NotifyingAll?)
    && (c.readerFinished <==> c.loop.NotifyingAll? || c.loop.Done?)
    && (c.writer.Exited? ==> c.readerFinished && c.queue == [])
  }

  ghost predicate SomeDuty(r: Ring) { exists p :: p in r.producers && WakeDuty(r.producers[p]) }

  /** A producer that has published and not yet exchanged wakePending. */
  ghost predicate SomePublished(r: Ring) { exists p :: p in r.producers && r.producers[p].Published? }

  predicate HeadPublished(r: Ring) {
    r.slots != [] && r.Slot(r.dequeuePosition).sequence == r.dequeuePosition + 1
  }

  /** Since the reader last cleared it, a set wakePending stands for a signal given or due. */
  ghost predicate PendingOk(r: Ring) { r.wakePending ==> r.wakeSignal || SomeDuty(r) }

  /** An event published behind the reader's back is announced, or about to be. */
  ghost predicate AnnouncedOk(r: Ring, reset: bool) {
    HeadPublished(r) && r.configured ==> r.wakePending || SomePublished(r) || reset || r.wakeSignal
  }

  ghost predicate WakeOk(s: State) {
    && (s.c.loop == Trying(Raced) || s.c.loop.Waiting? ==> PendingOk(s.ring))
    && (s.c.loop.Waiting? ==> AnnouncedOk(s.ring, s.reset))
    && (s.reset ==> !s.ring.wakeSignal)
  }

  predicate Quiet(r: Ring) { forall p :: p in r.producers ==> r.producers[p].Idle? }

  predicate Leaving(loop: Loop) { loop.Finishing? || loop.NotifyingAll? || loop.Done? }

  /** What an orderly stop guarantees on the way out. */
  predicate StopOk(s: State) {
    && (s.ring.closed ==> Quiet(s.ring))
    && (s.c.stopping ==> s.c.stopSignal)
    && (s.orderly ==> s.c.stopSignal && s.ring.closed)
    && (s.c.loop.Waiting? ==> !s.c.stopping)
    && (s.c.stopping && s.orderly && (s.c.loop.Clearing? || s.c.loop == Trying(Raced)) ==>
          s.c.reported == s.ring.droppedEvents)
    && (Leaving(s.c.loop) && !s.c.waitFailed ==>
          && s.c.stopping
          && (s.orderly ==> |s.ring.delivered| == |s.ring.claims| && s.c.reported == s.ring.droppedEvents))
  }

  ghost predicate RingInv(r: Ring) { Inv(r) && RingHistory.Numbers(r) }

  ghost predicate PipeInv(s: State) {
    RingInv(s.ring) && LoopOk(s.ring, s.c) && Refines(s.ring, s.c) && SleepOk(s.c) && WakeOk(s) && StopOk(s)
  }

  // ---------------------------------------------------------------- the queue between the threads

  lemma SleepStepReader(c: Control, c': Control, o: Observation)
    requires SleepOk(c) && ReaderStep(c, c', o)
    ensures SleepOk(c')
  {
  }

  lemma SleepStepWriter(c: Control, c': Control)
    requires SleepOk(c) && WriterStep(c, c')
    ensures SleepOk(c')
  {
  }

  lemma SleepStep(s: State, s': State, a: Party)
    requires SleepOk(s.c) && Step(s, s', a)
    ensures SleepOk(s'.c)
  {
    match a
    case OfReader(o) => SleepStepReader(s.c, s'.c, o);
    case OfWriter => SleepStepWriter(s.c, s'.c);
    case _ =>
  }

  // ---------------------------------------------------------------- from the ring to the output

  lemma ValidOnlyAppend(events: seq<Wire>, e: Wire)
    ensures ValidOnly(events + [e]) == ValidOnly(events) + IfValid(e)
  {
    assert (events + [e])[..|events|] == events;
  }

  /** An event handed over by the ring goes straight into the reader's hand. */
  lemma TryHeld(r: Ring, r': Ring, c: Control, c': Control, o: Observation)
    requires c.loop.Trying? && ReaderNext(r, r')
    requires Observes(r, r', c.loop, o) && ReaderStep(c, c', o)
    ensures Flow(c') == Flow(c)
    ensures HeldByReader(r', c'.loop) ==
      if r'.reader.Advance? then IfValid(r'.reader.event) else HeldByReader(r, c.loop)
    ensures r'.reader.Advance? ==> HeldByReader(r, c.loop) == []
  {
  }

  lemma TryRefines(r: Ring, r': Ring, c: Control, c': Control, o: Observation)
    requires Refines(r, c) && c.loop.Trying?
    requires Observes(r, r', c.loop, o) && ReaderStep(c, c', o)
    ensures Refines(r', c')
  {
    TryFrame(r, r');
    TryHeld(r, r', c, c', o);
    if r'.reader.Advance? { ValidOnlyAppend(r.delivered, r'.reader.event); }
  }

  lemma TryLoop(r: Ring, r': Ring, c: Control, c': Control, o: Observation)
    requires LoopOk(r, c) && c.loop.Trying?
    requires Observes(r, r', c.loop, o) && ReaderStep(c, c', o)
    ensures LoopOk(r', c')
  {
  }

  /** Queueing an event moves it from the reader's hand to the end of the flow. */
  lemma QueueingFlow(r: Ring, c: Control, c': Control, o: Observation)
    requires c.loop.Locking? && ReaderStep(c, c', o)
    ensures Flow(c') + HeldByReader(r, c'.loop) == Flow(c) + HeldByReader(r, c.loop)
  {
  }

  lemma ReaderFlow(r: Ring, c: Control, c': Control, o: Observation)
    requires !c.loop.Trying? && !c.loop.Locking? && r.reader.Out? && ReaderStep(c, c', o)
    ensures Flow(c') == Flow(c) && HeldByReader(r, c'.loop) == HeldByReader(r, c.loop)
  {
    ReaderOnlyWakes(c, c', o);
    if c.loop.Checking? { CheckedHolds(r, c, c', o); }
  }

  /** Apart from enqueueing, the reader leaves the output alone and at most wakes the writer. */
  lemma ReaderOnlyWakes(c: Control, c': Control, o: Observation)
    requires !c.loop.Trying? && !c.loop.Locking? && ReaderStep(c, c', o)
    ensures c'.queue == c.queue && c'.rendered == c.rendered
    ensures HeldByWriter(c'.writer) == HeldByWriter(c.writer)
  {
  }

  /** A valid event is kept in hand, an invalid one counts for nothing. */
  lemma CheckedHolds(r: Ring, c: Control, c': Control, o: Observation)
    requires c.loop.Checking? && ReaderStep(c, c', o)
    ensures HeldByReader(r, c'.loop) == HeldByReader(r, c.loop)
  {
  }

  lemma WriterFlow(c: Control, c': Control)
    requires WriterStep(c, c')
    ensures Flow(c') == Flow(c)
  {
    if c.writer.WriterLocking? && c.queue != [] { assert c.queue == [c.queue[0]] + c.queue[1..]; }
  }

  lemma LoopStep(r: Ring, r': Ring, c: Control, c': Control, o: Observation)
    requires LoopOk(r, c) && !c.loop.Trying? && Observes(r, r', c.loop, o) && ReaderStep(c, c', o)
    ensures LoopOk(r', c')
    ensures r'.delivered == r.delivered && r'.reader == r.reader
  {
  }

  lemma RefinesStepReader(r: Ring, r': Ring, c: Control, c': Control, o: Observation)
    requires LoopOk(r, c) && Refines(r, c) && Observes(r, r', c.loop, o) && ReaderStep(c, c', o)
    ensures LoopOk(r', c') && Refines(r', c')
  {
    if c.loop.Trying? {
      TryRefines(r, r', c, c', o);
      TryLoop(r, r', c, c', o);
    } else {
      LoopStep(r, r', c, c', o);
      if c.loop.Locking? { QueueingFlow(r, c, c', o); } else { ReaderFlow(r, c, c', o); }
    }
  }

  lemma RefinesStepWriter(r: Ring, c: Control, c': Control)
    requires LoopOk(r, c) && Refines(r, c) && WriterStep(c, c')
    ensures LoopOk(r, c') && Refines(r, c')
  {
    WriterFlow(c, c');
  }

  lemma RefinesStepProducer(r: Ring, r': Ring, c: Control, p: Pid)
    requires LoopOk(r, c) && Refines(r, c) && ProducerNext(r, r', p)
    ensures LoopOk(r', c) && Refines(r', c)
  {
    ProducerFrame(r, r', p);
  }

  lemma RefinesStep(s: State, s': State, a: Party)
    requires LoopOk(s.ring, s.c) && Refines(s.ring, s.c) && Step(s, s', a)
    ensures LoopOk(s'.ring, s'.c) && Refines(s'.ring, s'.c)
  {
    match a
    case OfProducer(p) => RefinesStepProducer(s.ring, s'.ring, s.c, p);
    case OfReader(o) => RefinesStepReader(s.ring, s'.ring, s.c, s'.c, o);
    case OfWriter => RefinesStepWriter(s.ring, s.c, s'.c);
    case _ =>
      assert Flow(s'.c) == Flow(s.c);
      assert HeldByReader(s'.ring, s'.c.loop) == HeldByReader(s.ring, s.c.loop);
  }

  // ---------------------------------------------------------------- wake-ups

  lemma DutyKept(r: Ring, r': Ring, p: Pid, w: Pid)
    requires r'.producers == r.producers[p := r'.Producer(p)]
    requires w in r.producers && WakeDuty(r.producers[w]) && (w == p ==> WakeDuty(r'.Producer(p)))
    ensures SomeDuty(r')
  {
    assert w in r'.producers && WakeDuty(r'.producers[w]);
  }

  lemma PublishedKept(r: Ring, r': Ring, p: Pid)
    requires r'.producers == r.producers[p := r'.Producer(p)]
    requires SomePublished(r) && !r.Producer(p).Published?
    ensures SomePublished(r')
  {
    var w :| w in r.producers && r.producers[w].Published?;
    assert w in r'.producers && r'.producers[w].Published?;
  }

  lemma PendingStep(r: Ring, r': Ring, p: Pid)
    requires PendingOk(r) && ProducerNext(r, r', p)
    ensures PendingOk(r')
  {
    var pc := r.Producer(p);
    if pc.Copying? { CopyFrame(r, r', p); }
    else if pc.Published? { PublishedFrame(r, r', p); }
    else if WakeDuty(pc) { DutyFrame(r, r', p); }
    else { EarlyFrame(r, r', p); }
    if r'.wakePending && !r'.wakeSignal {
      if WakeDuty(r'.Producer(p)) {
        assert p in r'.producers && WakeDuty(r'.producers[p]);
      } else if r.wakePending {
        var w :| w in r.producers && WakeDuty(r.producers[w]);
        DutyKept(r, r', p, w);
      }
    }
  }

  lemma AnnouncedStep(r: Ring, r': Ring, p: Pid, reset: bool)
    requires Inv(r) && AnnouncedOk(r, reset) && ProducerNext(r, r', p)
    ensures AnnouncedOk(r', (reset || r.Producer(p).Resetting?) && !r'.wakeSignal)
  {
    var pc := r.Producer(p);
    if pc.Copying? {
      CopyFrame(r, r', p);
      if r'.Producer(p).Published? {
        assert p in r'.producers && r'.producers[p].Published?;
      } else if SomePublished(r) {
        PublishedKept(r, r', p);
      }
    } else if pc.Published? {
      PublishedFrame(r, r', p);
    } else if WakeDuty(pc) {
      DutyFrame(r, r', p);
      if SomePublished(r) { PublishedKept(r, r', p); }
    } else {
      EarlyFrame(r, r', p);
      if SomePublished(r) { PublishedKept(r, r', p); }
    }
  }

  /** The second look, taken after wakePending was cleared, leaves nothing published behind. */
  lemma ParkingStep(r: Ring, r': Ring, c: Control, c': Control, o: Observation)
    requires Inv(r) && c.loop == Trying(Raced) && Observes(r, r', c.loop, o) && ReaderStep(c, c', o)
    requires c'.loop.Waiting?
    ensures !HeadPublished(r') && r'.wakePending == r.wakePending
  {
    assert o.Missed? && r.reader.At?;
  }

  lemma WakeStepTrying(s: State, s': State, o: Observation)
    requires Inv(s.ring) && WakeOk(s) && s.c.loop.Trying?
    requires Observes(s.ring, s'.ring, s.c.loop, o) && ReaderStep(s.c, s'.c, o) && s'.reset == s.reset
    ensures WakeOk(s')
  {
    TryFrame(s.ring, s'.ring);
    if s.c.loop == Trying(Raced) && s'.c.loop.Waiting? { ParkingStep(s.ring, s'.ring, s.c, s'.c, o); }
  }

  lemma WakeStepElsewhere(s: State, s': State, o: Observation)
    requires WakeOk(s) && !s.c.loop.Trying?
    requires Observes(s.ring, s'.ring, s.c.loop, o) && ReaderStep(s.c, s'.c, o)
    requires s'.reset == (s.reset && !s.c.loop.Clearing?)
    ensures WakeOk(s')
  {
  }

  lemma WakeStep(s: State, s': State, a: Party)
    requires Inv(s.ring) && WakeOk(s) && StopOk(s) && Step(s, s', a)
    ensures WakeOk(s')
  {
    match a
    case OfProducer(p) =>
      if s.c.loop == Trying(Raced) || s.c.loop.Waiting? { PendingStep(s.ring, s'.ring, p); }
      if s.c.loop.Waiting? { AnnouncedStep(s.ring, s'.ring, p, s.reset); }
    case OfReader(o) =>
      if s.c.loop.Trying? { WakeStepTrying(s, s', o); } else { WakeStepElsewhere(s, s', o); }
    case _ =>
  }

  // ---------------------------------------------------------------- stopping

  /** With every producer gone, an empty look at the head means an empty ring. */
  lemma MissMeansEmpty(r: Ring)
    requires Inv(r) && Quiet(r) && r.reader.At?
    requires r.Slot(r.reader.position).sequence != r.reader.position + 1
    ensures |r.delivered| == |r.claims|
  {
    assert SlotOk(r, r.reader.position);
  }

  lemma StopStepTrying(s: State, s': State, o: Observation)
    requires Inv(s.ring) && StopOk(s) && s.c.loop.Trying?
    requires Observes(s.ring, s'.ring, s.c.loop, o) && ReaderStep(s.c, s'.c, o) && s'.orderly == s.orderly
    ensures StopOk(s')
  {
    TryFrame(s.ring, s'.ring);
    if o.Missed? && s.ring.closed { MissMeansEmpty(s.ring); }
  }

  lemma StopStepReader(s: State, s': State, o: Observation)
    requires StopOk(s) && LoopOk(s.ring, s.c) && !s.c.loop.Trying?
    requires Observes(s.ring, s'.ring, s.c.loop, o) && ReaderStep(s.c, s'.c, o) && s'.orderly == s.orderly
    ensures StopOk(s')
  {
    if s.c.loop.Head? || s.c.loop.Checking? || s.c.loop.Locking? || s.c.loop.Notifying? {
      StopStepEvent(s, s', o);
    }
  }

  /** Dealing with an event is neither stopping nor reporting. */
  lemma StopStepEvent(s: State, s': State, o: Observation)
    requires StopOk(s)
    requires s.c.loop.Head? || s.c.loop.Checking? || s.c.loop.Locking? || s.c.loop.Notifying?
    requires Observes(s.ring, s'.ring, s.c.loop, o) && ReaderStep(s.c, s'.c, o) && s'.orderly == s.orderly
    ensures StopOk(s')
  {
  }

  lemma StopStep(s: State, s': State, a: Party)
    requires Inv(s.ring) && LoopOk(s.ring, s.c) && StopOk(s) && Step(s, s', a)
    ensures StopOk(s')
  {
    match a
    case OfProducer(p) => StopStepProducer(s, s', p);
    case OfReader(o) =>
      if s.c.loop.Trying? { StopStepTrying(s, s', o); } else { StopStepReader(s, s', o); }
    case _ =>
  }

  lemma StopStepProducer(s: State, s': State, p: Pid)
    requires StopOk(s) && ProducerNext(s.ring, s'.ring, p) && s'.c == s.c && s'.orderly == s.orderly
    ensures StopOk(s')
  {
    hide ProducerNext;
    ProducerFrame(s.ring, s'.ring, p);
    if s.ring.closed { BusyIsNotQuiet(s.ring, s'.ring, p); }
  }

  /** Once closed, only a producer that is not idle can move. */
  lemma BusyIsNotQuiet(r: Ring, r': Ring, p: Pid)
    requires ProducerNext(r, r', p) && r.closed
    ensures !Quiet(r)
  {
    ProducerFrame(r, r', p);
  }

  // ---------------------------------------------------------------- all together

  lemma RingInvStep(s: State, s': State, a: Party)
    requires RingInv(s.ring) && Step(s, s', a)
    ensures RingInv(s'.ring)
  {
    RingStep(s, s', a);
    if s'.ring != s.ring {
      NextInv(s.ring, s'.ring, ActorOf(s, a));
      RingHistory.NextNumbers(s.ring, s'.ring, ActorOf(s, a));
    }
  }

  lemma StepInv(s: State, s': State, a: Party)
    requires PipeInv(s) && Step(s, s', a)
    ensures PipeInv(s')
  {
    RingInvStep(s, s', a);
    RefinesStep(s, s', a);
    SleepStep(s, s', a);
    WakeStep(s, s', a);
    StopStep(s, s', a);
  }

  lemma StartInv(s: State)
    requires Start(s)
    ensures PipeInv(s)
  {
    InitInv(s.ring);
    assert RingHistory.InFlightSet(s.ring) == {};
  }

  lemma {:induction false} RunInv(states: seq<State>, parties: seq<Party>, i: nat)
    requires IsRun(states, parties) && i < |states|
    ensures PipeInv(states[i])
  {
    if i == 0 {
      StartInv(states[0]);
    } else {
      RunInv(states, parties, i - 1);
      StepInv(states[i - 1], states[i], parties[i - 1]);
    }
  }

  lemma ReachableInv(s: State)
    requires Reachable(s)
    ensures PipeInv(s)
  {
    var states, parties :| IsRun(states, parties) && states[|parties|] == s;
    RunInv(states, parties, |parties|);
  }

  // ---------------------------------------------------------------- theorems

  /** Rendered, in the writer's hand, queued, in the reader's hand: together the valid events delivered so far. */
  lemma OutputRefinesRing(s: State)
    requires Reachable(s)
    ensures ValidOnly(s.ring.delivered) ==
      s.c.rendered + HeldByWriter(s.c.writer) + s.c.queue + HeldByReader(s.ring, s.c.loop)
    ensures |s.c.queue| <= 4096
  {
    ReachableInv(s);
  }

  /** The reader goes on to report drops after 256 events, or when it finds nothing. */
  lemma BatchesAreFull(s: State, s': State, n: nat, o: Observation)
    requires s.c.loop == Head(n) && Step(s, s', OfReader(o))
    ensures s'.c.loop == if n >= 256 then Reporting(n) else Trying(Batch(n))
  {
  }

  /** A producer that has published and may still signal. */
  ghost predicate SignalOwed(r: Ring) {
    exists p :: p in r.producers && (r.producers[p].Published? || r.producers[p].Signalling?)
  }

  /** A signal has failed: its producer is about to take wakePending back, or has, and nothing came since. */
  ghost predicate SignalFailed(s: State) {
    s.reset || exists p :: p in s.ring.producers && s.ring.producers[p].Resetting?
  }

  /** A parked reader with an event waiting has a signal given or owed, unless a signal has failed. */
  lemma NoLostWakeup(s: State)
    requires Reachable(s) && s.ring.configured
    requires s.c.loop.Waiting? && HeadPublished(s.ring)
    ensures s.ring.wakeSignal || SignalOwed(s.ring) || SignalFailed(s)
  {
    ReachableInv(s);
    if !s.ring.wakeSignal && !s.reset {
      if s.ring.wakePending {
        var p :| p in s.ring.producers && WakeDuty(s.ring.producers[p]);
      } else {
        var p :| p in s.ring.producers && s.ring.producers[p].Published?;
      }
    }
  }

  /** With no producer mid-emission, an event waits unannounced exactly when a failed signal was taken back. */
  lemma LostWakeupIffReset(s: State)
    requires Reachable(s) && s.ring.configured && Quiet(s.ring)
    requires s.c.loop.Waiting? && |s.ring.claims| > |s.ring.delivered|
    ensures HeadPublished(s.ring)
    ensures !s.ring.wakeSignal <==> s.reset
  {
    ReachableInv(s);
    assert SlotOk(s.ring, Released(s.ring));
    NoLostWakeup(s);
  }

  /** Before any signal has failed there is a signal. */
  lemma NoLostWakeupAtRest(s: State)
    requires Reachable(s) && s.ring.configured && !s.reset && Quiet(s.ring)
    requires s.c.loop.Waiting? && |s.ring.claims| > |s.ring.delivered|
    ensures s.ring.wakeSignal
  {
    LostWakeupIffReset(s);
  }

  /** The two threads are never both asleep on the queue, and a sleeper's condition or wake-up call is there. */
  lemma NeverBothAsleep(s: State)
    requires Reachable(s)
    ensures !(s.c.loop.Sleeping? && s.c.writer.WriterSleeping?)
    ensures s.c.loop.Sleeping? && |s.c.queue| < 4096 ==> s.c.writer.WriterNotifying?
    ensures s.c.writer.WriterSleeping? && (s.c.queue != [] || s.c.readerFinished) ==>
      s.c.loop.Notifying? || s.c.loop.NotifyingAll?
  {
    ReachableInv(s);
  }

  /** The writer leaves only when everything queued has been rendered and the reader is gone. */
  lemma WriterLeavesLast(s: State)
    requires Reachable(s) && s.c.writer.Exited?
    ensures s.c.rendered == ValidOnly(s.ring.delivered)
    ensures s.c.loop.NotifyingAll? || s.c.loop.Done?
  {
    ReachableInv(s);
  }
}
