/** From the hook handlers' events to the rendered ones, and the one way a wake-up can be lost. */
module EndToEnd {
  import opened EventCodec
  import opened TraceRing
  import opened RingSafety
  import opened RingHistory
  import Pipeline
  import PipelineSafety
  import PipelineDrain

  /** What the valid events among `events` say, in order. */
  ghost function ReportsOf(events: seq<Wire>): seq<Report> {
    if events == [] then []
    else
      var e := events[|events| - 1];
      ReportsOf(events[..|events| - 1]) + if IsValidTraceEvent(e) then [ReportOf(e)] else []
  }

  function ClaimedEvents(claims: seq<Claim>): (s: seq<Wire>)
    ensures |s| == |claims|
    ensures forall i :: 0 <= i < |claims| ==> s[i] == claims[i].event
  {
    seq(|claims|, i requires 0 <= i < |claims| => claims[i].event)
  }

  /** Dropping the invalid events first changes nothing. */
  lemma {:induction false} ReportsOfValid(events: seq<Wire>)
    ensures ReportsOf(PipelineSafety.ValidOnly(events)) == ReportsOf(events)
  {
    if events != [] {
      var n := |events| - 1;
      ReportsOfValid(events[..n]);
      var front := PipelineSafety.ValidOnly(events[..n]);
      if IsValidTraceEvent(events[n]) {
        assert (front + [events[n]])[..|front|] == front;
      } else {
        assert PipelineSafety.ValidOnly(events) == front;
      }
    }
  }

  /** Stale tails do not show: buffers that hold the same events say the same. */
  lemma {:induction false} ReportsOfCopies(copies: seq<Wire>, events: seq<Wire>)
    requires |copies| == |events|
    requires forall i :: 0 <= i < |events| ==> HeaderOk(events[i]) && Holds(copies[i], events[i])
    ensures ReportsOf(copies) == ReportsOf(events)
  {
    if events != [] {
      var n := |events| - 1;
      StaleTailIsIgnored(events[n], copies[n]);
      ReportsOfCopies(copies[..n], events[..n]);
    }
  }

  /** The sequence number the emitter writes into the header is not part of what an event says. */
  lemma StampKeepsMeaning(e: Wire, number: nat)
    requires HeaderOk(e)
    ensures forall v :: Describes(Stamp(e, number), v) <==> Describes(e, v)
    ensures forall report :: Reports(Stamp(e, number), report) <==> Reports(e, report)
  {
    var r := Stamp(e, number);
    assert r[HEADER_BYTES..Size(r)] == e[HEADER_BYTES..Size(e)];
    assert r[24..28] == e[24..28] && r[16..24] == e[16..24];
  }

  /**
   After an orderly stop every schedule of the controller ends, and unless a wait failed, what has been
   rendered says exactly what the claimed events say, in claim order.
   */
  lemma EveryClaimedEventIsRendered(run: nat -> Pipeline.State, i: nat) returns (k: nat)
    requires PipelineDrain.IsSchedule(run)
    requires Pipeline.Reachable(run(i)) && PipelineDrain.Draining(run(i)) && run(i).orderly
    ensures k >= i && PipelineDrain.Finished(run(k))
    ensures !run(k).c.waitFailed ==>
      && ReportsOf(run(k).c.rendered) == ReportsOf(ClaimedEvents(run(k).ring.claims))
      && run(k).c.reported == run(k).ring.droppedEvents
  {
    PipelineSafety.ReachableInv(run(i));
    k := PipelineDrain.DrainTerminates(run, i);
    var s := run(k);
    if !s.c.waitFailed {
      PipelineDrain.DrainIsComplete(s);
      ReportsOfValid(s.ring.delivered);
      forall j | 0 <= j < |s.ring.claims|
        ensures HeaderOk(s.ring.claims[j].event) && Holds(s.ring.delivered[j], s.ring.claims[j].event)
      {
        assert Stamped(s.ring.claims[j].event, s.ring.claims[j].number);
      }
      ReportsOfCopies(s.ring.delivered, ClaimedEvents(s.ring.claims));
    }
  }

  // ---------------------------------------------------------------- a failed NtSetEvent can strand an event

  lemma StepReachable(s: Pipeline.State, s': Pipeline.State, a: Pipeline.Party)
    requires Pipeline.Reachable(s) && Pipeline.Step(s, s', a)
    ensures Pipeline.Reachable(s')
  {
    var states, parties :| Pipeline.IsRun(states, parties) && states[|parties|] == s;
    assert Pipeline.IsRun(states + [s'], parties + [a]);
    assert (states + [s'])[|parties + [a]|] == s';
  }

  lemma ProducerReachable(s: Pipeline.State, r': Ring, p: Pid) returns (s': Pipeline.State)
    requires Pipeline.Reachable(s) && ProducerNext(s.ring, r', p)
    ensures Pipeline.Reachable(s')
    ensures s' == s.(ring := r', reset := (s.reset || s.ring.Producer(p).Resetting?) && !r'.wakeSignal)
  {
    s' := s.(ring := r', reset := (s.reset || s.ring.Producer(p).Resetting?) && !r'.wakeSignal);
    StepReachable(s, s', Pipeline.OfProducer(p));
  }

  /** An event with nothing but a header. */
  const BARE_EVENT: Wire :=
    [0x41, 0x50, 0x49, 0x53, 5, 0, 32, 0] + seq(1016, i => 0)

  ghost predicate Stranded(s: Pipeline.State) {
    && s.ring.configured && s.c.loop.Waiting? && PipelineSafety.HeadPublished(s.ring)
    && PipelineSafety.Quiet(s.ring) && !s.ring.wakeSignal
  }

  /** The reader's first pass over an empty ring: it clears wakePending, looks again and parks. */
  lemma ParkOnEmptyRing(s0: Pipeline.State) returns (s: Pipeline.State)
    requires Pipeline.Start(s0) && Pipeline.Reachable(s0)
    ensures Pipeline.Reachable(s)
    ensures s == s0.(c := s0.c.(loop := Pipeline.Waiting))
  {
    var r, c := s0.ring, s0.c;
    assert r.slots[0].sequence == 0 && r.Slot(0) == r.slots[0];
    var tryFirst := s0.(c := c.(loop := Pipeline.Trying(Pipeline.Batch(0))));
    StepReachable(s0, tryFirst, Pipeline.OfReader(Pipeline.Nothing));
    var clearing := MissOnce(tryFirst);
    var report := clearing.(c := clearing.c.(loop := Pipeline.Clearing));
    StepReachable(clearing, report, Pipeline.OfReader(Pipeline.DropCount(0)));
    var second := report.(c := report.c.(loop := Pipeline.Trying(Pipeline.Raced)));
    StepReachable(report, second, Pipeline.OfReader(Pipeline.Nothing));
    s := MissOnce(second);
  }

  lemma MissOnce(s: Pipeline.State) returns (s': Pipeline.State)
    requires Pipeline.Reachable(s) && s.c.loop.Trying?
    requires s.ring.reader.Out? && s.ring.slots != []
    requires s.ring.Slot(s.ring.dequeuePosition).sequence != s.ring.dequeuePosition + 1
    ensures Pipeline.Reachable(s')
    ensures s' == s.(c := s.c.(loop := Pipeline.Miss(s.c.loop.mode, s.c.stopping)))
  {
    var mid := s.(ring := s.ring.(reader := At(s.ring.dequeuePosition)));
    StepReachable(s, mid, Pipeline.OfReader(Pipeline.Nothing));
    s' := s.(c := s.c.(loop := Pipeline.Miss(s.c.loop.mode, s.c.stopping)));
    StepReachable(mid, s', Pipeline.OfReader(Pipeline.Missed));
  }

  /** A ring with only producer `p` moved on, and nothing else. */
  predicate OnlyMoved(s: Pipeline.State, s': Pipeline.State, p: Pid) {
    && s'.c == s.c && s'.orderly == s.orderly
    && s'.ring.configured == s.ring.configured && s'.ring.dequeuePosition == s.ring.dequeuePosition
    && s'.ring.wakePending == s.ring.wakePending && s'.ring.wakeSignal == s.ring.wakeSignal
    && |s'.ring.slots| == |s.ring.slots|
    && s'.ring.producers == s.ring.producers[p := s'.ring.Producer(p)]
  }

  lemma CopyOneByte(s: Pipeline.State, p: Pid) returns (s': Pipeline.State)
    requires Pipeline.Reachable(s) && s.ring.slots != [] && s.ring.Producer(p).Copying?
    requires s.ring.Producer(p).copied < Size(s.ring.Producer(p).work.event) <= EVENT_BYTES
    ensures Pipeline.Reachable(s') && OnlyMoved(s, s', p)
    ensures
      var pc := s.ring.Producer(p);
      s'.ring.Producer(p) == Copying(pc.work, pc.position, pc.copied + 1)
  {
    var r, pc := s.ring, s.ring.Producer(p);
    var slot, k := r.Slot(pc.position), pc.copied;
    s' := ProducerReachable(
      s,
      r.PutSlot(pc.position, slot.(event := slot.event[k := pc.work.event[k]]))
       .Put(p, Copying(pc.work, pc.position, k + 1)),
      p);
  }

  lemma PublishCopied(s: Pipeline.State, p: Pid) returns (s': Pipeline.State)
    requires Pipeline.Reachable(s) && s.ring.slots != [] && s.ring.Producer(p).Copying?
    requires s.ring.Producer(p).copied == Size(s.ring.Producer(p).work.event)
    ensures Pipeline.Reachable(s') && OnlyMoved(s, s', p)
    ensures s'.ring.Producer(p).Published?
    ensures s'.ring.Slot(s.ring.Producer(p).position).sequence == s.ring.Producer(p).position + 1
  {
    var r, pc := s.ring, s.ring.Producer(p);
    var slot := r.Slot(pc.position);
    s' := ProducerReachable(s, r.PutSlot(pc.position, slot.(sequence := pc.position + 1)).Put(p, Published), p);
  }

  lemma {:induction false} CopyAndPublish(s: Pipeline.State, p: Pid) returns (s': Pipeline.State)
    requires Pipeline.Reachable(s) && s.ring.slots != [] && s.ring.Producer(p).Copying?
    requires s.ring.Producer(p).copied <= Size(s.ring.Producer(p).work.event) <= EVENT_BYTES
    ensures Pipeline.Reachable(s') && OnlyMoved(s, s', p)
    ensures s'.ring.Producer(p).Published?
    ensures s'.ring.Slot(s.ring.Producer(p).position).sequence == s.ring.Producer(p).position + 1
    decreases Size(s.ring.Producer(p).work.event) - s.ring.Producer(p).copied
  {
    if s.ring.Producer(p).copied < Size(s.ring.Producer(p).work.event) {
      var next := CopyOneByte(s, p);
      s' := CopyAndPublish(next, p);
    } else {
      s' := PublishCopied(s, p);
    }
  }

  lemma NumberFirst(s: Pipeline.State, p: Pid, bare: Wire, w: Work) returns (s': Pipeline.State)
    requires Pipeline.Reachable(s) && Init(s.ring) && HeaderOk(bare) && w == Work(1, Stamp(bare, 1), 0, 0)
    ensures Pipeline.Reachable(s') && OnlyMoved(s, s', p) && s'.ring.slots == s.ring.slots
    ensures s'.ring.Producer(p) == Numbered(w)
    ensures s'.ring.enqueuePosition == 0 && s'.ring.claims == []
  {
    s' := ProducerReachable(s, s.ring.Put(p, Entered(bare)), p);
    s' := ProducerReachable(s', s'.ring.(eventSequence := 1).Put(p, Numbered(w)), p);
  }

  lemma TakeFirstPosition(s: Pipeline.State, p: Pid, w: Work) returns (s': Pipeline.State)
    requires Pipeline.Reachable(s) && s.ring.Producer(p) == Numbered(w) && s.ring.enqueuePosition == 0
    requires s.ring.slots != [] && s.ring.Slot(0).sequence == 0
    ensures Pipeline.Reachable(s') && OnlyMoved(s, s', p)
    ensures s'.ring == s.ring.Put(p, Claiming(w, 0))
  {
    s' := ProducerReachable(s, s.ring.Put(p, Positioned(w, 0)), p);
    s' := ProducerReachable(s', s'.ring.Put(p, Claiming(w, 0)), p);
  }

  /** From a numbered producer to its copy phase, when the first slot is free. */
  lemma ClaimFirst(s: Pipeline.State, p: Pid, w: Work) returns (s': Pipeline.State)
    requires Pipeline.Reachable(s) && s.ring.Producer(p) == Numbered(w)
    requires s.ring.enqueuePosition == 0 && s.ring.claims == []
    requires s.ring.slots != [] && s.ring.Slot(0).sequence == 0
    ensures Pipeline.Reachable(s') && OnlyMoved(s, s', p)
    ensures s'.ring.Producer(p) == Copying(w, 0, 0)
  {
    s' := TakeFirstPosition(s, p, w);
    s' := ProducerReachable(
      s', s'.ring.(enqueuePosition := 1, claims := [Claim(p, w.number, w.event)]).Put(p, Copying(w, 0, 0)), p);
  }

  lemma BareEventIsEvent()
    ensures HeaderOk(BARE_EVENT)
  {
  }

  /** A fresh session whose reader has parked on the empty ring. */
  lemma ParkedAtStart(bare: Wire) returns (s: Pipeline.State)
    ensures Pipeline.Reachable(s) && Init(s.ring) && s.ring.configured
    ensures s.c.loop.Waiting? && !s.ring.wakeSignal && !s.ring.wakePending && !s.orderly
    ensures s.ring.slots == [Slot(0, bare), Slot(1, bare)] && s.ring.producers == map[]
  {
    var slots := [Slot(0, bare), Slot(1, bare)];
    var r0 := Ring(true, 0, 0, 0, 0, false, false, slots, map[], Out, false, [], []);
    var c0 := Pipeline.Control(Pipeline.Head(0), false, false, 0, false, [], false, Pipeline.WriterLocking, []);
    var s0 := Pipeline.State(r0, c0, false, false);
    var noSteps: seq<Pipeline.Party> := [];
    assert Pipeline.IsRun([s0], noSteps) && [s0][|noSteps|] == s0;
    s := ParkOnEmptyRing(s0);
  }

  /**
   Whatever the other producers are at: a published event whose signal fails leaves the parked reader without
   a signal, and if the others are idle the event is stranded.
   */
  lemma SignalFails(s: Pipeline.State, p: Pid) returns (s': Pipeline.State)
    requires Pipeline.Reachable(s) && s.ring.Producer(p).Published? && s.ring.configured
    requires s.c.loop.Waiting? && PipelineSafety.HeadPublished(s.ring)
    requires !s.ring.wakeSignal && !s.ring.wakePending
    ensures Pipeline.Reachable(s') && s'.reset && !s'.ring.wakeSignal && !s'.ring.wakePending
    ensures s'.ring == s.ring.Put(p, Idle) && s'.c == s.c
    ensures (forall o :: o in s.ring.producers && o != p ==> s.ring.producers[o].Idle?) ==> Stranded(s')
  {
    s' := ProducerReachable(s, s.ring.(wakePending := true).Put(p, Signalling), p);
    s' := ProducerReachable(s', s'.ring.Put(p, Resetting), p);
    s' := ProducerReachable(s', s'.ring.(wakePending := false).Put(p, Idle), p);
    assert s'.ring.producers == s.ring.producers[p := Idle];
  }

  /**
   The promise does fail when NtSetEvent does: the producer takes wakePending back although the reader
   has already parked, and the event stays unannounced until some later emission.
   */
  lemma FailedSignalStrandsAnEvent() returns (s: Pipeline.State)
    ensures Pipeline.Reachable(s) && Stranded(s) && s.reset
  {
    var bare := BARE_EVENT;
    BareEventIsEvent();
    var parked := ParkedAtStart(bare);
    var w := Work(1, Stamp(bare, 1), 0, 0);
    var numbered := NumberFirst(parked, 0, bare, w);
    var claimed := ClaimFirst(numbered, 0, w);
    var published := CopyAndPublish(claimed, 0);
    s := SignalFails(published, 0);
  }
}
