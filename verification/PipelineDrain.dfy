/**
 Draining: once the producers are gone and the stop event is set, every schedule of the two threads
 ends, and it ends with every claimed event accounted for.
 */
module PipelineDrain {
  import opened EventCodec
  import opened TraceRing
  import opened RingSafety
  import opened Pipeline
  import opened PipelineSafety

  predicate Draining(s: State) { s.ring.closed && s.c.stopSignal }

  predicate Finished(s: State) { s.c.loop.Done? && s.c.writer.Exited? }

  // ---------------------------------------------------------------- the measure

  const TRY := EVENT_BYTES + 4

  /** How far the current TryReadRing call is from its end or its release. */
  function TryRank(r: Reader): nat {
    match r
    case Out => EVENT_BYTES + 3
    case At(_) => EVENT_BYTES + 2
    case Copy(_, buffer) => if |buffer| <= EVENT_BYTES then EVENT_BYTES + 1 - |buffer| else 0
    case Advance(_, _) => 0
  }

  /** The loop's program counters in the order one pass without new events visits them. */
  function LoopRank(loop: Loop, r: Reader): nat {
    match loop
    case Done => 0
    case NotifyingAll => 1
    case Finishing => 2
    case Waiting => 3
    case Clearing => 5 + TRY
    case Reporting(n) => if n == 0 then 6 + TRY else 9 + 2 * TRY
    case Head(n) => if n == 0 then 8 + 2 * TRY else 11 + 3 * TRY
    case Trying(mode) =>
      if r.Advance? then 15 + 3 * TRY
      else TryRank(r) + (if mode.Raced? then 4 else if mode.read == 0 then 7 + TRY else 10 + 2 * TRY)
    case Notifying(_) => 12 + 3 * TRY
    case Locking(_, _) => 13 + 3 * TRY
    case Sleeping(_, _) => 13 + 3 * TRY
    case Checking(_, _) => 14 + 3 * TRY
  }

  function WriterRank(w: Writer): nat {
    match w
    case WriterNotifying(_) => 3
    case Rendering(_) => 2
    case WriterLocking => 1
    case _ => 0
  }

  /** Compared lexicographically: events left, wake signal, stop unseen, loop, queue, writer, sleep. */
  datatype Measure = Measure(left: nat, signal: nat, unseen: nat, loop: nat, queue: nat, writer: nat, awake: nat)

  function MeasureOf(s: State): Measure
    requires |s.ring.delivered| <= |s.ring.claims|
  {
    Measure(
      |s.ring.claims| - |s.ring.delivered|,
      if s.ring.wakeSignal then 1 else 0,
      if s.c.stopping then 0 else 1,
      LoopRank(s.c.loop, s.ring.reader),
      |s.c.queue|,
      WriterRank(s.c.writer),
      if s.c.loop.Sleeping? then 0 else 1)
  }

  predicate Less(a: Measure, b: Measure) {
    a.left < b.left || (a.left == b.left &&
    (a.signal < b.signal || (a.signal == b.signal &&
    (a.unseen < b.unseen || (a.unseen == b.unseen &&
    (a.loop < b.loop || (a.loop == b.loop &&
    (a.queue < b.queue || (a.queue == b.queue &&
    (a.writer < b.writer || (a.writer == b.writer && a.awake < b.awake)))))))))))
  }

  /** While draining, only the two threads of the controller move, apart from spurious wake-ups. */
  ghost predicate DrainStep(s: State, s': State) {
    || Step(s, s', OfWriter)
    || (exists o :: Step(s, s', OfReader(o)))
  }

  ghost predicate SpuriousStep(s: State, s': State) { Step(s, s', SpuriousReader) || Step(s, s', SpuriousWriter) }

  /** Inside TryReadRing the rank falls with every step, except for the step that hands an event over. */
  lemma TryDescends(r: Ring, r': Ring, c: Control, c': Control, o: Observation)
    requires c.loop.Trying? && Observes(r, r', c.loop, o) && ReaderStep(c, c', o)
    ensures LoopRank(c'.loop, r'.reader) < LoopRank(c.loop, r.reader) || (r'.reader.Advance? && !r.reader.Advance?)
  {
  }

  lemma TryDecreases(s: State, s': State, o: Observation)
    requires s.c.loop.Trying? && Step(s, s', OfReader(o))
    requires |s.ring.delivered| <= |s.ring.claims| && |s'.ring.delivered| <= |s'.ring.claims|
    ensures Less(MeasureOf(s'), MeasureOf(s))
  {
    TryFrame(s.ring, s'.ring);
    TryDescends(s.ring, s'.ring, s.c, s'.c, o);
    assert s'.c.stopping == s.c.stopping && s'.c.queue == s.c.queue && s'.c.writer == s.c.writer;
  }

  /** Elsewhere the loop runs down its ranks, or falls asleep, or starts over after a wait. */
  lemma LoopDescends(c: Control, c': Control, o: Observation)
    requires !c.loop.Trying? && !c.loop.Waiting? && ReaderStep(c, c', o)
    ensures c'.stopping == c.stopping
    ensures
      || LoopRank(c'.loop, Out) < LoopRank(c.loop, Out)
      || (c.loop.Locking? && c'.loop.Sleeping? && c'.queue == c.queue && c'.writer == c.writer)
  {
    if c.loop.Checking? || c.loop.Locking? || c.loop.Notifying? {
      EventDescends(c, c', o);
    }
  }

  /** The part of the loop that has an event in hand. */
  lemma EventDescends(c: Control, c': Control, o: Observation)
    requires (c.loop.Checking? || c.loop.Locking? || c.loop.Notifying?) && ReaderStep(c, c', o)
    ensures c'.stopping == c.stopping
    ensures
      || LoopRank(c'.loop, Out) < LoopRank(c.loop, Out)
      || (c.loop.Locking? && c'.loop.Sleeping? && c'.queue == c.queue && c'.writer == c.writer)
  {
  }

  lemma ReaderDecreases(s: State, s': State, o: Observation)
    requires |s.ring.delivered| <= |s.ring.claims| && StopOk(s)
    requires !s.c.loop.Trying? && Step(s, s', OfReader(o))
    requires s.ring.reader.Out?
    ensures |s'.ring.delivered| <= |s'.ring.claims|
    ensures Less(MeasureOf(s'), MeasureOf(s))
  {
    assert s'.ring.claims == s.ring.claims && s'.ring.delivered == s.ring.delivered && s'.ring.reader.Out?;
    if s.c.loop.Waiting? {
      assert !s.c.stopping;
    } else {
      assert s'.ring.wakeSignal == s.ring.wakeSignal;
      LoopDescends(s.c, s'.c, o);
    }
  }

  lemma WriterDecreases(s: State, s': State)
    requires |s.ring.delivered| <= |s.ring.claims| && Step(s, s', OfWriter)
    ensures |s'.ring.delivered| <= |s'.ring.claims|
    ensures Less(MeasureOf(s'), MeasureOf(s))
  {
  }

  lemma DrainDecreases(s: State, s': State)
    requires PipeInv(s) && Draining(s) && DrainStep(s, s')
    ensures PipeInv(s') && Draining(s') && s'.orderly == s.orderly
    ensures Less(MeasureOf(s'), MeasureOf(s))
  {
    if Step(s, s', OfWriter) {
      StepInv(s, s', OfWriter);
      WriterDecreases(s, s');
    } else {
      var o :| Step(s, s', OfReader(o));
      StepInv(s, s', OfReader(o));
      DrainingStays(s, s', o);
      if s.c.loop.Trying? { TryDecreases(s, s', o); } else { ReaderDecreases(s, s', o); }
    }
  }

  lemma DrainingStays(s: State, s': State, o: Observation)
    requires Draining(s) && Step(s, s', OfReader(o))
    ensures Draining(s') && s'.orderly == s.orderly
  {
    if s.c.loop.Trying? { TryFrame(s.ring, s'.ring); }
  }

  // ---------------------------------------------------------------- progress

  lemma RingCanRead(r: Ring) returns (r': Ring)
    requires r.slots != [] && (r.reader.Copy? ==> |r.reader.buffer| <= EVENT_BYTES)
    ensures ReaderNext(r, r')
  {
    match r.reader
    case Out => r' := r.(reader := At(r.dequeuePosition));
    case At(position) =>
      r' := r.(reader := if r.Slot(position).sequence != position + 1 then Out else Copy(position, []));
    case Copy(position, buffer) =>
      var s := r.Slot(position);
      if |buffer| < EVENT_BYTES {
        r' := r.(reader := Copy(position, buffer + [s.event[|buffer|]]));
      } else {
        r' := r.PutSlot(position, s.(sequence := position + |r.slots|))
               .(reader := Advance(position, buffer), delivered := r.delivered + [buffer]);
      }
    case Advance(position, _) => r' := r.(dequeuePosition := position + 1, reader := Out);
  }

  lemma TryCanMove(s: State) returns (s': State, o: Observation)
    requires s.ring.slots != [] && (s.ring.reader.Copy? ==> |s.ring.reader.buffer| <= EVENT_BYTES)
    requires s.c.loop.Trying?
    ensures Step(s, s', OfReader(o))
  {
    var r' := RingCanRead(s.ring);
    o := match s.ring.reader
      case At(_) => if r'.reader.Out? then Missed else Nothing
      case Advance(_, e) => Took(e)
      case _ => Nothing;
    var c, mode := s.c, s.c.loop.mode;
    s' := State(
      r',
      c.(loop := if o.Missed? then Miss(mode, c.stopping) else if o.Took? then Hit(mode, o.event) else c.loop),
      s.reset, s.orderly);
  }

  lemma ReaderCanMove(s: State) returns (s': State, o: Observation)
    requires !s.c.loop.Trying? && !s.c.loop.Sleeping? && !s.c.loop.Done?
    requires s.c.loop.Clearing? ==> s.ring.reader.Out?
    requires s.c.loop.Waiting? ==> s.c.stopSignal
    ensures Step(s, s', OfReader(o))
  {
    var c, r := s.c, s.ring;
    o := Nothing;
    s' := s;
    match c.loop
    case Head(n) => s' := s.(c := c.(loop := if n < READ_BATCH then Trying(Batch(n)) else Reporting(n)));
    case Checking(mode, e) => s' := s.(c := c.(loop := if IsValidTraceEvent(e) then Locking(mode, e) else After(mode)));
    case Locking(mode, e) =>
      s' := s.(c := if |c.queue| < QUEUE_CAPACITY then c.(queue := c.queue + [e], loop := Notifying(mode))
                    else c.(loop := Sleeping(mode, e)));
    case Notifying(mode) => s' := s.(c := c.(writer := WakeWriter(c.writer), loop := After(mode)));
    case Reporting(n) =>
      o := DropCount(r.droppedEvents);
      s' := s.(c := c.(reported := if r.droppedEvents > c.reported then r.droppedEvents else c.reported,
                       loop := if n != 0 then Head(0) else Clearing));
    case Clearing => s' := s.(ring := r.(wakePending := false), c := c.(loop := Trying(Raced)), reset := false);
    case Waiting =>
      if r.wakeSignal {
        o := WakeSignalled;
        s' := s.(ring := r.(wakeSignal := false), c := c.(loop := Head(0)));
      } else {
        o := WakeUnsignalled;
        s' := s.(c := c.(stopping := true, loop := Head(0)));
      }
    case Finishing => s' := s.(c := c.(readerFinished := true, loop := NotifyingAll));
    case NotifyingAll => s' := s.(c := c.(writer := WakeWriter(c.writer), loop := Done));
  }

  lemma WriterCanMove(s: State) returns (s': State)
    requires !s.c.writer.WriterSleeping? && !s.c.writer.Exited?
    ensures Step(s, s', OfWriter)
  {
    var c := s.c;
    match c.writer
    case WriterLocking =>
      s' := s.(c := if c.queue != [] then c.(queue := c.queue[1..], writer := WriterNotifying(c.queue[0]))
                    else c.(writer := if c.readerFinished then Exited else WriterSleeping));
    case WriterNotifying(e) => s' := s.(c := c.(loop := WakeReader(c.loop), writer := Rendering(e)));
    case Rendering(e) => s' := s.(c := c.(rendered := c.rendered + [e], writer := WriterLocking));
  }

  /** Until both threads have left, one of them can move: no deadlock and no missed notification. */
  lemma DrainCanMove(s: State) returns (s': State)
    requires PipeInv(s) && Draining(s) && !Finished(s)
    ensures DrainStep(s, s')
  {
    if !s.c.writer.WriterSleeping? && !s.c.writer.Exited? {
      s' := WriterCanMove(s);
    } else {
      var o: Observation;
      if s.c.loop.Trying? { s', o := TryCanMove(s); } else { s', o := ReaderCanMove(s); }
    }
  }

  // ---------------------------------------------------------------- theorems

  /** The threads move at step `i`; they may stand still only when both have left. */
  ghost predicate Moves(run: nat -> State, i: nat) {
    DrainStep(run(i), run(i + 1)) || (Finished(run(i)) && run(i + 1) == run(i))
  }

  ghost predicate Spurious(run: nat -> State, i: nat) { SpuriousStep(run(i), run(i + 1)) }

  /** From step `n` on no thread wakes up without cause. */
  ghost predicate SettlesFrom(run: nat -> State, n: nat) { forall i: nat :: n <= i ==> Moves(run, i) }

  /** An infinite schedule of the draining system, with finitely many spurious wake-ups. */
  ghost predicate IsSchedule(run: nat -> State) {
    (forall i: nat :: Moves(run, i) || Spurious(run, i)) && exists n: nat :: SettlesFrom(run, n)
  }

  lemma SpuriousKeeps(s: State, s': State)
    requires PipeInv(s) && Draining(s) && SpuriousStep(s, s')
    ensures PipeInv(s') && Draining(s') && s'.orderly == s.orderly
  {
    if Step(s, s', SpuriousReader) { StepInv(s, s', SpuriousReader); } else { StepInv(s, s', SpuriousWriter); }
  }

  lemma OneStepKeeps(run: nat -> State, i: nat)
    requires Moves(run, i) || Spurious(run, i)
    requires PipeInv(run(i)) && Draining(run(i))
    ensures PipeInv(run(i + 1)) && Draining(run(i + 1)) && run(i + 1).orderly == run(i).orderly
  {
    hide PipeInv, DrainStep, SpuriousStep;
    if Spurious(run, i) {
      SpuriousKeeps(run(i), run(i + 1));
    } else if DrainStep(run(i), run(i + 1)) {
      DrainDecreases(run(i), run(i + 1));
    }
  }

  /** Whatever moves, the draining system stays one. */
  lemma {:induction false} DrainKeeps(run: nat -> State, i: nat, k: nat)
    requires IsSchedule(run) && PipeInv(run(i)) && Draining(run(i)) && i <= k
    ensures PipeInv(run(k)) && Draining(run(k)) && run(k).orderly == run(i).orderly
    decreases k - i
  {
    hide PipeInv, Draining, Moves, Spurious;
    if i < k {
      OneStepKeeps(run, i);
      DrainKeeps(run, i + 1, k);
    }
  }

  lemma {:induction false} SettledTerminates(run: nat -> State, i: nat) returns (k: nat)
    requires SettlesFrom(run, i) && PipeInv(run(i)) && Draining(run(i))
    ensures k >= i && Finished(run(k))
    decreases
      MeasureOf(run(i)).left, MeasureOf(run(i)).signal, MeasureOf(run(i)).unseen, MeasureOf(run(i)).loop,
      MeasureOf(run(i)).queue, MeasureOf(run(i)).writer, MeasureOf(run(i)).awake
  {
    if Finished(run(i)) {
      k := i;
    } else {
      assert Moves(run, i);
      DrainDecreases(run(i), run(i + 1));
      k := SettledTerminates(run, i + 1);
    }
  }

  /** Every schedule comes to rest, whoever runs when and however often a thread wakes up for nothing. */
  lemma DrainTerminates(run: nat -> State, i: nat) returns (k: nat)
    requires IsSchedule(run) && PipeInv(run(i)) && Draining(run(i))
    ensures k >= i && Finished(run(k)) && PipeInv(run(k)) && run(k).orderly == run(i).orderly
  {
    var n: nat :| SettlesFrom(run, n);
    var start := if i < n then n else i;
    DrainKeeps(run, i, start);
    forall j: nat | start <= j ensures Moves(run, j) {
    }
    k := SettledTerminates(run, start);
    DrainKeeps(run, i, k);
  }

  /** After an orderly stop everything claimed was delivered, and rendered if valid, and every drop reported. */
  lemma DrainIsComplete(s: State)
    requires PipeInv(s) && Finished(s) && s.orderly && !s.c.waitFailed
    ensures |s.ring.delivered| == |s.ring.claims|
    ensures s.c.rendered == ValidOnly(s.ring.delivered)
    ensures s.c.reported == s.ring.droppedEvents
  {
  }
}
