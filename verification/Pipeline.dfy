/**
 The consumer around the ring: the reader thread's loop, the bounded queue behind its mutex and two
 condition variables, the writer thread's loop, and the wake and stop events. Each interlocked
 operation, each critical section, each notification and each wait is one step.
 */
module Pipeline {
  import opened EventCodec
  import opened TraceRing

  const QUEUE_CAPACITY := 4096
  const READ_BATCH := 256

  /** Which of the two TryReadRing calls of the loop is running; `read` is eventsRead. */
  datatype Mode = Batch(read: nat) | Raced

  /** Where the reader thread stands in ReaderLoop. */
  datatype Loop =
    | Head(read: nat)
    | Trying(mode: Mode)
    | Checking(mode: Mode, event: Wire)
    | Locking(mode: Mode, event: Wire)
    | Sleeping(mode: Mode, event: Wire)
    | Notifying(mode: Mode)
    | Reporting(read: nat)
    | Clearing
    | Waiting
    | Finishing
    | NotifyingAll
    | Done

  /** Where the writer thread stands in WriterLoop. */
  datatype Writer =
    | WriterLocking
    | WriterSleeping
    | WriterNotifying(event: Wire)
    | Rendering(event: Wire)
    | Exited

  /** The controller's own memory: both threads' program counters, the queue and the flags. */
  datatype Control = Control(
    loop: Loop,
    stopping: bool,
    waitFailed: bool,
    reported: nat,
    stopSignal: bool,
    queue: seq<Wire>,
    readerFinished: bool,
    writer: Writer,
    rendered: seq<Wire>)

  /**
   The whole system. `reset` says that a failed NtSetEvent took `wakePending` back while nothing was
   signalled, and that neither a signal nor the reader's own clearing has come since; `orderly` says that
   no producer could run any more when the stop event was set. Both only record history.
   */
  datatype State = State(ring: Ring, c: Control, reset: bool, orderly: bool)

  predicate Start(s: State) {
    && Init(s.ring)
    && s.c == Control(Head(0), false, false, 0, false, [], false, WriterLocking, [])
    && !s.reset && !s.orderly
  }

  /** Where the loop goes once an event has been dealt with. */
  function After(mode: Mode): Loop { match mode case Batch(n) => Head(n) case Raced => Head(0) }

  /** Where the loop goes when TryReadRing finds nothing. */
  function Miss(mode: Mode, stopping: bool): Loop {
    match mode
    case Batch(n) => Reporting(n)
    case Raced => if stopping then Finishing else Waiting
  }

  function Hit(mode: Mode, event: Wire): Loop {
    Checking(match mode case Batch(n) => Batch(n + 1) case Raced => Raced, event)
  }

  /** notify_one or notify_all on queueNotEmpty_: only the writer can be asleep there. */
  function WakeWriter(w: Writer): Writer { if w.WriterSleeping? then WriterLocking else w }

  /** notify_one on queueNotFull_: only the reader can be asleep there. */
  function WakeReader(l: Loop): Loop { if l.Sleeping? then Locking(l.mode, l.event) else l }

  /** What a reader step learns from the shared memory. */
  datatype Observation =
    | Nothing
    | Missed
    | Took(event: Wire)
    | DropCount(count: nat)
    | WakeSignalled
    | WakeUnsignalled
    | WaitError

  /** The shared-memory half of a reader step. */
  predicate Observes(r: Ring, r': Ring, loop: Loop, o: Observation) {
    match loop
    case Trying(_) =>
      && Next(r, r', ByReader)
      && o == (match r.reader
               case At(_) => if r'.reader.Out? then Missed else Nothing
               case Advance(_, e) => Took(e)
               case _ => Nothing)
    case Reporting(_) => r' == r && o == DropCount(r.droppedEvents)
    case Clearing => Next(r, r', ClearWake) && o == Nothing
    case Waiting =>
      || (r.wakeSignal && Next(r, r', TakeSignal) && o == WakeSignalled)
      || (!r.wakeSignal && r' == r && o == WakeUnsignalled)
      || (r' == r && o == WaitError)
    case _ => r' == r && o == Nothing
  }

  /** The controller half of a reader step; asleep, or waiting with nothing signalled, it has none. */
  ghost predicate ReaderStep(c: Control, c': Control, o: Observation) {
    match c.loop
    case Head(n) => c' == c.(loop := if n < READ_BATCH then Trying(Batch(n)) else Reporting(n))
    case Trying(mode) =>
      c' == c.(loop := if o.Missed? then Miss(mode, c.stopping) else if o.Took? then Hit(mode, o.event) else c.loop)
    case Checking(mode, e) => c' == c.(loop := if IsValidTraceEvent(e) then Locking(mode, e) else After(mode))
    case Locking(mode, e) =>
      c' == if |c.queue| < QUEUE_CAPACITY then c.(queue := c.queue + [e], loop := Notifying(mode))
            else c.(loop := Sleeping(mode, e))
    case Sleeping(_, _) => false
    case Notifying(mode) => c' == c.(writer := WakeWriter(c.writer), loop := After(mode))
    case Reporting(n) =>
      o.DropCount? &&
      c' == c.(reported := if o.count > c.reported then o.count else c.reported,
               loop := if n != 0 then Head(0) else Clearing)
    case Clearing => c' == c.(loop := Trying(Raced))
    case Waiting =>
      if o.WaitError? then c' == c.(waitFailed := true, loop := Finishing)
      else if o.WakeSignalled? then c' == c.(loop := Head(0))
      else c.stopSignal && c' == c.(stopping := true, loop := Head(0))
    case Finishing => c' == c.(readerFinished := true, loop := NotifyingAll)
    case NotifyingAll => c' == c.(writer := WakeWriter(c.writer), loop := Done)
    case Done => false
  }

  predicate WriterStep(c: Control, c': Control) {
    match c.writer
    case WriterLocking =>
      c' == if c.queue != [] then c.(queue := c.queue[1..], writer := WriterNotifying(c.queue[0]))
            else c.(writer := if c.readerFinished then Exited else WriterSleeping)
    case WriterSleeping => false
    case WriterNotifying(e) => c' == c.(loop := WakeReader(c.loop), writer := Rendering(e))
    case Rendering(e) => c' == c.(rendered := c.rendered + [e], writer := WriterLocking)
    case Exited => false
  }

  datatype Party =
    | OfProducer(p: Pid)
    | OfReader(o: Observation)
    | OfWriter
    | Stop
    | NoMoreProducers
    | SpuriousReader
    | SpuriousWriter

  ghost predicate Step(s: State, s': State, a: Party) {
    match a
    case OfProducer(p) =>
      Next(s.ring, s'.ring, ByProducer(p)) && s'.c == s.c && s'.orderly == s.orderly
      && s'.reset == ((s.reset || s.ring.Producer(p).Resetting?) && !s'.ring.wakeSignal)
    case OfReader(o) =>
      Observes(s.ring, s'.ring, s.c.loop, o) && ReaderStep(s.c, s'.c, o) && s'.orderly == s.orderly
      && s'.reset == (s.reset && !s.c.loop.Clearing?)
    case OfWriter =>
      s'.ring == s.ring && WriterStep(s.c, s'.c) && s'.reset == s.reset && s'.orderly == s.orderly
    case Stop =>
      s'.ring == s.ring && s'.c == s.c.(stopSignal := true) && s'.reset == s.reset
      && s'.orderly == if s.c.stopSignal then s.orderly else s.ring.closed
    case NoMoreProducers =>
      Next(s.ring, s'.ring, Close) && s'.c == s.c && s'.reset == s.reset && s'.orderly == s.orderly
    case SpuriousReader =>
      s.c.loop.Sleeping? && s' == s.(c := s.c.(loop := WakeReader(s.c.loop)))
    case SpuriousWriter =>
      s.c.writer.WriterSleeping? && s' == s.(c := s.c.(writer := WriterLocking))
  }

  ghost predicate IsRun(states: seq<State>, parties: seq<Party>) {
    && |states| == |parties| + 1
    && Start(states[0])
    && forall i :: 0 <= i < |parties| ==> Step(states[i], states[i + 1], parties[i])
  }

  ghost predicate Reachable(s: State) {
    exists states, parties :: IsRun(states, parties) && states[|parties|] == s
  }

  /** Which ring step a step of the system takes, if any. */
  function ActorOf(s: State, a: Party): Actor {
    match a
    case OfProducer(p) => ByProducer(p)
    case NoMoreProducers => Close
    case _ => if s.c.loop.Clearing? then ClearWake else if s.c.loop.Waiting? then TakeSignal else ByReader
  }

  /** On the ring, every step of the system is a ring step or nothing. */
  lemma RingStep(s: State, s': State, a: Party)
    requires Step(s, s', a)
    ensures s'.ring == s.ring || Next(s.ring, s'.ring, ActorOf(s, a))
  {
  }
}
