/**
 The shared trace ring as a step system. Every interlocked operation is one step and both payload
 copies go one byte per step, so a torn read would show up as a wrong byte. Any number of producers
 and one reader interleave freely. Positions and counters do not wrap.
 */
module TraceRing {
  import opened Bytes
  import opened EventCodec

  type Pid = nat

  /** The slot of a position: the position modulo the capacity (a mask in the code, see MaskIsModulo). */
  function Index(q: nat, n: nat): (i: nat)
    requires n > 0
    ensures i < n
  {
    if q < n then q else Index(q - n, n)
  }

  /** One emission in progress; `base` and `retries` only count and steer nothing. */
  datatype Work = Work(number: nat, event: Wire, base: nat, retries: nat)

  /** Where a thread stands inside EmitTraceEvent. */
  datatype Producer =
    | Idle
    | Entered(accepted: Wire)
    | Numbered(work: Work)
    | Positioned(work: Work, position: nat)
    | Claiming(work: Work, position: nat)
    | Dropping(work: Work)
    | Copying(work: Work, position: nat, copied: nat)
    | Published
    | Signalling
    | Resetting

  /** Where the reader stands inside TryReadRing. */
  datatype Reader =
    | Out
    | At(position: nat)
    | Copy(position: nat, buffer: seq<byte>)
    | Advance(position: nat, event: Wire)

  datatype Slot = Slot(sequence: nat, event: Wire)

  datatype Claim = Claim(producer: Pid, number: nat, event: Wire)

  /**
   The shared memory, the program counters, and three history variables: the claims by position, the
   events handed to the reader, and whether producers may still start.
   */
  datatype Ring = Ring(
    configured: bool,
    enqueuePosition: nat,
    dequeuePosition: nat,
    eventSequence: nat,
    droppedEvents: nat,
    wakePending: bool,
    wakeSignal: bool,
    slots: seq<Slot>,
    producers: map<Pid, Producer>,
    reader: Reader,
    closed: bool,
    claims: seq<Claim>,
    delivered: seq<Wire>)
  {
    function Producer(p: Pid): Producer { if p in producers then producers[p] else Idle }

    function Put(p: Pid, pc: Producer): Ring { this.(producers := producers[p := pc]) }

    function Slot(q: nat): Slot
      requires slots != []
    {
      slots[Index(q, |slots|)]
    }

    function PutSlot(q: nat, s: Slot): Ring
      requires slots != []
    {
      this.(slots := slots[Index(q, |slots|) := s])
    }
  }

  function Stamp(e: Wire, number: nat): Wire { Overwrite(e, 12, LittleEndian(number, 4)) }

  predicate Init(r: Ring) {
    && r.enqueuePosition == r.dequeuePosition == r.eventSequence == r.droppedEvents == 0
    && !r.wakePending && !r.wakeSignal && !r.closed
    && |r.slots| >= 2
    && (forall i :: 0 <= i < |r.slots| ==> r.slots[i].sequence == i)
    && r.producers == map[] && r.reader == Out
    && r.claims == [] && r.delivered == []
  }

  function Retry(w: Work): Work { w.(retries := w.retries + 1) }

  /** One step of producer `p`. Only the choice of event and the outcome of NtSetEvent are open. */
  predicate ProducerNext(r: Ring, r': Ring, p: Pid) {
    r.slots != [] &&
    match r.Producer(p)
    case Idle =>
      && r'.Producer(p).Entered? && HeaderOk(r'.Producer(p).accepted)
      && !r.closed && r' == r.Put(p, r'.Producer(p))
    case Entered(e) =>
      var n := r.eventSequence + 1;
      r' == r.(eventSequence := n).Put(p, Numbered(Work(n, Stamp(e, n), r.enqueuePosition, 0)))
    case Numbered(w) =>
      r' == r.Put(p, Positioned(w, r.enqueuePosition))
    case Positioned(w, position) =>
      var sequence := r.Slot(position).sequence;
      r' == r.Put(p,
        if sequence < position then Dropping(w)
        else if sequence == position then Claiming(w, position)
        else Numbered(Retry(w)))
    case Claiming(w, position) =>
      if r.enqueuePosition == position then
        r' == r.(enqueuePosition := position + 1, claims := r.claims + [Claim(p, w.number, w.event)])
               .Put(p, Copying(w, position, 0))
      else
        r' == r.Put(p, Numbered(Retry(w)))
    case Dropping(w) =>
      r' == r.(droppedEvents := r.droppedEvents + 1).Put(p, Idle)
    case Copying(w, position, k) =>
      var s := r.Slot(position);
      if k < Size(w.event) && k < EVENT_BYTES then
        r' == r.PutSlot(position, s.(event := s.event[k := w.event[k]])).Put(p, Copying(w, position, k + 1))
      else
        r' == r.PutSlot(position, s.(sequence := position + 1)).Put(p, Published)
    case Published =>
      if r.configured && !r.wakePending then
        r' == r.(wakePending := true).Put(p, Signalling)
      else
        r' == r.Put(p, Idle)
    case Signalling =>
      r' == r.(wakeSignal := true).Put(p, Idle) || r' == r.Put(p, Resetting)
    case Resetting =>
      r' == r.(wakePending := false).Put(p, Idle)
  }

  /** One step of the reader inside TryReadRing. */
  predicate ReaderNext(r: Ring, r': Ring) {
    r.slots != [] &&
    match r.reader
    case Out => r' == r.(reader := At(r.dequeuePosition))
    case At(position) =>
      r' == r.(reader := if r.Slot(position).sequence != position + 1 then Out else Copy(position, []))
    case Copy(position, buffer) =>
      var s := r.Slot(position);
      if |buffer| < EVENT_BYTES then
        r' == r.(reader := Copy(position, buffer + [s.event[|buffer|]]))
      else
        && |buffer| == EVENT_BYTES
        && r' == r.PutSlot(position, s.(sequence := position + |r.slots|))
                  .(reader := Advance(position, buffer), delivered := r.delivered + [buffer])
    case Advance(position, _) => r' == r.(dequeuePosition := position + 1, reader := Out)
  }

  datatype Actor =
    | ByProducer(p: Pid)
    | ByReader
    | ClearWake
    | TakeSignal
    | Close

  /** The atomic steps of the whole ring; `Close` says that from here on no producer starts. */
  predicate Next(r: Ring, r': Ring, a: Actor) {
    match a
    case ByProducer(p) => ProducerNext(r, r', p)
    case ByReader => ReaderNext(r, r')
    case ClearWake => r.reader.Out? && r' == r.(wakePending := false)
    case TakeSignal => r.wakeSignal && r' == r.(wakeSignal := false)
    case Close => (forall p :: p in r.producers ==> r.producers[p].Idle?) && r' == r.(closed := true)
  }

  // ---------------------------------------------------------------- slot arithmetic

  lemma Times(a: nat, b: nat, n: nat)
    requires a < b
    ensures b * n >= a * n + n
  {
    assert b * n == a * n + n + (b - a - 1) * n;
  }

  lemma RemainderIsUnique(d: nat, m: nat, k: nat, i: nat, n: nat)
    requires m < n && i < n && d * n + m == k * n + i
    ensures m == i
  {
    if d < k { Times(d, k, n); } else if k < d { Times(k, d, n); }
  }

  lemma {:induction false} IndexDecomposes(q: nat, n: nat) returns (k: nat)
    requires n > 0
    ensures q == k * n + Index(q, n)
  {
    if q < n {
      k := 0;
    } else {
      var j := IndexDecomposes(q - n, n);
      k := j + 1;
      assert (j + 1) * n == j * n + n;
    }
  }

  lemma IndexIsModulo(q: nat, n: nat)
    requires n > 0
    ensures Index(q, n) == q % n
  {
    var k := IndexDecomposes(q, n);
    RemainderIsUnique(q / n, q % n, k, Index(q, n), n);
  }

  /** The code masks the position with capacity - 1; for its capacity that is the modulo. */
  lemma MaskIsModulo(position: bv64)
    ensures position & (4096 - 1) == position % 4096
  {
  }

  lemma IndexPeriod(q: nat, n: nat)
    requires n > 0
    ensures Index(q + n, n) == Index(q, n)
  {
  }

  /** Within one lap, positions have slots of their own. */
  lemma {:induction false} IndexInjective(a: nat, b: nat, n: nat)
    requires n > 0 && a <= b < a + n && Index(a, n) == Index(b, n)
    ensures a == b
  {
    if a >= n {
      IndexInjective(a - n, b - n, n);
    }
  }
}
