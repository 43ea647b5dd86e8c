/**
 What every step of the ring keeps: slots are written by one thread at a time, and the reader is handed
 exactly the claimed events, whole and in claim order.
 */
module RingSafety {
  import opened EventCodec
  import opened TraceRing

  /** The buffer holds the event as far as the event's own size goes. */
  predicate Holds(buffer: Wire, event: Wire) {
    buffer[..Extent(event)] == event[..Extent(event)]
  }

  function Extent(event: Wire): nat { if Size(event) <= EVENT_BYTES then Size(event) else EVENT_BYTES }

  /** The slots the reader has given back. */
  function Released(r: Ring): nat { |r.delivered| }

  /** `released` runs one ahead of `dequeuePosition` while the reader is between its last two stores. */
  predicate Shape(r: Ring) {
    && |r.slots| >= 2
    && r.enqueuePosition == |r.claims|
    && Released(r) <= |r.claims| <= Released(r) + |r.slots|
    && Released(r) == r.dequeuePosition + if r.reader.Advance? then 1 else 0
  }

  predicate CopiesAt(r: Ring, p: Pid, q: nat) {
    r.Producer(p).Copying? && r.Producer(p).position == q
  }

  /** The slot of position `q`, for `q` in the current lap: free, being filled by its claimer, or published whole. */
  predicate SlotOk(r: Ring, q: nat)
    requires Shape(r)
  {
    var s := r.Slot(q);
    if q < |r.claims| then
      || (s.sequence == q && CopiesAt(r, r.claims[q].producer, q))
      || (s.sequence == q + 1 && Holds(s.event, r.claims[q].event))
    else
      s.sequence == q
  }

  predicate SlotsOk(r: Ring)
    requires Shape(r)
  {
    forall q :: Released(r) <= q < Released(r) + |r.slots| ==> SlotOk(r, q)
  }

  predicate ProducerOk(r: Ring, p: Pid)
    requires Shape(r)
  {
    match r.Producer(p)
    case Numbered(w) => w.base + w.retries <= r.enqueuePosition
    case Positioned(w, position) => w.base + w.retries <= position <= r.enqueuePosition
    case Claiming(w, position) =>
      && w.base + w.retries <= position <= r.enqueuePosition
      && position < Released(r) + |r.slots|
    case Copying(w, position, k) =>
      && Released(r) <= position < |r.claims|
      && r.claims[position] == Claim(p, w.number, w.event)
      && r.Slot(position).sequence == position
      && k <= Extent(w.event)
      && r.Slot(position).event[..k] == w.event[..k]
    case _ => true
  }

  predicate ProducersOk(r: Ring)
    requires Shape(r)
  {
    forall p :: p in r.producers ==> ProducerOk(r, p)
  }

  predicate ReaderOk(r: Ring)
    requires Shape(r)
  {
    match r.reader
    case Out => true
    case At(position) => position == r.dequeuePosition
    case Copy(position, buffer) =>
      && position == r.dequeuePosition < |r.claims|
      && r.Slot(position).sequence == position + 1
      && |buffer| <= EVENT_BYTES
      && buffer == r.Slot(position).event[..|buffer|]
    case Advance(position, event) =>
      position == r.dequeuePosition && event == r.delivered[position]
  }

  /** The i-th event handed over is the i-th claimed one. */
  predicate DeliveredOk(r: Ring)
    requires Shape(r)
  {
    forall i :: 0 <= i < |r.delivered| ==> Holds(r.delivered[i], r.claims[i].event)
  }

  predicate Inv(r: Ring) {
    Shape(r) && SlotsOk(r) && ProducersOk(r) && ReaderOk(r) && DeliveredOk(r)
  }

  lemma InitInv(r: Ring)
    requires Init(r)
    ensures Inv(r)
  {
  }

  // ---------------------------------------------------------------- where a position can point

  /** The position of the current lap that shares its slot with `q`. */
  lemma LapPosition(r: Ring, q: nat) returns (home: nat)
    requires Shape(r) && q <= Released(r) + |r.slots|
    ensures Index(home, |r.slots|) == Index(q, |r.slots|)
    ensures Released(r) <= home < Released(r) + |r.slots|
    ensures q == Released(r) + |r.slots| ==> home == Released(r)
    ensures Released(r) <= q < Released(r) + |r.slots| ==> home == q
    ensures q < Released(r) ==> home >= q + |r.slots|
  {
    var n := |r.slots|;
    if q == Released(r) + n {
      home := Released(r);
      IndexPeriod(home, n);
    } else if Released(r) <= q {
      home := q;
    } else {
      home := LapUp(q, n, Released(r));
    }
  }

  lemma LapUp(q: nat, n: nat, from: nat) returns (home: nat)
    requires n > 0 && q < from
    ensures Index(home, n) == Index(q, n) && from <= home < from + n && home >= q + n
    decreases from - q
  {
    IndexPeriod(q, n);
    if q + n >= from {
      home := q + n;
    } else {
      home := LapUp(q + n, n, from);
    }
  }

  /** What a producer learns from a slot's sequence word: free, full ring, or a stale position. */
  lemma SequenceVerdict(r: Ring, position: nat)
    requires Inv(r) && position <= r.enqueuePosition
    ensures
      var sequence, full := r.Slot(position).sequence, Released(r) + |r.slots|;
      && (sequence < position <==> position == full)
      && (sequence == position ==> position < full)
      && (sequence > position ==> position < r.enqueuePosition)
  {
    var home := LapPosition(r, position);
    assert SlotOk(r, home);
  }

  // ---------------------------------------------------------------- preservation, producers

  /** A step that leaves slots, claims and the reader's side alone keeps them in order. */
  lemma KeepsSlots(r: Ring, r': Ring, p: Pid)
    requires Inv(r) && Shape(r')
    requires r'.slots == r.slots && r'.claims == r.claims && r'.delivered == r.delivered
    requires r'.reader == r.reader && r'.dequeuePosition == r.dequeuePosition
    requires r'.producers == r.producers[p := r'.Producer(p)]
    requires !r.Producer(p).Copying? && ProducerOk(r', p)
    ensures Inv(r')
  {
    forall q | Released(r') <= q < Released(r') + |r'.slots| ensures SlotOk(r', q) {
      assert SlotOk(r, q);
    }
    forall x | x in r'.producers ensures ProducerOk(r', x) {
      if x != p { assert x in r.producers && ProducerOk(r, x); }
    }
  }

  lemma ClaimInv(r: Ring, r': Ring, p: Pid)
    requires Inv(r) && ProducerNext(r, r', p)
    requires r.Producer(p).Claiming? && r.enqueuePosition == r.Producer(p).position
    ensures Inv(r')
  {
    var position := r.enqueuePosition;
    assert p in r.producers && ProducerOk(r, p);
    assert SlotOk(r, position);
    forall q | Released(r') <= q < Released(r') + |r'.slots| ensures SlotOk(r', q) {
      assert SlotOk(r, q);
    }
    forall x | x in r'.producers ensures ProducerOk(r', x) {
      if x != p { assert x in r.producers && ProducerOk(r, x); }
    }
  }

  /** A store into the slot of a position being filled touches no other position of the lap. */
  lemma StoreInv(r: Ring, r': Ring, p: Pid, s: Slot)
    requires Inv(r) && r.Producer(p).Copying?
    requires
      var position := r.Producer(p).position;
      && r' == r.PutSlot(position, s).Put(p, r'.Producer(p))
      && SlotOk(r', position) && ProducerOk(r', p)
    ensures Inv(r')
  {
    var position, n := r.Producer(p).position, |r.slots|;
    assert p in r.producers && ProducerOk(r, p);
    forall q | Released(r) <= q < Released(r) + n && q != position
      ensures r'.Slot(q) == r.Slot(q) && SlotOk(r', q)
    {
      assert SlotOk(r, q);
      if q < position && Index(q, n) == Index(position, n) {
        IndexInjective(q, position, n);
      }
    }
    forall x | x in r'.producers ensures ProducerOk(r', x) {
      if x != p { assert x in r.producers && ProducerOk(r, x); }
    }
    assert Shape(r') && SlotsOk(r');
    assert ReaderOk(r');
  }

  /** One more byte of the payload. */
  lemma CopyByteInv(r: Ring, r': Ring, p: Pid)
    requires Inv(r) && ProducerNext(r, r', p) && r.Producer(p).Copying?
    requires r.Producer(p).copied < Size(r.Producer(p).work.event) && r.Producer(p).copied < EVENT_BYTES
    ensures Inv(r')
  {
    var pc := r.Producer(p);
    assert p in r.producers && ProducerOk(r, p);
    var e, k, slot := pc.work.event, pc.copied, r.Slot(pc.position);
    var s := slot.(event := slot.event[k := e[k]]);
    assert s.event[..k + 1] == slot.event[..k] + [e[k]];
    assert e[..k + 1] == e[..k] + [e[k]];
    StoreInv(r, r', p, s);
  }

  lemma CopyInv(r: Ring, r': Ring, p: Pid)
    requires Inv(r) && ProducerNext(r, r', p) && r.Producer(p).Copying?
    ensures Inv(r')
  {
    var pc := r.Producer(p);
    if pc.copied < Size(pc.work.event) && pc.copied < EVENT_BYTES {
      CopyByteInv(r, r', p);
    } else {
      assert p in r.producers && ProducerOk(r, p);
      StoreInv(r, r', p, r.Slot(pc.position).(sequence := pc.position + 1));
    }
  }

  lemma PositionedInv(r: Ring, r': Ring, p: Pid)
    requires Inv(r) && ProducerNext(r, r', p) && r.Producer(p).Positioned?
    ensures Inv(r')
  {
    assert ProducerOk(r, p);
    SequenceVerdict(r, r.Producer(p).position);
    KeepsSlots(r, r', p);
  }

  lemma ClaimingInv(r: Ring, r': Ring, p: Pid)
    requires Inv(r) && ProducerNext(r, r', p) && r.Producer(p).Claiming?
    ensures Inv(r')
  {
    assert ProducerOk(r, p);
    if r.enqueuePosition == r.Producer(p).position { ClaimInv(r, r', p); } else { KeepsSlots(r, r', p); }
  }

  lemma NumberingInv(r: Ring, r': Ring, p: Pid)
    requires Inv(r) && ProducerNext(r, r', p)
    requires r.Producer(p).Idle? || r.Producer(p).Entered? || r.Producer(p).Numbered? || r.Producer(p).Dropping?
    ensures Inv(r')
  {
    if p in r.producers { assert ProducerOk(r, p); }
    KeepsSlots(r, r', p);
  }

  lemma SignallingInv(r: Ring, r': Ring, p: Pid)
    requires Inv(r) && ProducerNext(r, r', p)
    requires r.Producer(p).Published? || r.Producer(p).Signalling? || r.Producer(p).Resetting?
    ensures Inv(r')
  {
    assert r'.Producer(p).Idle? || r'.Producer(p).Signalling? || r'.Producer(p).Resetting?;
    KeepsSlots(r, r', p);
  }

  lemma ProducerInv(r: Ring, r': Ring, p: Pid)
    requires Inv(r) && ProducerNext(r, r', p)
    ensures Inv(r')
  {
    var pc := r.Producer(p);
    if pc.Copying? { CopyInv(r, r', p); }
    else if pc.Positioned? { PositionedInv(r, r', p); }
    else if pc.Claiming? { ClaimingInv(r, r', p); }
    else if pc.Published? || pc.Signalling? || pc.Resetting? { SignallingInv(r, r', p); }
    else { NumberingInv(r, r', p); }
  }

  // ---------------------------------------------------------------- preservation, reader and the rest

  /** Giving a slot back moves the lap up by one position. */
  lemma ReleaseInv(r: Ring, r': Ring)
    requires Inv(r) && ReaderNext(r, r')
    requires r.reader.Copy? && |r.reader.buffer| == EVENT_BYTES
    ensures Inv(r')
  {
    var position, n := r.reader.position, |r.slots|;
    assert SlotOk(r, position);
    assert r.reader.buffer == r.Slot(position).event;
    IndexPeriod(position, n);
    assert SlotOk(r', position + n);
    forall q | Released(r') <= q < Released(r') + n ensures SlotOk(r', q) {
      if q < position + n {
        if Index(q, n) == Index(position, n) { IndexInjective(position, q, n); }
        assert SlotOk(r, q);
      }
    }
    forall x | x in r'.producers ensures ProducerOk(r', x) {
      assert ProducerOk(r, x);
      if r.Producer(x).Copying? {
        var at := r.Producer(x).position;
        if Index(at, n) == Index(position, n) { IndexInjective(position, at, n); }
      }
    }
  }

  /** Steps that touch neither slots nor producers. */
  lemma KeepsProducers(r: Ring, r': Ring)
    requires Inv(r) && Shape(r') && ReaderOk(r')
    requires r'.slots == r.slots && r'.claims == r.claims && r'.delivered == r.delivered
    requires r'.producers == r.producers && r'.enqueuePosition == r.enqueuePosition
    ensures Inv(r')
  {
    forall q | Released(r') <= q < Released(r') + |r'.slots| ensures SlotOk(r', q) { assert SlotOk(r, q); }
    forall x | x in r'.producers ensures ProducerOk(r', x) { assert ProducerOk(r, x); }
  }

  lemma ReaderInv(r: Ring, r': Ring)
    requires Inv(r) && ReaderNext(r, r')
    ensures Inv(r')
  {
    if r.reader.Copy? && |r.reader.buffer| == EVENT_BYTES {
      ReleaseInv(r, r');
    } else {
      if r.reader.At? { assert SlotOk(r, r.reader.position); }
      KeepsProducers(r, r');
    }
  }

  lemma NextInv(r: Ring, r': Ring, a: Actor)
    requires Inv(r) && Next(r, r', a)
    ensures Inv(r')
  {
    match a
    case ByProducer(p) => ProducerInv(r, r', p);
    case ByReader => ReaderInv(r, r');
    case _ => KeepsProducers(r, r');
  }

  /** What no step inside TryReadRing touches, and what it adds. */
  predicate TrySame(r: Ring, r': Ring) {
    && r'.producers == r.producers && r'.claims == r.claims && r'.droppedEvents == r.droppedEvents
    && r'.wakePending == r.wakePending && r'.wakeSignal == r.wakeSignal
    && r'.configured == r.configured && r'.closed == r.closed
    && r'.delivered == r.delivered + (if r'.reader.Advance? then [r'.reader.event] else [])
  }

  lemma TryFrame(r: Ring, r': Ring)
    requires ReaderNext(r, r')
    ensures TrySame(r, r')
  {
  }

  /** A producer that won the exchange of wakePending and has not finished what follows from it. */
  predicate WakeDuty(pc: Producer) { pc.Signalling? || pc.Resetting? }

  // ---------------------------------------------------------------- frames of the ring's steps

  /** What no producer step touches. */
  predicate ConsumerSame(r: Ring, r': Ring) {
    && r'.reader == r.reader && r'.delivered == r.delivered && r'.dequeuePosition == r.dequeuePosition
    && r'.configured == r.configured && r'.closed == r.closed && |r'.slots| == |r.slots|
    && r'.droppedEvents >= r.droppedEvents
  }

  /** A step of `p` claims at most one position, and only for `p`. */
  predicate ClaimsAtMostOne(r: Ring, r': Ring, p: Pid) {
    || (r'.claims == r.claims && r'.enqueuePosition == r.enqueuePosition)
    || (&& r.Producer(p).Claiming? && r'.enqueuePosition == r.enqueuePosition + 1
        && r'.claims == r.claims + [Claim(p, r.Producer(p).work.number, r.Producer(p).work.event)])
  }

  lemma EarlyFrame(r: Ring, r': Ring, p: Pid)
    requires ProducerNext(r, r', p)
    requires
      var pc := r.Producer(p);
      pc.Idle? || pc.Entered? || pc.Numbered? || pc.Positioned? || pc.Claiming? || pc.Dropping?
    ensures ConsumerSame(r, r') && ClaimsAtMostOne(r, r', p) && r'.producers == r.producers[p := r'.Producer(p)]
    ensures r.closed ==> !r.Producer(p).Idle?
    ensures r'.slots == r.slots && r'.wakePending == r.wakePending && r'.wakeSignal == r.wakeSignal
    ensures !r'.Producer(p).Published? && !WakeDuty(r'.Producer(p))
  {
  }

  lemma CopyFrame(r: Ring, r': Ring, p: Pid)
    requires ProducerNext(r, r', p) && r.Producer(p).Copying?
    ensures ConsumerSame(r, r') && ClaimsAtMostOne(r, r', p) && r'.producers == r.producers[p := r'.Producer(p)]
    ensures r'.wakePending == r.wakePending && r'.wakeSignal == r.wakeSignal
    ensures r'.Producer(p).Copying? || r'.Producer(p).Published?
    ensures forall q :: r'.Producer(p).Copying? ==> r'.Slot(q).sequence == r.Slot(q).sequence
  {
  }

  lemma PublishedFrame(r: Ring, r': Ring, p: Pid)
    requires ProducerNext(r, r', p) && r.Producer(p).Published?
    ensures ConsumerSame(r, r') && ClaimsAtMostOne(r, r', p) && r'.producers == r.producers[p := r'.Producer(p)]
    ensures r'.slots == r.slots && r'.wakeSignal == r.wakeSignal
    ensures r'.Producer(p).Idle? || r'.Producer(p).Signalling?
    ensures r.configured ==> r'.wakePending && (!r.wakePending ==> r'.Producer(p).Signalling?)
    ensures !r.configured ==> r'.wakePending == r.wakePending
  {
  }

  lemma DutyFrame(r: Ring, r': Ring, p: Pid)
    requires ProducerNext(r, r', p) && WakeDuty(r.Producer(p))
    ensures ConsumerSame(r, r') && ClaimsAtMostOne(r, r', p) && r'.producers == r.producers[p := r'.Producer(p)]
    ensures r'.slots == r.slots
    ensures r'.Producer(p).Idle? || r'.Producer(p).Resetting?
    ensures r.Producer(p).Signalling? ==>
      r'.wakePending == r.wakePending && (r'.wakeSignal || r'.Producer(p).Resetting?)
      && (r.wakeSignal ==> r'.wakeSignal)
    ensures r.Producer(p).Resetting? ==> !r'.wakePending && r'.wakeSignal == r.wakeSignal
  {
  }

  lemma ProducerFrame(r: Ring, r': Ring, p: Pid)
    requires ProducerNext(r, r', p)
    ensures ConsumerSame(r, r') && ClaimsAtMostOne(r, r', p) && r'.producers == r.producers[p := r'.Producer(p)]
    ensures r.closed ==> !r.Producer(p).Idle?
  {
    var pc := r.Producer(p);
    if pc.Copying? { CopyFrame(r, r', p); }
    else if pc.Published? { PublishedFrame(r, r', p); }
    else if WakeDuty(pc) { DutyFrame(r, r', p); }
    else { EarlyFrame(r, r', p); }
  }
}
