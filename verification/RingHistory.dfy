/** Numbering, conservation and progress of the ring, and the safety theorems over all runs. */
module RingHistory {
  import opened Bytes
  import opened EventCodec
  import opened TraceRing
  import opened RingSafety

  /** Numbered, but neither claimed nor counted as dropped. */
  predicate InFlight(pc: Producer) { pc.Numbered? || pc.Positioned? || pc.Claiming? || pc.Dropping? }

  function InFlightSet(r: Ring): set<Pid> { set p | p in r.producers && InFlight(r.producers[p]) }

  predicate Stamped(event: Wire, number: nat) {
    HeaderOk(event) && event[12..16] == LittleEndian(number, 4)
  }

  predicate ClaimsNumbered(r: Ring) {
    && (forall i :: 0 <= i < |r.claims| ==>
          1 <= r.claims[i].number <= r.eventSequence && Stamped(r.claims[i].event, r.claims[i].number))
    && (forall i, j :: 0 <= i < j < |r.claims| ==>
          && r.claims[i].number != r.claims[j].number
          && (r.claims[i].producer == r.claims[j].producer ==> r.claims[i].number < r.claims[j].number))
  }

  predicate WorkNumbered(r: Ring, p: Pid, w: Work) {
    && 1 <= w.number <= r.eventSequence && Stamped(w.event, w.number)
    && (forall i :: 0 <= i < |r.claims| ==>
          && r.claims[i].number != w.number
          && (r.claims[i].producer == p ==> r.claims[i].number < w.number))
  }

  predicate FlightNumbered(r: Ring) {
    && (forall p :: p in r.producers && InFlight(r.producers[p]) ==> WorkNumbered(r, p, r.producers[p].work))
    && (forall p, o | p in r.producers && o in r.producers && p != o ::
          InFlight(r.producers[p]) && InFlight(r.producers[o]) ==>
            r.producers[p].work.number != r.producers[o].work.number)
  }

  predicate EntrantsOk(r: Ring) {
    forall p :: p in r.producers && r.producers[p].Entered? ==> HeaderOk(r.producers[p].accepted)
  }

  predicate Conserved(r: Ring) {
    r.eventSequence == r.enqueuePosition + r.droppedEvents + |InFlightSet(r)|
  }

  predicate Numbers(r: Ring) {
    ClaimsNumbered(r) && FlightNumbered(r) && EntrantsOk(r) && Conserved(r)
  }

  lemma StampKeepsHeader(e: Wire, number: nat)
    requires HeaderOk(e)
    ensures Stamped(Stamp(e, number), number)
  {
    assert Stamp(e, number)[12..16] == LittleEndian(number, 4);
  }

  lemma CountStep(before: set<Pid>, after: set<Pid>, p: Pid)
    requires after - {p} == before - {p}
    ensures |after| - |before| == (if p in after then 1 else 0) - (if p in before then 1 else 0)
  {
    assert before == if p in before then (before - {p}) + {p} else before - {p};
    assert after == if p in after then (after - {p}) + {p} else after - {p};
  }

  lemma InFlightStep(r: Ring, r': Ring, p: Pid)
    requires r'.producers == r.producers[p := r'.Producer(p)]
    ensures |InFlightSet(r')| - |InFlightSet(r)| ==
      (if InFlight(r'.Producer(p)) then 1 else 0) - (if InFlight(r.Producer(p)) then 1 else 0)
  {
    CountStep(InFlightSet(r), InFlightSet(r'), p);
  }

  lemma NumberingStep(r: Ring, r': Ring, p: Pid)
    requires Shape(r) && Numbers(r) && ProducerNext(r, r', p) && r.Producer(p).Entered?
    ensures Numbers(r')
  {
    var pc := r.Producer(p);
    StampKeepsHeader(pc.accepted, r.eventSequence + 1);
    InFlightStep(r, r', p);
    assert WorkNumbered(r', p, r'.Producer(p).work);
    forall x | x in r'.producers && InFlight(r'.producers[x]) ensures WorkNumbered(r', x, r'.producers[x].work) {
      if x != p { assert WorkNumbered(r, x, r.producers[x].work); }
    }
  }

  lemma ClaimNumbered(r: Ring, r': Ring, p: Pid, w: Work)
    requires ClaimsNumbered(r) && WorkNumbered(r, p, w)
    requires r'.eventSequence == r.eventSequence
    requires r'.claims == r.claims + [Claim(p, w.number, w.event)]
    ensures ClaimsNumbered(r')
  {
  }

  lemma OthersNumbered(r: Ring, r': Ring, p: Pid, w: Work, x: Pid, v: Work)
    requires WorkNumbered(r, x, v) && x != p && v.number != w.number
    requires r'.eventSequence == r.eventSequence
    requires r'.claims == r.claims + [Claim(p, w.number, w.event)]
    ensures WorkNumbered(r', x, v)
  {
  }

  lemma ClaimStep(r: Ring, r': Ring, p: Pid)
    requires Shape(r) && Numbers(r) && ProducerNext(r, r', p)
    requires r.Producer(p).Claiming? && r.enqueuePosition == r.Producer(p).position
    ensures Numbers(r')
  {
    var w := r.Producer(p).work;
    InFlightStep(r, r', p);
    ClaimNumbered(r, r', p, w);
    forall x | x in r'.producers && InFlight(r'.producers[x]) ensures WorkNumbered(r', x, r'.producers[x].work) {
      assert WorkNumbered(r, x, r.producers[x].work);
      OthersNumbered(r, r', p, w, x, r.producers[x].work);
    }
  }

  /** Steps that neither number nor claim. */
  lemma OtherProducerStep(r: Ring, r': Ring, p: Pid)
    requires Shape(r) && Numbers(r)
    requires r'.claims == r.claims && r'.eventSequence == r.eventSequence && r'.enqueuePosition == r.enqueuePosition
    requires r'.producers == r.producers[p := r'.Producer(p)]
    requires r'.Producer(p).Entered? ==> HeaderOk(r'.Producer(p).accepted)
    requires InFlight(r'.Producer(p)) ==>
      InFlight(r.Producer(p)) && r'.Producer(p).work.number == r.Producer(p).work.number
      && r'.Producer(p).work.event == r.Producer(p).work.event
    requires r'.droppedEvents - r.droppedEvents ==
      if InFlight(r.Producer(p)) && !InFlight(r'.Producer(p)) then 1 else 0
    ensures Numbers(r')
  {
    InFlightStep(r, r', p);
    forall x | x in r'.producers && InFlight(r'.producers[x]) ensures WorkNumbered(r', x, r'.producers[x].work) {
      assert WorkNumbered(r, x, r.producers[x].work);
    }
  }

  lemma CopyingStep(r: Ring, r': Ring, p: Pid)
    requires Shape(r) && Numbers(r) && ProducerNext(r, r', p) && r.Producer(p).Copying?
    ensures Numbers(r')
  {
    CopyingMoves(r, r', p);
    OtherProducerStep(r, r', p);
  }

  /** Copying and publishing touch a slot and the producer's own state, and no counter. */
  lemma CopyingMoves(r: Ring, r': Ring, p: Pid)
    requires ProducerNext(r, r', p) && r.Producer(p).Copying?
    ensures !InFlight(r'.Producer(p)) && !InFlight(r.Producer(p)) && !r'.Producer(p).Entered?
    ensures r'.claims == r.claims && r'.eventSequence == r.eventSequence && r'.enqueuePosition == r.enqueuePosition
    ensures r'.producers == r.producers[p := r'.Producer(p)] && r'.droppedEvents == r.droppedEvents
  {
  }

  lemma QuietProducerStep(r: Ring, r': Ring, p: Pid)
    requires Shape(r) && Numbers(r) && ProducerNext(r, r', p)
    requires
      var pc := r.Producer(p);
      pc.Published? || pc.Signalling? || pc.Resetting?
    ensures Numbers(r')
  {
    assert !InFlight(r'.Producer(p)) && !r'.Producer(p).Entered?;
    OtherProducerStep(r, r', p);
  }

  lemma LoopProducerStep(r: Ring, r': Ring, p: Pid)
    requires Shape(r) && Numbers(r) && ProducerNext(r, r', p)
    requires
      var pc := r.Producer(p);
      pc.Idle? || pc.Numbered? || pc.Positioned? || pc.Dropping?
      || (pc.Claiming? && r.enqueuePosition != pc.position)
    ensures Numbers(r')
  {
    OtherProducerStep(r, r', p);
  }

  lemma ProducerNumbers(r: Ring, r': Ring, p: Pid)
    requires Shape(r) && Numbers(r) && ProducerNext(r, r', p)
    ensures Numbers(r')
  {
    var pc := r.Producer(p);
    if pc.Entered? {
      NumberingStep(r, r', p);
    } else if pc.Claiming? && r.enqueuePosition == pc.position {
      ClaimStep(r, r', p);
    } else if pc.Copying? {
      CopyingStep(r, r', p);
    } else if pc.Published? || pc.Signalling? || pc.Resetting? {
      QuietProducerStep(r, r', p);
    } else {
      LoopProducerStep(r, r', p);
    }
  }

  lemma KeepsNumbers(r: Ring, r': Ring)
    requires Numbers(r)
    requires r'.producers == r.producers && r'.claims == r.claims && r'.eventSequence == r.eventSequence
    requires r'.enqueuePosition == r.enqueuePosition && r'.droppedEvents == r.droppedEvents
    ensures Numbers(r')
  {
    assert InFlightSet(r') == InFlightSet(r);
    forall x | x in r'.producers && InFlight(r'.producers[x]) ensures WorkNumbered(r', x, r'.producers[x].work) {
      assert WorkNumbered(r, x, r.producers[x].work);
    }
  }

  lemma NextNumbers(r: Ring, r': Ring, a: Actor)
    requires Shape(r) && Numbers(r) && Next(r, r', a)
    ensures Numbers(r')
  {
    if a.ByProducer? {
      ProducerNumbers(r, r', a.p);
    } else {
      if a.ByReader? { TryFrame(r, r'); }
      KeepsNumbers(r, r');
    }
  }

  // ---------------------------------------------------------------- runs

  ghost predicate IsRun(states: seq<Ring>, actors: seq<Actor>) {
    && |states| == |actors| + 1
    && Init(states[0])
    && forall i :: 0 <= i < |actors| ==> Next(states[i], states[i + 1], actors[i])
  }

  ghost predicate Reachable(r: Ring) {
    exists states, actors :: IsRun(states, actors) && states[|actors|] == r
  }

  lemma {:induction false} RunInv(states: seq<Ring>, actors: seq<Actor>, i: nat)
    requires IsRun(states, actors) && i < |states|
    ensures Inv(states[i]) && Numbers(states[i])
  {
    if i == 0 {
      InitInv(states[0]);
      assert InFlightSet(states[0]) == {};
    } else {
      RunInv(states, actors, i - 1);
      NextInv(states[i - 1], states[i], actors[i - 1]);
      NextNumbers(states[i - 1], states[i], actors[i - 1]);
    }
  }

  lemma ReachableInv(r: Ring)
    requires Reachable(r)
    ensures Inv(r) && Numbers(r)
  {
    var states, actors :| IsRun(states, actors) && states[|actors|] == r;
    RunInv(states, actors, |actors|);
  }

  // ---------------------------------------------------------------- theorems

  /** No loss, no duplicate, no reordering, no tear: the i-th event delivered is the i-th event claimed. */
  lemma DeliveredIsPrefixOfClaims(r: Ring)
    requires Reachable(r)
    ensures |r.delivered| <= |r.claims| == r.enqueuePosition
    ensures forall i :: 0 <= i < |r.delivered| ==>
      && HeaderOk(r.claims[i].event)
      && r.delivered[i][..Size(r.claims[i].event)] == r.claims[i].event[..Size(r.claims[i].event)]
      && IsValidTraceEvent(r.delivered[i]) == IsValidTraceEvent(r.claims[i].event)
      && (IsValidTraceEvent(r.claims[i].event) ==> Meaning(r.delivered[i]) == Meaning(r.claims[i].event))
  {
    ReachableInv(r);
    forall i | 0 <= i < |r.delivered|
      ensures
        && HeaderOk(r.claims[i].event)
        && r.delivered[i][..Size(r.claims[i].event)] == r.claims[i].event[..Size(r.claims[i].event)]
        && IsValidTraceEvent(r.delivered[i]) == IsValidTraceEvent(r.claims[i].event)
        && (IsValidTraceEvent(r.claims[i].event) ==> Meaning(r.delivered[i]) == Meaning(r.claims[i].event))
    {
      assert Stamped(r.claims[i].event, r.claims[i].number);
      assert Holds(r.delivered[i], r.claims[i].event);
      StaleTailIsIgnored(r.claims[i].event, r.delivered[i]);
    }
  }

  /** Two copies never meet in one slot, whoever runs them. */
  lemma CopiesAreExclusive(r: Ring, p: Pid)
    requires Reachable(r) && r.Producer(p).Copying?
    ensures |r.slots| >= 2
    ensures forall o :: o != p && r.Producer(o).Copying? ==>
      Index(r.Producer(o).position, |r.slots|) != Index(r.Producer(p).position, |r.slots|)
    ensures r.reader.Copy? ==>
      Index(r.reader.position, |r.slots|) != Index(r.Producer(p).position, |r.slots|)
  {
    ReachableInv(r);
    assert p in r.producers && ProducerOk(r, p);
    if r.reader.Copy? && Index(r.reader.position, |r.slots|) == Index(r.Producer(p).position, |r.slots|) {
      IndexInjective(r.reader.position, r.Producer(p).position, |r.slots|);
    }
    forall o | o != p && r.Producer(o).Copying?
      ensures Index(r.Producer(o).position, |r.slots|) != Index(r.Producer(p).position, |r.slots|)
    {
      assert o in r.producers && ProducerOk(r, o);
    }
  }

  /** Claimed but unreleased events never exceed the capacity; an event is dropped exactly when they fill it. */
  lemma DropOnlyWhenFull(r: Ring, r': Ring, p: Pid)
    requires Reachable(r) && r.Producer(p).Positioned? && ProducerNext(r, r', p)
    ensures Released(r) <= r.enqueuePosition <= Released(r) + |r.slots|
    ensures r'.Producer(p).Dropping? <==>
      && r.Producer(p).position == r.enqueuePosition
      && r.enqueuePosition == Released(r) + |r.slots|
    ensures r'.Producer(p).Numbered? ==> r.Producer(p).position < r.enqueuePosition
  {
    ReachableInv(r);
    assert p in r.producers && ProducerOk(r, p);
    SequenceVerdict(r, r.Producer(p).position);
  }

  /** Every number handed out is accounted for. */
  lemma NumbersAreConserved(r: Ring)
    requires Reachable(r)
    ensures r.eventSequence == r.enqueuePosition + r.droppedEvents + |InFlightSet(r)|
  {
    ReachableInv(r);
  }

  /** The sequence words the reader sees are pairwise distinct, and increase along each thread's events. */
  lemma DeliveredSequences(r: Ring, i: nat, j: nat)
    requires Reachable(r) && r.eventSequence < 0x1_0000_0000
    requires i < j < |r.delivered|
    ensures |r.delivered| <= |r.claims|
    ensures Sequence(r.delivered[i]) == r.claims[i].number
    ensures Sequence(r.delivered[i]) != Sequence(r.delivered[j])
    ensures r.claims[i].producer == r.claims[j].producer ==> Sequence(r.delivered[i]) < Sequence(r.delivered[j])
  {
    ReachableInv(r);
    SequenceDelivered(r, i);
    SequenceDelivered(r, j);
  }

  lemma SequenceDelivered(r: Ring, i: nat)
    requires Inv(r) && Numbers(r) && r.eventSequence < 0x1_0000_0000 && i < |r.delivered|
    ensures Sequence(r.delivered[i]) == r.claims[i].number
  {
    var d, c := r.delivered[i], r.claims[i];
    assert Holds(d, c.event) && Stamped(c.event, c.number);
    assert d[12..16] == d[..Extent(c.event)][12..16] == c.event[..Extent(c.event)][12..16] == c.event[12..16];
    assert Radix(2) == 65536 && Radix(4) == 0x1_0000_0000;
    LittleEndianRoundTrip(c.number, 4);
  }

  /** Lock freedom: a producer retries no more often than others have claimed since it got its number. */
  lemma RetriesAreOthersClaims(r: Ring, p: Pid)
    requires Reachable(r) && (r.Producer(p).Numbered? || r.Producer(p).Positioned? || r.Producer(p).Claiming?)
    ensures r.Producer(p).work.base + r.Producer(p).work.retries <= r.enqueuePosition
  {
    ReachableInv(r);
    assert p in r.producers && ProducerOk(r, p);
  }

  /** A producer left alone leaves the claim loop in its first round. */
  lemma AloneNeverRetries(r0: Ring, r1: Ring, r2: Ring, r3: Ring, p: Pid)
    requires Reachable(r0) && r0.Producer(p).Numbered?
    requires ProducerNext(r0, r1, p)
    requires ProducerNext(r1, r2, p)
    requires ProducerNext(r2, r3, p)
    ensures
      if r0.enqueuePosition == Released(r0) + |r0.slots| then
        r3.Producer(p).Idle? && r3.droppedEvents == r0.droppedEvents + 1 && r3.claims == r0.claims
      else
        && r3.Producer(p).Copying? && r3.enqueuePosition == r0.enqueuePosition + 1
        && r3.claims == r0.claims + [Claim(p, r0.Producer(p).work.number, r0.Producer(p).work.event)]
  {
    ReachableInv(r0);
    ProducerInv(r0, r1, p);
    SequenceVerdict(r1, r1.Producer(p).position);
  }
}
