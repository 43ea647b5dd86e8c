/**
 EmitTraceEvent and TryReadRing as code over the shared memory. Between any two interlocked operations
 the other threads may take any number of steps; every write below is proved to be a step of the ring.
 */
module RingCode {
  import opened Bytes
  import opened EventCodec
  import opened EventBuilder
  import opened TraceRing
  import opened RingSafety
  import RingHistory

  // ---------------------------------------------------------------- what other threads can do

  /** The steps of one thread: a producer's own, or everything the reader thread does to the ring. */
  datatype Thread = Emitting(p: Pid) | Reading

  predicate StepOf(a: Actor, t: Thread) {
    match t
    case Emitting(p) => a == ByProducer(p)
    case Reading => a.ByReader? || a.ClearWake? || a.TakeSignal?
  }

  /** A finite run of the ring: its states, and who took the step between each two. */
  datatype Trace = Trace(states: seq<Ring>, actors: seq<Actor>) {
    ghost predicate IsRun() { RingHistory.IsRun(states, actors) }

    function Last(): Ring
      requires states != []
    {
      states[|states| - 1]
    }

    function Then(r: Ring, a: Actor): Trace { Trace(states + [r], actors + [a]) }

    /** This run goes on from `earlier`. */
    predicate Extends(earlier: Trace) { earlier.states <= states && earlier.actors <= actors }
  }

  lemma RunGoesOn(t: Trace, r: Ring, a: Actor)
    requires t.IsRun() && Next(t.Last(), r, a)
    ensures t.Then(r, a).IsRun() && t.Then(r, a).Last() == r && t.Then(r, a).Extends(t)
  {
    var t' := t.Then(r, a);
    forall i | 0 <= i < |t'.actors| ensures Next(t'.states[i], t'.states[i + 1], t'.actors[i]) {
      if i < |t.actors| {
        assert Next(t.states[i], t.states[i + 1], t.actors[i]);
      }
    }
  }

  lemma RunIsSafe(t: Trace)
    requires t.IsRun()
    ensures Inv(t.Last()) && RingHistory.Reachable(t.Last())
  {
    RingHistory.ReachableInv(t.Last());
  }

  /** The run went on with steps of threads other than `me` only. */
  ghost predicate OthersRan(t: Trace, t': Trace, me: Thread) {
    && t'.IsRun() && t'.Extends(t)
    && forall i :: |t.actors| <= i < |t'.actors| ==> !StepOf(t'.actors[i], me)
  }

  /** The claims of one producer, in order. */
  function ClaimsBy(claims: seq<Claim>, p: Pid): seq<Claim> {
    if claims == [] then []
    else
      var last := claims[|claims| - 1];
      ClaimsBy(claims[..|claims| - 1], p) + if last.producer == p then [last] else []
  }

  lemma ClaimsByAppend(claims: seq<Claim>, c: Claim, p: Pid)
    ensures ClaimsBy(claims + [c], p) == ClaimsBy(claims, p) + if c.producer == p then [c] else []
  {
    assert (claims + [c])[..|claims|] == claims;
  }

  /** What no one else can change while `me` is between two of its operations. */
  ghost predicate Undisturbed(r: Ring, r': Ring, me: Thread) {
    && |r'.slots| == |r.slots| && r'.configured == r.configured
    && r.enqueuePosition <= r'.enqueuePosition && r.droppedEvents <= r'.droppedEvents
    && match me
       case Emitting(p) => r'.Producer(p) == r.Producer(p) && ClaimsBy(r'.claims, p) == ClaimsBy(r.claims, p)
       case Reading =>
         r'.reader == r.reader && r'.delivered == r.delivered && r'.dequeuePosition == r.dequeuePosition
  }

  lemma OtherProducerUndisturbed(r: Ring, r': Ring, o: Pid, me: Thread)
    requires ProducerNext(r, r', o) && me != Emitting(o)
    ensures Undisturbed(r, r', me)
  {
    ProducerFrame(r, r', o);
    if me.Emitting? && r'.claims != r.claims {
      ClaimsByAppend(r.claims, Claim(o, r.Producer(o).work.number, r.Producer(o).work.event), me.p);
    }
  }

  lemma OtherStepUndisturbed(r: Ring, r': Ring, a: Actor, me: Thread)
    requires Next(r, r', a) && !StepOf(a, me)
    ensures Undisturbed(r, r', me)
  {
    match a
    case ByProducer(o) => OtherProducerUndisturbed(r, r', o, me);
    case ByReader => TryFrame(r, r');
    case _ =>
  }

  lemma NothingDisturbed(r: Ring, me: Thread)
    ensures Undisturbed(r, r, me)
  {
  }

  lemma UndisturbedTransitive(r: Ring, mid: Ring, r': Ring, me: Thread)
    requires Undisturbed(r, mid, me) && Undisturbed(mid, r', me)
    ensures Undisturbed(r, r', me)
  {
  }

  lemma OthersStep(t: Trace, t': Trace, me: Thread, i: nat)
    requires OthersRan(t, t', me) && |t.actors| <= i < |t'.actors|
    ensures |t'.states| == |t'.actors| + 1 && Undisturbed(t'.states[i], t'.states[i + 1], me)
  {
    assert Next(t'.states[i], t'.states[i + 1], t'.actors[i]) && !StepOf(t'.actors[i], me);
    OtherStepUndisturbed(t'.states[i], t'.states[i + 1], t'.actors[i], me);
  }

  lemma {:induction false} TraceUndisturbed(t: Trace, t': Trace, me: Thread, r: Ring, i: nat)
    requires OthersRan(t, t', me) && |t.actors| <= i <= |t'.actors|
    requires |t'.states| == |t'.actors| + 1 && r == t'.states[|t.actors|]
    ensures Undisturbed(r, t'.states[i], me)
    decreases i
  {
    hide *;
    if i == |t.actors| {
      NothingDisturbed(r, me);
    } else {
      TraceUndisturbed(t, t', me, r, i - 1);
      OthersStep(t, t', me, i - 1);
      UndisturbedTransitive(r, t'.states[i - 1], t'.states[i], me);
    }
  }

  /** The invariant, and this thread's view of things, survive whatever the others do. */
  lemma OthersKeep(t: Trace, t': Trace, me: Thread)
    requires t.IsRun() && OthersRan(t, t', me)
    ensures Inv(t'.Last()) && Undisturbed(t.Last(), t'.Last(), me)
  {
    RunIsSafe(t');
    assert t'.states[|t.actors|] == t.states[|t.actors|];
    TraceUndisturbed(t, t', me, t.Last(), |t'.actors|);
  }

  // ---------------------------------------------------------------- what a call went through

  /** The steps of a call that others rely on. */
  datatype Deed =
    | FoundFull(p: Pid)                     // looked at its slot while the ring was full, and turned to dropping
    | PublishedSlot(p: Pid, position: nat)
    | Exchanged(p: Pid, won: bool)          // set wakePending; `won` if it was off before
    | Signalled(p: Pid)
    | TookBack(p: Pid)                      // cleared wakePending after a failed signal
    | Looked(published: bool)               // the reader looked at the head of the ring, and saw this

  /** The step from `r` to `r'` is that deed. */
  predicate Does(r: Ring, r': Ring, a: Actor, d: Deed) {
    match d
    case FoundFull(p) =>
      && a == ByProducer(p) && r.Producer(p).Positioned? && r'.Producer(p).Dropping?
      && r.Producer(p).position == r.enqueuePosition == Released(r) + |r.slots|
    case PublishedSlot(p, position) =>
      && a == ByProducer(p) && r.Producer(p).Copying? && r.Producer(p).position == position
      && r'.Producer(p).Published? && r'.slots != [] && r'.Slot(position).sequence == position + 1
    case Exchanged(p, won) =>
      && a == ByProducer(p) && r.Producer(p).Published?
      && (won <==> r.configured && !r.wakePending) && (r.configured ==> r'.wakePending)
    case Signalled(p) => a == ByProducer(p) && r.Producer(p).Signalling? && r'.wakeSignal
    case TookBack(p) => a == ByProducer(p) && r.Producer(p).Resetting? && !r'.wakePending
    case Looked(published) =>
      && a == ByReader && r.reader == At(r.dequeuePosition) && r.slots != []
      && (published <==> r.Slot(r.dequeuePosition).sequence == r.dequeuePosition + 1)
  }

  predicate DoneAt(t: Trace, d: Deed, i: nat) {
    && i < |t.actors| && i + 1 < |t.states|
    && Does(t.states[i], t.states[i + 1], t.actors[i], d)
  }

  /** Between the runs `t` and `t'` that deed was done. */
  ghost predicate Passed(t: Trace, t': Trace, d: Deed) {
    exists i: nat :: |t.actors| <= i && DoneAt(t', d, i)
  }

  lemma PassedNow(t: Trace, now: Trace, r: Ring, a: Actor, d: Deed)
    requires now.IsRun() && now.Extends(t) && Does(now.Last(), r, a, d)
    ensures Passed(t, now.Then(r, a), d)
  {
    assert DoneAt(now.Then(r, a), d, |now.actors|);
  }

  /** A deed stays done, and was done since any earlier moment too. */
  lemma PassedWithin(a: Trace, b: Trace, c: Trace, e: Trace, d: Deed)
    requires b.Extends(a) && e.Extends(c) && Passed(b, c, d)
    ensures Passed(a, e, d)
  {
    var i: nat :| |b.actors| <= i && DoneAt(c, d, i);
    assert DoneAt(e, d, i);
  }

  /** The compare-exchange as a step of the ring. */
  lemma ClaimingStep(r: Ring, r': Ring, p: Pid)
    requires r.slots != [] && r.Producer(p).Claiming?
    requires
      var w, position := r.Producer(p).work, r.Producer(p).position;
      r' == if r.enqueuePosition == position
            then r.(enqueuePosition := position + 1, claims := r.claims + [Claim(p, w.number, w.event)])
                  .Put(p, Copying(w, position, 0))
            else r.Put(p, Numbered(Retry(w)))
    ensures ProducerNext(r, r', p)
  {
  }

  /** The exchange of the slot's sequence word as a step of the ring. */
  lemma PublishingStep(r: Ring, r': Ring, p: Pid)
    requires r.slots != [] && r.Producer(p).Copying?
    requires r.Producer(p).copied == Size(r.Producer(p).work.event) <= EVENT_BYTES
    requires
      var position := r.Producer(p).position;
      r' == r.PutSlot(position, r.Slot(position).(sequence := position + 1)).Put(p, Published)
    ensures ProducerNext(r, r', p)
    ensures Does(r, r', ByProducer(p), PublishedSlot(p, r.Producer(p).position))
  {
  }

  /** The exchange of wakePending as a step of the ring. */
  lemma ExchangingStep(r: Ring, r': Ring, p: Pid, won: bool)
    requires r.slots != [] && r.Producer(p).Published? && (won <==> r.configured && !r.wakePending)
    requires
      r' == r.(wakePending := r.wakePending || r.configured).Put(p, if won then Signalling else Idle)
    ensures ProducerNext(r, r', p) && Does(r, r', ByProducer(p), Exchanged(p, won))
  {
  }

  /** NtSetEvent, successful or not, as a step of the ring. */
  lemma SignallingStep(r: Ring, r': Ring, p: Pid, works: bool)
    requires r.slots != [] && r.Producer(p).Signalling?
    requires
      r' == r.(wakeSignal := r.wakeSignal || works).Put(p, if works then Idle else Resetting)
    ensures ProducerNext(r, r', p)
    ensures works ==> Does(r, r', ByProducer(p), Signalled(p))
  {
  }

  // ---------------------------------------------------------------- the code

  const RING_MAGIC := 0x474E4952
  const RING_VERSION := 1

  class SharedRing {
    const magic: nat
    const version: nat
    const capacity: nat
    const eventSize: nat
    const configured: bool
    var enqueuePosition: nat
    var dequeuePosition: nat
    var eventSequence: nat
    var droppedEvents: nat
    var wakePending: bool
    var wakeSignal: bool
    const slots: array<Slot>
    ghost var producers: map<Pid, Producer>
    ghost var reader: Reader
    ghost var closed: bool
    ghost var claims: seq<Claim>
    ghost var delivered: seq<Wire>
    ghost var trace: Trace

    ghost function View(): Ring
      reads this, slots
    {
      Ring(configured, enqueuePosition, dequeuePosition, eventSequence, droppedEvents, wakePending, wakeSignal,
           slots[..], producers, reader, closed, claims, delivered)
    }

    /** The object has come to its state by steps of the ring, all of them on record. */
    ghost predicate Valid()
      reads this, slots
    {
      trace.IsRun() && trace.Last() == View()
    }

    /** The header fields a producer checks; `slots.Length` is the capacity it was compiled with. */
    predicate HeaderFits() {
      magic == RING_MAGIC && version == RING_VERSION && capacity == slots.Length && eventSize == EVENT_BYTES
    }

    lemma IsSafe()
      requires Valid()
      ensures Inv(View()) && RingHistory.Reachable(View())
    {
      RunIsSafe(trace);
    }

    /** CreateSharedRing's initialisation: everything zero, then slot i gets sequence i. */
    constructor (capacity: nat, configured: bool)
      requires capacity >= 2
      ensures Init(View()) && Valid() && HeaderFits()
      ensures slots.Length == capacity && fresh(slots) && this.configured == configured
    {
      magic, version, this.capacity, eventSize := RING_MAGIC, RING_VERSION, capacity, EVENT_BYTES;
      this.configured := configured;
      enqueuePosition, dequeuePosition, eventSequence, droppedEvents := 0, 0, 0, 0;
      wakePending, wakeSignal := false, false;
      producers, reader, closed, claims, delivered := map[], Out, false, [], [];
      var zero: Wire := seq(EVENT_BYTES, _ => 0);
      slots := new Slot[capacity](_ => Slot(0, zero));
      new;
      for index := 0 to capacity
        invariant forall i :: 0 <= i < index ==> slots[i].sequence == i
        invariant enqueuePosition == dequeuePosition == eventSequence == droppedEvents == 0
        invariant !wakePending && !wakeSignal && producers == map[] && reader == Out && !closed
        invariant claims == [] && delivered == []
      {
        slots[index] := slots[index].(sequence := index);
      }
      trace := Trace([View()], []);
    }

    /** The other threads run; `limit` bounds the positions they ever claim, as the 64-bit counter does. */
    ghost method Interference(me: Thread, limit: nat)
      requires Valid() && enqueuePosition <= limit
      modifies this, slots
      ensures Valid() && OthersRan(old(trace), trace, me) && enqueuePosition <= limit
    {
    }

    /** The step just taken goes on record. */
    ghost method Record(a: Actor)
      requires trace.IsRun() && Next(trace.Last(), View(), a)
      modifies this`trace
      ensures Valid() && trace == old(trace).Then(View(), a) && trace.Extends(old(trace))
    {
      RunGoesOn(trace, View(), a);
      trace := trace.Then(View(), a);
    }

    /** The increment of eventSequence. */
    method Number(p: Pid, ghost limit: nat) returns (number: nat)
      requires Valid() && View().Producer(p).Entered? && enqueuePosition <= limit
      modifies this, slots
      ensures Valid() && trace.Extends(old(trace))
      ensures enqueuePosition <= limit && droppedEvents >= old(droppedEvents)
      ensures View().Producer(p).Numbered?
      ensures View().Producer(p).work.number == number
      ensures View().Producer(p).work.event == Stamp(old(View().Producer(p).accepted), number)
      ensures ClaimsBy(claims, p) == old(ClaimsBy(claims, p))
    {
      Interference(Emitting(p), limit);
      OthersKeep(old(trace), trace, Emitting(p));
      ghost var r := View();
      eventSequence := eventSequence + 1;
      number := eventSequence;
      producers := producers[p := Numbered(Work(number, Stamp(r.Producer(p).accepted, number), enqueuePosition, 0))];
      assert ProducerNext(r, View(), p);
      Record(ByProducer(p));
    }

    /** The read of enqueuePosition. */
    method LoadEnqueue(p: Pid, ghost limit: nat) returns (position: nat)
      requires Valid() && View().Producer(p).Numbered? && enqueuePosition <= limit
      modifies this, slots
      ensures Valid() && trace.Extends(old(trace))
      ensures position == enqueuePosition <= limit && droppedEvents >= old(droppedEvents)
      ensures enqueuePosition >= old(enqueuePosition)
      ensures View().Producer(p) == Positioned(old(View().Producer(p).work), position)
      ensures ClaimsBy(claims, p) == old(ClaimsBy(claims, p))
    {
      Interference(Emitting(p), limit);
      OthersKeep(old(trace), trace, Emitting(p));
      ghost var r := View();
      position := enqueuePosition;
      producers := producers[p := Positioned(r.Producer(p).work, position)];
      assert ProducerNext(r, View(), p);
      Record(ByProducer(p));
    }

    /** The read of the slot's sequence word: behind the position when the ring is full, past it when outrun. */
    method LoadSequence(p: Pid, position: nat, ghost limit: nat) returns (difference: int)
      requires Valid() && enqueuePosition <= limit
      requires View().Producer(p).Positioned? && View().Producer(p).position == position
      modifies this, slots
      ensures Valid() && trace.Extends(old(trace))
      ensures enqueuePosition <= limit && droppedEvents >= old(droppedEvents)
      ensures
        var w := old(View().Producer(p).work);
        View().Producer(p) ==
          if difference < 0 then Dropping(w) else if difference == 0 then Claiming(w, position) else Numbered(Retry(w))
      ensures difference < 0 ==> Passed(old(trace), trace, FoundFull(p))
      ensures difference > 0 ==> position < enqueuePosition
      ensures ClaimsBy(claims, p) == old(ClaimsBy(claims, p))
    {
      Interference(Emitting(p), limit);
      OthersKeep(old(trace), trace, Emitting(p));
      ghost var t, r := trace, View();
      assert p in r.producers && ProducerOk(r, p);
      SequenceVerdict(r, position);
      difference := slots[Index(position, slots.Length)].sequence - position;
      ghost var w := r.Producer(p).work;
      producers := producers[p :=
        if difference < 0 then Dropping(w) else if difference == 0 then Claiming(w, position) else Numbered(Retry(w))];
      assert ProducerNext(r, View(), p);
      Record(ByProducer(p));
      if difference < 0 {
        PassedNow(old(trace), t, View(), ByProducer(p), FoundFull(p));
      }
    }

    /** The compare-exchange of enqueuePosition. It fails only because someone else advanced it. */
    method ClaimPosition(p: Pid, position: nat, ghost limit: nat) returns (claimed: bool)
      requires Valid() && enqueuePosition <= limit
      requires View().Producer(p).Claiming? && View().Producer(p).position == position
      modifies this, slots
      ensures Valid() && trace.Extends(old(trace)) && droppedEvents >= old(droppedEvents)
      ensures
        var w := old(View().Producer(p).work);
        if claimed then
          && View().Producer(p) == Copying(w, position, 0) && enqueuePosition <= limit + 1
          && ClaimsBy(claims, p) == old(ClaimsBy(claims, p)) + [Claim(p, w.number, w.event)]
        else
          && View().Producer(p) == Numbered(Retry(w)) && position < enqueuePosition <= limit
          && ClaimsBy(claims, p) == old(ClaimsBy(claims, p))
    {
      Interference(Emitting(p), limit);
      OthersKeep(old(trace), trace, Emitting(p));
      assert p in View().producers && ProducerOk(View(), p);
      claimed := enqueuePosition == position;
      if claimed {
        TakePosition(p, position);
      } else {
        LosePosition(p);
      }
    }

    /** The exchange happened. */
    method TakePosition(p: Pid, position: nat)
      requires Valid() && View().Producer(p).Claiming? && View().Producer(p).position == position == enqueuePosition
      modifies this
      ensures Valid() && trace.Extends(old(trace)) && enqueuePosition == position + 1
      ensures droppedEvents == old(droppedEvents)
      ensures
        var w := old(View().Producer(p).work);
        && View().Producer(p) == Copying(w, position, 0)
        && ClaimsBy(claims, p) == old(ClaimsBy(claims, p)) + [Claim(p, w.number, w.event)]
    {
      ghost var r := View();
      ghost var w := r.Producer(p).work;
      IsSafe();
      enqueuePosition := position + 1;
      ClaimsByAppend(claims, Claim(p, w.number, w.event), p);
      claims := claims + [Claim(p, w.number, w.event)];
      producers := producers[p := Copying(w, position, 0)];
      ClaimingStep(r, View(), p);
      Record(ByProducer(p));
    }

    /** It did not, and nothing changed but where the producer stands. */
    ghost method LosePosition(p: Pid)
      requires Valid() && View().Producer(p).Claiming? && View().Producer(p).position != enqueuePosition
      modifies this`producers, this`trace
      ensures Valid() && trace.Extends(old(trace))
      ensures View().Producer(p) == Numbered(Retry(old(View().Producer(p).work)))
    {
      IsSafe();
      var r := View();
      producers := producers[p := Numbered(Retry(r.Producer(p).work))];
      ClaimingStep(r, View(), p);
      Record(ByProducer(p));
    }

    method CountDrop(p: Pid, ghost limit: nat)
      requires Valid() && View().Producer(p).Dropping? && enqueuePosition <= limit
      modifies this, slots
      ensures Valid() && trace.Extends(old(trace)) && enqueuePosition <= limit
      ensures View().Producer(p).Idle? && droppedEvents > old(droppedEvents)
      ensures ClaimsBy(claims, p) == old(ClaimsBy(claims, p))
    {
      Interference(Emitting(p), limit);
      OthersKeep(old(trace), trace, Emitting(p));
      ghost var r := View();
      droppedEvents := droppedEvents + 1;
      producers := producers[p := Idle];
      assert ProducerNext(r, View(), p);
      Record(ByProducer(p));
    }

    /** One byte of the payload copy. */
    method CopyByte(p: Pid, position: nat, value: byte, k: nat, ghost limit: nat)
      requires Valid() && enqueuePosition <= limit
      requires View().Producer(p).Copying? && View().Producer(p).position == position
      requires View().Producer(p).copied == k < EVENT_BYTES && k < Size(View().Producer(p).work.event)
      requires value == View().Producer(p).work.event[k]
      modifies this, slots
      ensures Valid() && trace.Extends(old(trace))
      ensures enqueuePosition <= limit && droppedEvents >= old(droppedEvents)
      ensures View().Producer(p) == Copying(old(View().Producer(p).work), position, k + 1)
      ensures ClaimsBy(claims, p) == old(ClaimsBy(claims, p))
    {
      Interference(Emitting(p), limit);
      OthersKeep(old(trace), trace, Emitting(p));
      ghost var r := View();
      var slot := Index(position, slots.Length);
      slots[slot] := slots[slot].(event := slots[slot].event[k := value]);
      producers := producers[p := Copying(r.Producer(p).work, position, k + 1)];
      assert ProducerNext(r, View(), p);
      Record(ByProducer(p));
    }

    /** The exchange that publishes the slot. */
    method Publish(p: Pid, position: nat, ghost limit: nat)
      requires Valid() && enqueuePosition <= limit
      requires View().Producer(p).Copying? && View().Producer(p).position == position
      requires View().Producer(p).copied == Size(View().Producer(p).work.event) <= EVENT_BYTES
      modifies this, slots
      ensures Valid() && trace.Extends(old(trace)) && Passed(old(trace), trace, PublishedSlot(p, position))
      ensures enqueuePosition <= limit && View().Producer(p).Published? && droppedEvents >= old(droppedEvents)
      ensures ClaimsBy(claims, p) == old(ClaimsBy(claims, p))
    {
      hide ProducerNext, Does;
      Interference(Emitting(p), limit);
      OthersKeep(old(trace), trace, Emitting(p));
      ghost var t, r := trace, View();
      var slot := Index(position, slots.Length);
      slots[slot] := slots[slot].(sequence := position + 1);
      producers := producers[p := Published];
      PublishingStep(r, View(), p);
      Record(ByProducer(p));
      PassedNow(old(trace), t, View(), ByProducer(p), PublishedSlot(p, position));
    }

    /** The exchange of wakePending: only the producer that turns it on goes on to signal. */
    method ExchangeWake(p: Pid, ghost limit: nat) returns (won: bool)
      requires Valid() && View().Producer(p).Published? && enqueuePosition <= limit
      modifies this, slots
      ensures Valid() && trace.Extends(old(trace)) && Passed(old(trace), trace, Exchanged(p, won))
      ensures enqueuePosition <= limit && droppedEvents >= old(droppedEvents)
      ensures View().Producer(p) == if won then Signalling else Idle
      ensures ClaimsBy(claims, p) == old(ClaimsBy(claims, p))
    {
      hide ProducerNext, Does;
      Interference(Emitting(p), limit);
      OthersKeep(old(trace), trace, Emitting(p));
      ghost var t, r := trace, View();
      won := configured && !wakePending;
      if configured { wakePending := true; }
      producers := producers[p := if won then Signalling else Idle];
      ExchangingStep(r, View(), p, won);
      Record(ByProducer(p));
      PassedNow(old(trace), t, View(), ByProducer(p), Exchanged(p, won));
    }

    /** NtSetEvent, which may fail. */
    method SignalReader(p: Pid, works: bool, ghost limit: nat)
      requires Valid() && View().Producer(p).Signalling? && enqueuePosition <= limit
      modifies this, slots
      ensures Valid() && trace.Extends(old(trace)) && (works ==> Passed(old(trace), trace, Signalled(p)))
      ensures enqueuePosition <= limit && droppedEvents >= old(droppedEvents)
      ensures View().Producer(p) == if works then Idle else Resetting
      ensures ClaimsBy(claims, p) == old(ClaimsBy(claims, p))
    {
      hide ProducerNext, Does;
      Interference(Emitting(p), limit);
      OthersKeep(old(trace), trace, Emitting(p));
      ghost var t, r := trace, View();
      if works { wakeSignal := true; }
      producers := producers[p := if works then Idle else Resetting];
      SignallingStep(r, View(), p, works);
      Record(ByProducer(p));
      if works {
        PassedNow(old(trace), t, View(), ByProducer(p), Signalled(p));
      }
    }

    method ResetWake(p: Pid, ghost limit: nat)
      requires Valid() && View().Producer(p).Resetting? && enqueuePosition <= limit
      modifies this, slots
      ensures Valid() && trace.Extends(old(trace)) && Passed(old(trace), trace, TookBack(p))
      ensures View().Producer(p).Idle? && droppedEvents >= old(droppedEvents)
      ensures ClaimsBy(claims, p) == old(ClaimsBy(claims, p))
    {
      Interference(Emitting(p), limit);
      OthersKeep(old(trace), trace, Emitting(p));
      ghost var t, r := trace, View();
      wakePending := false;
      producers := producers[p := Idle];
      assert ProducerNext(r, View(), p);
      Record(ByProducer(p));
      PassedNow(old(trace), t, View(), ByProducer(p), TookBack(p));
    }

    /** The claim loop. It ends because every further round is paid for by someone else's claim. */
    method ClaimLoop(p: Pid, ghost limit: nat) returns (claimed: bool, position: nat)
      requires Valid() && View().Producer(p).Numbered? && enqueuePosition <= limit
      modifies this, slots
      ensures Valid() && trace.Extends(old(trace)) && enqueuePosition <= limit + 1
      ensures !claimed ==> Passed(old(trace), trace, FoundFull(p))
      ensures
        var w := old(View().Producer(p).work);
        if claimed then
          && View().Producer(p).Copying? && View().Producer(p).position == position
          && View().Producer(p).copied == 0 && View().Producer(p).work.event == w.event
          && ClaimsBy(claims, p) == old(ClaimsBy(claims, p)) + [Claim(p, w.number, w.event)]
          && droppedEvents >= old(droppedEvents)
        else
          && View().Producer(p).Idle?
          && ClaimsBy(claims, p) == old(ClaimsBy(claims, p)) && droppedEvents > old(droppedEvents)
    {
      hide Passed;
      ghost var work, mine := View().Producer(p).work, ClaimsBy(claims, p);
      ghost var floor := -1;
      claimed, position := false, 0;
      while true
        invariant Valid() && trace.Extends(old(trace))
        invariant enqueuePosition <= limit && floor < enqueuePosition && droppedEvents >= old(droppedEvents)
        invariant View().Producer(p).Numbered?
        invariant View().Producer(p).work.number == work.number && View().Producer(p).work.event == work.event
        invariant ClaimsBy(claims, p) == mine
        decreases limit - floor
      {
        position := LoadEnqueue(p, limit);
        ghost var before := trace;
        var difference := LoadSequence(p, position, limit);
        if difference < 0 {
          ghost var found := trace;
          CountDrop(p, limit);
          PassedWithin(old(trace), before, found, trace, FoundFull(p));
          return false, position;
        }
        if difference == 0 {
          claimed := ClaimPosition(p, position, limit);
          if claimed {
            return true, position;
          }
        }
        floor := position;
      }
    }

    /** The header check has passed; nothing shared has been touched yet. */
    ghost method Enter(p: Pid, event: Wire)
      requires Valid() && View().Producer(p).Idle? && !closed && HeaderOk(event)
      modifies this`producers, this`trace
      ensures Valid() && trace.Extends(old(trace)) && View().Producer(p) == Entered(event)
    {
      IsSafe();
      var r := View();
      producers := producers[p := Entered(event)];
      assert ProducerNext(r, View(), p);
      Record(ByProducer(p));
    }

    /** CustomMemCpy into the claimed slot. */
    method CopyPayload(p: Pid, position: nat, event: array<byte>, ghost limit: nat)
      requires Valid() && enqueuePosition <= limit
      requires event.Length == EVENT_BYTES && event as object != slots && Size(event[..]) <= EVENT_BYTES
      requires View().Producer(p).Copying? && View().Producer(p).position == position
      requires View().Producer(p).copied == 0 && View().Producer(p).work.event == event[..]
      modifies this, slots
      ensures Valid() && trace.Extends(old(trace)) && enqueuePosition <= limit && droppedEvents >= old(droppedEvents)
      ensures View().Producer(p) == old(View().Producer(p)).(copied := Size(event[..]))
      ensures ClaimsBy(claims, p) == old(ClaimsBy(claims, p))
    {
      for k := 0 to Size(event[..])
        invariant Valid() && trace.Extends(old(trace))
        invariant enqueuePosition <= limit && droppedEvents >= old(droppedEvents)
        invariant View().Producer(p) == old(View().Producer(p)).(copied := k)
        invariant ClaimsBy(claims, p) == old(ClaimsBy(claims, p))
      {
        CopyByte(p, position, event[k], k, limit);
      }
    }

    /**
     Publish, then wake the reader: wakePending is exchanged after the slot is published, whoever turned it on
     signals, and takes it back if the signal fails.
     */
    method PublishAndWake(p: Pid, position: nat, signalWorks: bool, ghost limit: nat) returns (ghost won: bool)
      requires Valid() && enqueuePosition <= limit
      requires View().Producer(p).Copying? && View().Producer(p).position == position
      requires View().Producer(p).copied == Size(View().Producer(p).work.event) <= EVENT_BYTES
      modifies this, slots
      ensures Valid() && trace.Extends(old(trace)) && View().Producer(p).Idle? && droppedEvents >= old(droppedEvents)
      ensures ClaimsBy(claims, p) == old(ClaimsBy(claims, p))
      ensures Announced(old(trace), trace, p, position, won, signalWorks)
    {
      hide Announced, Passed;
      ghost var t0 := trace;
      Publish(p, position, limit);
      ghost var t1 := trace;
      var first := ExchangeWake(p, limit);
      won := first;
      ghost var t2, t3 := trace, trace;
      if first {
        SignalReader(p, signalWorks, limit);
        t3 := trace;
        if !signalWorks {
          ResetWake(p, limit);
        }
      }
      InOrder(t0, t1, t2, t3, trace, p, position, won, signalWorks);
    }

    /**
     The whole emission. Whatever the other threads do meanwhile, it comes back; an accepted event is then
     claimed exactly once, published and announced, or it found the ring full and is counted as dropped; a
     rejected one leaves no trace.
     */
    method EmitTraceEvent(p: Pid, event: array<byte>, signalWorks: bool, ghost limit: nat) returns (ok: bool)
      requires Valid() && View().Producer(p).Idle? && !closed && enqueuePosition <= limit
      requires event.Length == EVENT_BYTES && event as object != slots
      modifies this, slots, event
      ensures Valid() && trace.Extends(old(trace)) && View().Producer(p).Idle?
      ensures
        || magic != 0x474E4952 || version != 1 || capacity != slots.Length || eventSize != 1024
        || !old(HeaderOk(event[..])) ==>
        !ok && View() == old(View()) && event[..] == old(event[..])
      ensures ok ==> exists number: nat ::
        && event[..] == Stamp(old(event[..]), number)
        && ClaimsBy(claims, p) == old(ClaimsBy(claims, p)) + [Claim(p, number, event[..])]
      ensures ok ==> exists position: nat, won: bool :: Announced(old(trace), trace, p, position, won, signalWorks)
      ensures !ok ==> ClaimsBy(claims, p) == old(ClaimsBy(claims, p))
      ensures !ok && HeaderFits() && old(HeaderOk(event[..])) ==>
        droppedEvents > old(droppedEvents) && Passed(old(trace), trace, FoundFull(p))
    {
      if magic != RING_MAGIC || version != RING_VERSION || capacity != slots.Length || eventSize != EVENT_BYTES
         || !HeaderOk(event[..]) {
        return false;
      }
      ghost var original: Wire := event[..];
      Enter(p, original);
      var number := Number(p, limit);
      CustomMemCpy(event, 12, LittleEndian(number, 4));
      assert event[..] == Stamp(original, number);
      ghost var numbered := trace;
      ok := ClaimCopyAndAnnounce(p, event, number, signalWorks, limit);
      if ok {
        ghost var position: nat, won: bool :| Announced(numbered, trace, p, position, won, signalWorks);
        AnnouncedSince(old(trace), numbered, trace, p, position, won, signalWorks);
      } else {
        PassedWithin(old(trace), numbered, trace, trace, FoundFull(p));
      }
    }

    /** The part of the emission that follows the sequence number. */
    method ClaimCopyAndAnnounce(p: Pid, event: array<byte>, ghost number: nat, signalWorks: bool, ghost limit: nat)
      returns (ok: bool)
      requires Valid() && View().Producer(p).Numbered? && enqueuePosition <= limit
      requires event.Length == EVENT_BYTES && event as object != slots && Size(event[..]) <= EVENT_BYTES
      requires View().Producer(p).work.event == event[..] && View().Producer(p).work.number == number
      modifies this, slots
      ensures Valid() && trace.Extends(old(trace)) && View().Producer(p).Idle?
      ensures ok ==> ClaimsBy(claims, p) == old(ClaimsBy(claims, p)) + [Claim(p, number, event[..])]
      ensures ok ==> exists position: nat, won: bool :: Announced(old(trace), trace, p, position, won, signalWorks)
      ensures !ok ==> ClaimsBy(claims, p) == old(ClaimsBy(claims, p))
      ensures !ok ==> droppedEvents > old(droppedEvents) && Passed(old(trace), trace, FoundFull(p))
    {
      hide Announced, Passed;
      var claimed, position := ClaimLoop(p, limit);
      if !claimed {
        return false;
      }
      CopyPayload(p, position, event, limit + 1);
      ghost var copied := trace;
      ghost var won := PublishAndWake(p, position, signalWorks, limit + 1);
      AnnouncedSince(old(trace), copied, trace, p, position, won, signalWorks);
      return true;
    }

    // -------------------------------------------------------------- the reader's side

    method LoadHead(ghost limit: nat) returns (position: nat)
      requires Valid() && reader.Out? && enqueuePosition <= limit
      modifies this, slots
      ensures Valid() && trace.Extends(old(trace))
      ensures enqueuePosition <= limit && reader == At(position) && delivered == old(delivered)
    {
      Interference(Reading, limit);
      OthersKeep(old(trace), trace, Reading);
      ghost var r := View();
      position := dequeuePosition;
      reader := At(position);
      assert ReaderNext(r, View());
      Record(ByReader);
    }

    method LookAtHead(position: nat, ghost limit: nat) returns (found: bool)
      requires Valid() && reader == At(position) && enqueuePosition <= limit
      modifies this, slots
      ensures Valid() && trace.Extends(old(trace)) && Passed(old(trace), trace, Looked(found))
      ensures enqueuePosition <= limit && delivered == old(delivered)
      ensures reader == if found then Copy(position, []) else Out
    {
      Interference(Reading, limit);
      OthersKeep(old(trace), trace, Reading);
      ghost var t, r := trace, View();
      found := slots[Index(position, slots.Length)].sequence == position + 1;
      reader := if found then Copy(position, []) else Out;
      assert ReaderNext(r, View());
      Record(ByReader);
      PassedNow(old(trace), t, View(), ByReader, Looked(found));
    }

    method TakeByte(position: nat, event: array<byte>, k: nat, ghost limit: nat)
      requires Valid() && reader.Copy? && reader.position == position && enqueuePosition <= limit
      requires event.Length == EVENT_BYTES && event as object != slots && k < EVENT_BYTES
      requires reader.buffer == event[..k]
      modifies this, slots, event
      ensures Valid() && trace.Extends(old(trace)) && enqueuePosition <= limit && delivered == old(delivered)
      ensures reader == Copy(position, event[..k + 1])
    {
      Interference(Reading, limit);
      OthersKeep(old(trace), trace, Reading);
      ghost var r := View();
      event[k] := slots[Index(position, slots.Length)].event[k];
      assert event[..k + 1] == event[..k] + [event[k]];
      reader := Copy(position, event[..k + 1]);
      assert ReaderNext(r, View());
      Record(ByReader);
    }

    method ReleaseSlot(position: nat, event: array<byte>, ghost limit: nat)
      requires Valid() && enqueuePosition <= limit && event.Length == EVENT_BYTES
      requires reader == Copy(position, event[..])
      modifies this, slots
      ensures Valid() && trace.Extends(old(trace)) && enqueuePosition <= limit
      ensures reader == Advance(position, event[..]) && delivered == old(delivered) + [event[..]]
    {
      Interference(Reading, limit);
      OthersKeep(old(trace), trace, Reading);
      ghost var r := View();
      var slot := Index(position, slots.Length);
      slots[slot] := slots[slot].(sequence := position + slots.Length);
      reader := Advance(position, event[..]);
      delivered := delivered + [event[..]];
      assert View() == r.PutSlot(position, r.Slot(position).(sequence := position + |r.slots|))
                        .(reader := reader, delivered := delivered);
      assert ReaderNext(r, View());
      Record(ByReader);
    }

    method AdvanceHead(position: nat, ghost limit: nat)
      requires Valid() && enqueuePosition <= limit && reader.Advance? && reader.position == position
      modifies this, slots
      ensures Valid() && trace.Extends(old(trace))
      ensures reader.Out? && delivered == old(delivered) && dequeuePosition == position + 1
    {
      Interference(Reading, limit);
      OthersKeep(old(trace), trace, Reading);
      ghost var r := View();
      dequeuePosition := position + 1;
      reader := Out;
      assert ReaderNext(r, View());
      Record(ByReader);
    }

    /** Takes the next event of the claim order, whole, or nothing because it saw an unpublished head. */
    method TryReadRing(event: array<byte>, ghost limit: nat) returns (ok: bool)
      requires Valid() && reader.Out? && enqueuePosition <= limit
      requires event.Length == EVENT_BYTES && event as object != slots
      modifies this, slots, event
      ensures Valid() && trace.Extends(old(trace)) && reader.Out?
      ensures Passed(old(trace), trace, Looked(ok))
      ensures !ok ==> delivered == old(delivered) && event[..] == old(event[..])
      ensures ok ==>
        && delivered == old(delivered) + [event[..]]
        && |old(delivered)| < |claims| && Holds(event[..], claims[|old(delivered)|].event)
    {
      hide Passed;
      var position := LoadHead(limit);
      ghost var loaded := trace;
      var found := LookAtHead(position, limit);
      ghost var looked := trace;
      if !found {
        PassedWithin(old(trace), loaded, looked, trace, Looked(false));
        return false;
      }
      assert event[..0] == [];
      for k := 0 to EVENT_BYTES
        invariant Valid() && trace.Extends(looked) && enqueuePosition <= limit && delivered == old(delivered)
        invariant reader == Copy(position, event[..k])
      {
        TakeByte(position, event, k, limit);
      }
      assert event[..EVENT_BYTES] == event[..];
      ReleaseSlot(position, event, limit);
      AdvanceHead(position, limit);
      PassedWithin(old(trace), loaded, looked, trace, Looked(true));
      IsSafe();
      assert DeliveredOk(View());
      return true;
    }
  }

  /** What a published event's producer did, in this order. */
  ghost predicate Announced(t: Trace, t': Trace, p: Pid, position: nat, won: bool, signalWorks: bool) {
    exists t1: Trace, t2: Trace, t3: Trace ::
      && t1.Extends(t) && t2.Extends(t1) && t3.Extends(t2) && t'.Extends(t3)
      && Passed(t, t1, PublishedSlot(p, position)) && Passed(t1, t2, Exchanged(p, won))
      && (won && signalWorks ==> Passed(t2, t3, Signalled(p)))
      && (won && !signalWorks ==> Passed(t3, t', TookBack(p)))
  }

  lemma InOrder(
    t: Trace, t1: Trace, t2: Trace, t3: Trace, t': Trace, p: Pid, position: nat, won: bool, signalWorks: bool)
    requires t1.Extends(t) && t2.Extends(t1) && t3.Extends(t2) && t'.Extends(t3)
    requires Passed(t, t1, PublishedSlot(p, position)) && Passed(t1, t2, Exchanged(p, won))
    requires won && signalWorks ==> Passed(t2, t3, Signalled(p))
    requires won && !signalWorks ==> Passed(t3, t', TookBack(p))
    ensures Announced(t, t', p, position, won, signalWorks)
  {
  }

  lemma AnnouncedSince(
    t: Trace, mid: Trace, t': Trace, p: Pid, position: nat, won: bool, signalWorks: bool)
    requires mid.Extends(t) && Announced(mid, t', p, position, won, signalWorks)
    ensures Announced(t, t', p, position, won, signalWorks)
  {
    var t1: Trace, t2: Trace, t3: Trace :|
      && t1.Extends(mid) && t2.Extends(t1) && t3.Extends(t2) && t'.Extends(t3)
      && Passed(mid, t1, PublishedSlot(p, position)) && Passed(t1, t2, Exchanged(p, won))
      && (won && signalWorks ==> Passed(t2, t3, Signalled(p)))
      && (won && !signalWorks ==> Passed(t3, t', TookBack(p)));
    PassedWithin(t, mid, t1, t1, PublishedSlot(p, position));
    InOrder(t, t1, t2, t3, t', p, position, won, signalWorks);
  }
}
