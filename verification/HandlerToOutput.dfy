/** From the events that hook handlers pass to EmitTraceEvent to the rendered output. */
module HandlerToOutput {
  import opened EventCodec
  import opened TraceRing
  import opened RingSafety
  import opened RingHistory
  import opened EndToEnd
  import Pipeline
  import PipelineSafety
  import PipelineDrain

  /** An event that passed the checks at the head of EmitTraceEvent, as the handler built it. */
  datatype Emission = Emission(producer: Pid, event: Wire)

  // ---------------------------------------------------------------- the log of a run

  /** A thread that has entered gets the next sequence number: its event is the next of the log. */
  function Logged(log: seq<Emission>, r: Ring, a: Actor): seq<Emission> {
    if a.ByProducer? && r.Producer(a.p).Entered? then log + [Emission(a.p, r.Producer(a.p).accepted)] else log
  }

  /** All accepted events of the first `k` steps, in the order in which they were numbered. */
  function Emissions(states: seq<Pipeline.State>, parties: seq<Pipeline.Party>, k: nat): seq<Emission>
    requires k <= |parties| < |states|
  {
    if k == 0 then []
    else
      var log := Emissions(states, parties, k - 1);
      if parties[k - 1].OfProducer? then Logged(log, states[k - 1].ring, ByProducer(parties[k - 1].p)) else log
  }

  /** `event` is entry `number` of the log with that number written into its header. */
  predicate Origin(log: seq<Emission>, p: Pid, number: nat, event: Wire) {
    && 1 <= number <= |log| && log[number - 1].producer == p
    && event == Stamp(log[number - 1].event, number)
  }

  predicate ClaimsOriginate(log: seq<Emission>, claims: seq<Claim>) {
    forall i :: 0 <= i < |claims| ==> Origin(log, claims[i].producer, claims[i].number, claims[i].event)
  }

  predicate FlightOriginates(log: seq<Emission>, r: Ring) {
    forall p :: p in r.producers && InFlight(r.producers[p]) ==>
      Origin(log, p, r.producers[p].work.number, r.producers[p].work.event)
  }

  predicate AllHeadersOk(log: seq<Emission>) { forall n :: 0 <= n < |log| ==> HeaderOk(log[n].event) }

  /** Every number was given to one entry of the log, and what carries a number comes from that entry. */
  predicate OriginsOk(log: seq<Emission>, r: Ring) {
    |log| == r.eventSequence && AllHeadersOk(log) && ClaimsOriginate(log, r.claims) && FlightOriginates(log, r)
  }

  lemma OriginStays(log: seq<Emission>, more: seq<Emission>, p: Pid, number: nat, event: Wire)
    requires Origin(log, p, number, event) && log <= more
    ensures Origin(more, p, number, event)
  {
  }

  /** What a step does to the numbers: a thread that has entered gets one ... */
  lemma EntryIsNumbered(r: Ring, r': Ring, p: Pid)
    requires ProducerNext(r, r', p) && r.Producer(p).Entered?
    ensures r'.eventSequence == r.eventSequence + 1 && r'.claims == r.claims
    ensures r'.Producer(p).Numbered? && r'.Producer(p).work.number == r'.eventSequence
    ensures r'.Producer(p).work.event == Stamp(r.Producer(p).accepted, r'.eventSequence)
  {
  }

  /** ... and any other carries its own on. */
  lemma WorkIsCarried(r: Ring, r': Ring, p: Pid)
    requires ProducerNext(r, r', p) && !r.Producer(p).Entered?
    ensures r'.eventSequence == r.eventSequence
    ensures InFlight(r'.Producer(p)) ==>
      && InFlight(r.Producer(p)) && r'.Producer(p).work.number == r.Producer(p).work.number
      && r'.Producer(p).work.event == r.Producer(p).work.event
  {
    if r.Producer(p).Copying? { CopyingMoves(r, r', p); } else { EarlyIsCarried(r, r', p); }
  }

  lemma EarlyIsCarried(r: Ring, r': Ring, p: Pid)
    requires ProducerNext(r, r', p) && !r.Producer(p).Entered? && !r.Producer(p).Copying?
    ensures r'.eventSequence == r.eventSequence
    ensures InFlight(r'.Producer(p)) ==>
      && InFlight(r.Producer(p)) && r'.Producer(p).work.number == r.Producer(p).work.number
      && r'.Producer(p).work.event == r.Producer(p).work.event
  {
    if InFlight(r.Producer(p)) { FlightIsCarried(r, r', p); } else { NothingIsCarried(r, r', p); }
  }

  lemma FlightIsCarried(r: Ring, r': Ring, p: Pid)
    requires ProducerNext(r, r', p) && InFlight(r.Producer(p))
    ensures r'.eventSequence == r.eventSequence
    ensures InFlight(r'.Producer(p)) ==>
      && r'.Producer(p).work.number == r.Producer(p).work.number
      && r'.Producer(p).work.event == r.Producer(p).work.event
  {
    hide Stamp, HeaderOk, Index;
  }

  lemma NothingIsCarried(r: Ring, r': Ring, p: Pid)
    requires ProducerNext(r, r', p)
    requires
      var pc := r.Producer(p);
      pc.Idle? || pc.Published? || pc.Signalling? || pc.Resetting?
    ensures r'.eventSequence == r.eventSequence && !InFlight(r'.Producer(p))
  {
    hide Stamp, HeaderOk, Index;
  }

  lemma FlightStays(log: seq<Emission>, more: seq<Emission>, r: Ring, r': Ring, p: Pid)
    requires FlightOriginates(log, r) && log <= more && r'.producers == r.producers[p := r'.Producer(p)]
    requires InFlight(r'.Producer(p)) ==>
      Origin(more, p, r'.Producer(p).work.number, r'.Producer(p).work.event)
    ensures FlightOriginates(more, r')
  {
    forall o | o in r'.producers && InFlight(r'.producers[o])
      ensures Origin(more, o, r'.producers[o].work.number, r'.producers[o].work.event)
    {
      if o != p {
        OriginStays(log, more, o, r.producers[o].work.number, r.producers[o].work.event);
      }
    }
  }

  lemma ClaimsStay(log: seq<Emission>, more: seq<Emission>, claims: seq<Claim>)
    requires ClaimsOriginate(log, claims) && log <= more
    ensures ClaimsOriginate(more, claims)
  {
    forall i | 0 <= i < |claims| ensures Origin(more, claims[i].producer, claims[i].number, claims[i].event) {
      OriginStays(log, more, claims[i].producer, claims[i].number, claims[i].event);
    }
  }

  lemma ProducerOrigins(log: seq<Emission>, r: Ring, r': Ring, p: Pid)
    requires OriginsOk(log, r) && EntrantsOk(r) && ProducerNext(r, r', p)
    ensures OriginsOk(Logged(log, r, ByProducer(p)), r')
  {
    hide ProducerNext, Stamp, HeaderOk;
    var more := Logged(log, r, ByProducer(p));
    ProducerFrame(r, r', p);
    if r.Producer(p).Entered? {
      EntryIsNumbered(r, r', p);
      assert HeaderOk(r.producers[p].accepted);
    } else {
      WorkIsCarried(r, r', p);
    }
    FlightStays(log, more, r, r', p);
    ClaimsStay(log, more, r.claims);
  }

  lemma OriginStep(log: seq<Emission>, r: Ring, r': Ring, a: Actor)
    requires OriginsOk(log, r) && EntrantsOk(r) && Next(r, r', a)
    ensures OriginsOk(Logged(log, r, a), r')
  {
    if a.ByProducer? {
      ProducerOrigins(log, r, r', a.p);
    } else {
      NoNumberGiven(r, r', a);
    }
  }

  lemma NoNumberGiven(r: Ring, r': Ring, a: Actor)
    requires Next(r, r', a) && !a.ByProducer?
    ensures r'.eventSequence == r.eventSequence && r'.claims == r.claims && r'.producers == r.producers
  {
    if a.ByReader? { ReaderGivesNone(r, r'); }
  }

  lemma ReaderGivesNone(r: Ring, r': Ring)
    requires ReaderNext(r, r')
    ensures r'.eventSequence == r.eventSequence && r'.claims == r.claims && r'.producers == r.producers
  {
  }

  lemma SystemStep(log: seq<Emission>, s: Pipeline.State, s': Pipeline.State, a: Pipeline.Party)
    requires OriginsOk(log, s.ring) && EntrantsOk(s.ring) && Pipeline.Step(s, s', a)
    ensures OriginsOk(if a.OfProducer? then Logged(log, s.ring, ByProducer(a.p)) else log, s'.ring)
  {
    Pipeline.RingStep(s, s', a);
    if Next(s.ring, s'.ring, Pipeline.ActorOf(s, a)) {
      OriginStep(log, s.ring, s'.ring, Pipeline.ActorOf(s, a));
    }
  }

  lemma RunEntrants(states: seq<Pipeline.State>, parties: seq<Pipeline.Party>, k: nat)
    requires Pipeline.IsRun(states, parties) && k <= |parties|
    ensures EntrantsOk(states[k].ring)
  {
    PipelineSafety.RunInv(states, parties, k);
  }

  lemma StartOrigins(s: Pipeline.State)
    requires Pipeline.Start(s)
    ensures OriginsOk([], s.ring)
  {
  }

  lemma StepOfRun(states: seq<Pipeline.State>, parties: seq<Pipeline.Party>, k: nat)
    requires Pipeline.IsRun(states, parties)
    ensures |states| == |parties| + 1 && Pipeline.Start(states[0])
    ensures k < |parties| ==> Pipeline.Step(states[k], states[k + 1], parties[k])
  {
  }

  /** The log of a run accounts for every number given out in it. */
  lemma {:induction false} RunOrigins(states: seq<Pipeline.State>, parties: seq<Pipeline.Party>, k: nat)
    requires Pipeline.IsRun(states, parties) && k <= |parties| < |states|
    ensures OriginsOk(Emissions(states, parties, k), states[k].ring)
    decreases k
  {
    hide OriginsOk, EntrantsOk, Logged, Pipeline.IsRun, Pipeline.Start, Pipeline.Step;
    if k == 0 {
      StepOfRun(states, parties, 0);
      StartOrigins(states[0]);
    } else {
      RunOrigins(states, parties, k - 1);
      RunEntrants(states, parties, k - 1);
      StepOfRun(states, parties, k - 1);
      SystemStep(Emissions(states, parties, k - 1), states[k - 1], states[k], parties[k - 1]);
    }
  }

  /** Draining adds nothing to the log. */
  lemma {:induction false} DrainOrigins(run: nat -> Pipeline.State, i: nat, k: nat, log: seq<Emission>)
    requires PipelineDrain.IsSchedule(run) && PipelineSafety.PipeInv(run(i)) && PipelineDrain.Draining(run(i))
    requires i <= k && OriginsOk(log, run(i).ring)
    ensures OriginsOk(log, run(k).ring)
    decreases k - i
  {
    if i < k {
      PipelineDrain.DrainKeeps(run, i, i + 1);
      DrainStepOrigins(run, i, log);
      DrainOrigins(run, i + 1, k, log);
    }
  }

  lemma DrainStepOrigins(run: nat -> Pipeline.State, i: nat, log: seq<Emission>)
    requires PipelineDrain.IsSchedule(run) && EntrantsOk(run(i).ring) && OriginsOk(log, run(i).ring)
    ensures OriginsOk(log, run(i + 1).ring)
  {
    var s, s' := run(i), run(i + 1);
    assert PipelineDrain.Moves(run, i) || PipelineDrain.Spurious(run, i);
    if o :| Pipeline.Step(s, s', Pipeline.OfReader(o)) {
      SystemStep(log, s, s', Pipeline.OfReader(o));
    }
  }

  // ---------------------------------------------------------------- what the output says

  /** The events behind the claims, as their handlers built them. */
  function ClaimedEmissions(log: seq<Emission>, claims: seq<Claim>): (s: seq<Wire>)
    requires ClaimsOriginate(log, claims)
    ensures |s| == |claims|
    ensures forall i :: 0 <= i < |s| ==> 1 <= claims[i].number <= |log| && s[i] == log[claims[i].number - 1].event
  {
    seq(
      |claims|,
      i requires 0 <= i < |claims| =>
        assert Origin(log, claims[i].producer, claims[i].number, claims[i].event);
        log[claims[i].number - 1].event)
  }

  ghost predicate SameText(a: Wire, b: Wire) { forall r :: Reports(a, r) <==> Reports(b, r) }

  lemma {:induction false} ReportsAgree(a: seq<Wire>, b: seq<Wire>)
    requires |a| == |b| && forall i :: 0 <= i < |a| ==> SameText(a[i], b[i])
    ensures ReportsOf(a) == ReportsOf(b)
  {
    if a != [] {
      var n := |a| - 1;
      ReportsAgree(a[..n], b[..n]);
      SameReport(a[n], b[n]);
    }
  }

  lemma SameReport(a: Wire, b: Wire)
    requires SameText(a, b)
    ensures IsValidTraceEvent(a) <==> IsValidTraceEvent(b)
    ensures IsValidTraceEvent(a) ==> ReportOf(a) == ReportOf(b)
  {
    if IsValidTraceEvent(a) { ReportIs(b, ReportOf(a)); }
    if IsValidTraceEvent(b) { ReportIs(a, ReportOf(b)); }
  }

  /** Numbering an event does not change what it says. */
  lemma ClaimsSayTheSame(log: seq<Emission>, claims: seq<Claim>)
    requires AllHeadersOk(log) && ClaimsOriginate(log, claims)
    ensures ReportsOf(ClaimedEvents(claims)) == ReportsOf(ClaimedEmissions(log, claims))
  {
    var a, b := ClaimedEvents(claims), ClaimedEmissions(log, claims);
    forall i | 0 <= i < |a| ensures SameText(a[i], b[i]) {
      assert Origin(log, claims[i].producer, claims[i].number, claims[i].event);
      StampKeepsMeaning(b[i], claims[i].number);
    }
    ReportsAgree(a, b);
  }

  predicate NumbersDiffer(claims: seq<Claim>) {
    forall i, j :: 0 <= i < j < |claims| ==> claims[i].number != claims[j].number
  }

  /**
   From handler to output. Take any run from the start to an orderly stop, and any schedule from there: it
   ends, and unless a wait failed, the rendered output says, in claim order, what the handlers put into the
   claimed events. Every other accepted event was dropped, and the drop was reported.
   */
  lemma EveryAcceptedEventIsRendered(
    states: seq<Pipeline.State>, parties: seq<Pipeline.Party>, run: nat -> Pipeline.State, i: nat)
    returns (k: nat)
    requires Pipeline.IsRun(states, parties) && states[|parties|] == run(i)
    requires PipelineDrain.IsSchedule(run) && PipelineDrain.Draining(run(i)) && run(i).orderly
    ensures k >= i && PipelineDrain.Finished(run(k))
    ensures
      var log, claims := Emissions(states, parties, |parties|), run(k).ring.claims;
      && AllHeadersOk(log) && ClaimsOriginate(log, claims) && NumbersDiffer(claims)
      && (!run(k).c.waitFailed ==>
            && ReportsOf(run(k).c.rendered) == ReportsOf(ClaimedEmissions(log, claims))
            && |log| == |claims| + run(k).c.reported)
  {
    hide OriginsOk;
    var log := Emissions(states, parties, |parties|);
    RunOrigins(states, parties, |parties|);
    PipelineSafety.RunInv(states, parties, |parties|);
    assert Pipeline.Reachable(run(i));
    k := EveryClaimedEventIsRendered(run, i);
    PipelineDrain.DrainKeeps(run, i, k);
    DrainOrigins(run, i, k, log);
    AllNumbersUsed(log, run(k));
    ClaimsSayTheSame(log, run(k).ring.claims);
  }

  /** With no producer left, every number was claimed or dropped. */
  lemma AllNumbersUsed(log: seq<Emission>, s: Pipeline.State)
    requires PipelineSafety.PipeInv(s) && s.ring.closed && OriginsOk(log, s.ring)
    ensures AllHeadersOk(log) && ClaimsOriginate(log, s.ring.claims) && NumbersDiffer(s.ring.claims)
    ensures |log| == |s.ring.claims| + s.ring.droppedEvents
  {
    assert InFlightSet(s.ring) == {};
  }

  // ---------------------------------------------------------------- what the handlers built

  lemma {:induction false} ReportsOfBuilt(events: seq<Wire>, reports: seq<Report>)
    requires |events| == |reports| && forall i :: 0 <= i < |events| ==> Reports(events[i], reports[i])
    ensures ReportsOf(events) == reports
  {
    hide Reports, IsValidTraceEvent;
    if events != [] {
      var n := |events| - 1;
      ReportsOfBuilt(events[..n], reports[..n]);
      ReportIs(events[n], reports[n]);
    }
  }

  /** If each accepted event says what its handler meant, the claims say what their handlers meant. */
  lemma ClaimsSayWhatWasBuilt(log: seq<Emission>, reports: seq<Report>, claims: seq<Claim>, said: seq<Report>)
    requires |log| == |reports| && forall n :: 0 <= n < |log| ==> Reports(log[n].event, reports[n])
    requires ClaimsOriginate(log, claims) && |said| == |claims|
    requires forall i :: 0 <= i < |claims| ==>
      1 <= claims[i].number <= |reports| && said[i] == reports[claims[i].number - 1]
    ensures ReportsOf(ClaimedEmissions(log, claims)) == said
  {
    ReportsOfBuilt(ClaimedEmissions(log, claims), said);
  }
}
