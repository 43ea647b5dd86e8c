/**
 When the debugger may take its hooks out of a stopped process. Threads are call stacks of frames; the top
 frame runs, the others hold return addresses. The model is a state machine over single steps of any number
 of threads, interleaved with hook installations and ending, perhaps, with the removal.
 */
module Quiescence {
  type Tid = nat

  datatype Range = Range(start: int, size: nat) {
    predicate Has(x: int) { start <= x < start + size }
  }

  /** One installed hook: the patched bytes of the function, and its trampoline. */
  datatype Site = Site(patch: Range, trampoline: Range)

  /**
   An activation. `Entry` is inside the patched bytes, `Prologue`, `Body` and `Epilogue` are a handler before,
   between and after its two counter updates; `Bypass` is inside an uninstrumented copy of a system call.
   */
  datatype Frame =
    | App(rip: int)
    | Entry(site: nat, rip: int)
    | Prologue(site: nat, rip: int)
    | Body(site: nat, rip: int)
    | Epilogue(rip: int)
    | Trampoline(site: nat, rip: int)
    | Bypass(index: nat, rip: int)

  type Stack = s: seq<Frame> | s != [] witness [App(0)]

  datatype State = State(
    installed: bool,
    image: Range,
    sites: seq<Site>,
    bypasses: seq<Range>,
    threads: map<Tid, Stack>,
    active: int,     // ActiveHookCalls
    lost: nat)       // counted activations of threads that ended inside a handler

  function Top(s: Stack): Frame { s[|s| - 1] }
  function WithTop(s: Stack, f: Frame): Stack { s[..|s| - 1] + [f] }
  function Push(s: Stack, f: Frame): Stack { s + [f] }

  predicate InPatch(s: State, x: int) { exists i :: 0 <= i < |s.sites| && s.sites[i].patch.Has(x) }
  predicate InTrampoline(s: State, x: int) { exists i :: 0 <= i < |s.sites| && s.sites[i].trampoline.Has(x) }
  predicate InBypass(s: State, x: int) { exists i :: 0 <= i < |s.bypasses| && s.bypasses[i].Has(x) }

  /** Code that only instrumentation uses and that removal frees. */
  predicate InFreed(s: State, x: int) { s.image.Has(x) || InTrampoline(s, x) || InBypass(s, x) }

  /** Where application code runs: never in instrumentation, nor in patched bytes while the patch is there. */
  predicate Clear(s: State, x: int) { !InFreed(s, x) && (s.installed ==> !InPatch(s, x)) }

  /** Each activation runs in its own code. */
  predicate FrameOk(s: State, f: Frame) {
    match f
    case App(x) => Clear(s, x)
    case Entry(h, x) => h < |s.sites| && s.sites[h].patch.Has(x)
    case Prologue(_, x) => s.image.Has(x)
    case Body(_, x) => s.image.Has(x)
    case Epilogue(x) => s.image.Has(x)
    case Trampoline(h, x) => h < |s.sites| && s.sites[h].trampoline.Has(x)
    case Bypass(i, x) => i < |s.bypasses| && s.bypasses[i].Has(x)
  }

  // ---------------------------------------------------------------- steps

  /** What a running thread does next, with the address it is at afterwards. */
  datatype Action =
    | Move(rip: int)
    | Call(rip: int)
    | Return
    | Enter(site: nat, tail: bool)      // call of a hooked function, or a jump to it
    | ReachHandler(rip: int)
    | CountIn(rip: int)                 // HookCallGuard is constructed
    | CallOriginal(rip: int)
    | CallBypass(index: nat, rip: int)
    | Rejoin(rip: int)                  // a copy of a prologue jumps back into the function it was taken from
    | CountOut(rip: int)                // HookCallGuard is destroyed

  datatype Step = Act(t: Tid, action: Action) | Spawn(t: Tid, rip: int) | Die(t: Tid) | Install(added: Site) | Remove

  predicate CanAct(s: State, k: Stack, a: Action) {
    var top := Top(k);
    match a
    case Move(rip) => FrameOk(s, top.(rip := rip))
    case Call(rip) => (top.App? || top.Trampoline? || top.Bypass?) && Clear(s, rip)
    case Return => |k| > 1 && (top.App? || top.Epilogue? || top.Trampoline? || top.Bypass?)
    case Enter(h, _) => s.installed && top.App? && h < |s.sites| && s.sites[h].patch.size > 0
    case ReachHandler(rip) => top.Entry? && s.image.Has(rip)
    case CountIn(rip) => top.Prologue? && s.image.Has(rip)
    case CallOriginal(rip) => top.Body? && top.site < |s.sites| && s.sites[top.site].trampoline.Has(rip)
    case CallBypass(i, rip) => top.Body? && i < |s.bypasses| && s.bypasses[i].Has(rip)
    case Rejoin(rip) => (top.Trampoline? || top.Bypass?) && Clear(s, rip)
    case CountOut(rip) => top.Body? && s.image.Has(rip)
  }

  function After(s: State, k: Stack, a: Action): Stack
    requires CanAct(s, k, a)
  {
    var top := Top(k);
    match a
    case Move(rip) => WithTop(k, top.(rip := rip))
    case Call(rip) => Push(k, App(rip))
    case Return => k[..|k| - 1]
    case Enter(h, tail) =>
      var entry := Entry(h, s.sites[h].patch.start);
      if tail then WithTop(k, entry) else Push(k, entry)
    case ReachHandler(rip) => WithTop(k, Prologue(top.site, rip))
    case CountIn(rip) => WithTop(k, Body(top.site, rip))
    case CallOriginal(rip) => Push(k, Trampoline(top.site, rip))
    case CallBypass(i, rip) => Push(k, Bypass(i, rip))
    case Rejoin(rip) => WithTop(k, App(rip))
    case CountOut(rip) => WithTop(k, Epilogue(rip))
  }

  function Delta(a: Action): int {
    if a.CountIn? then 1 else if a.CountOut? then -1 else 0
  }

  /** What the debugger looks at before it removes anything; bypass copies are not among the addresses. */
  predicate Watched(s: State, x: int) { s.image.Has(x) || InPatch(s, x) || InTrampoline(s, x) }

  predicate CheckPasses(s: State) {
    s.active == 0 && forall t :: t in s.threads ==> !Watched(s, Top(s.threads[t]).rip)
  }

  /** No application code, running or waiting, is inside `r`. */
  predicate NobodyIn(s: State, r: Range) {
    forall t :: t in s.threads ==> NoFrameIn(s.threads[t], r)
  }

  predicate NoFrameIn(k: Stack, r: Range) { forall i :: 0 <= i < |k| && k[i].App? ==> !r.Has(k[i].rip) }

  predicate Enabled(s: State, step: Step) {
    match step
    case Act(t, a) => t in s.threads && CanAct(s, s.threads[t], a)
    case Spawn(t, rip) => t !in s.threads && Clear(s, rip)
    case Die(t) => t in s.threads
    case Install(site) => s.installed && NobodyIn(s, site.patch) && NobodyIn(s, site.trampoline)
    case Remove => s.installed && CheckPasses(s)
  }

  function Next(s: State, step: Step): State
    requires Enabled(s, step)
  {
    match step
    case Act(t, a) => s.(threads := s.threads[t := After(s, s.threads[t], a)], active := s.active + Delta(a))
    case Spawn(t, rip) => s.(threads := s.threads[t := [App(rip)]])
    case Die(t) => s.(threads := s.threads - {t}, lost := s.lost + |BodiesOf(t, s.threads[t])|)
    case Install(site) => s.(sites := s.sites + [site])
    case Remove => s.(installed := false)
  }

  // ---------------------------------------------------------------- what every step keeps

  /** Only some activations wait for a callee, and trampolines and bypasses are called from counted bodies. */
  predicate StackOk(s: State, k: Stack) {
    && (forall i :: 0 <= i < |k| ==> FrameOk(s, k[i]))
    && (forall i :: 0 <= i < |k| - 1 ==> k[i].App? || k[i].Body? || k[i].Trampoline? || k[i].Bypass?)
    && (forall i :: 0 <= i < |k| && (k[i].Trampoline? || k[i].Bypass?) ==> i > 0 && k[i - 1].Body?)
  }

  ghost predicate StacksOk(s: State) { forall t :: t in s.threads ==> StackOk(s, s.threads[t]) }

  function BodiesOf(t: Tid, k: Stack): set<(Tid, nat)> { set i | 0 <= i < |k| && k[i].Body? :: (t, i) }

  /** The counted activations of all threads, as (thread, depth). */
  ghost function Bodies(threads: map<Tid, Stack>): set<(Tid, nat)> {
    set t, i | t in threads.Keys && 0 <= i < |threads[t]| && threads[t][i].Body? :: (t, i)
  }

  ghost predicate CounterExact(s: State) { s.active == |Bodies(s.threads)| + s.lost }

  /** Application code only. */
  predicate Uninstrumented(s: State, k: Stack) {
    forall i :: 0 <= i < |k| ==> k[i].App? && !InFreed(s, k[i].rip)
  }

  ghost predicate AllUninstrumented(s: State) { forall t :: t in s.threads ==> Uninstrumented(s, s.threads[t]) }

  ghost predicate Inv(s: State) {
    && StacksOk(s) && CounterExact(s)
    && (!s.installed ==> AllUninstrumented(s))
  }

  lemma ActKeepsStack(s: State, k: Stack, a: Action)
    requires StackOk(s, k) && CanAct(s, k, a)
    ensures StackOk(s, After(s, k, a))
  {
  }

  predicate BodyAt(k: Stack, i: nat) { i < |k| && k[i].Body? }

  lemma BodiesGrow(threads: map<Tid, Stack>, t: Tid, k': Stack, top: nat)
    requires t in threads && !BodyAt(threads[t], top)
    requires forall i: nat :: BodyAt(k', i) <==> i == top || BodyAt(threads[t], i)
    ensures |Bodies(threads[t := k'])| == |Bodies(threads)| + 1
  {
    forall u, i: nat ensures (u, i) in Bodies(threads[t := k']) <==> (u, i) in Bodies(threads) + {(t, top)} {
      assert BodyAt(k', i) <==> i == top || BodyAt(threads[t], i);
    }
    assert Bodies(threads[t := k']) == Bodies(threads) + {(t, top)};
    assert (t, top) !in Bodies(threads);
  }

  lemma BodiesStay(threads: map<Tid, Stack>, t: Tid, k': Stack)
    requires t in threads
    requires forall i: nat :: BodyAt(k', i) <==> BodyAt(threads[t], i)
    ensures Bodies(threads[t := k']) == Bodies(threads)
  {
    forall u, i: nat ensures (u, i) in Bodies(threads[t := k']) <==> (u, i) in Bodies(threads) {
      assert BodyAt(k', i) <==> BodyAt(threads[t], i);
    }
  }

  lemma BodiesShrink(threads: map<Tid, Stack>, t: Tid, k': Stack, top: nat)
    requires t in threads && BodyAt(threads[t], top)
    requires forall i: nat :: BodyAt(k', i) <==> i != top && BodyAt(threads[t], i)
    ensures |Bodies(threads[t := k'])| == |Bodies(threads)| - 1
  {
    forall u, i: nat ensures (u, i) in Bodies(threads[t := k']) <==> (u, i) in Bodies(threads) - {(t, top)} {
      assert BodyAt(k', i) <==> i != top && BodyAt(threads[t], i);
    }
    assert Bodies(threads[t := k']) == Bodies(threads) - {(t, top)};
    assert (t, top) in Bodies(threads);
  }

  /** Only the two counter updates make or unmake a counted activation. */
  lemma ActOnBodies(s: State, k: Stack, a: Action)
    requires CanAct(s, k, a)
    ensures a.CountIn? ==> !BodyAt(k, |k| - 1)
    ensures a.CountOut? ==> BodyAt(k, |k| - 1)
    ensures forall i: nat :: BodyAt(After(s, k, a), i) <==>
      if a.CountIn? && i == |k| - 1 then true
      else if a.CountOut? && i == |k| - 1 then false
      else BodyAt(k, i)
  {
  }

  lemma ActKeepsCount(s: State, t: Tid, a: Action)
    requires t in s.threads && CanAct(s, s.threads[t], a)
    ensures |Bodies(s.threads[t := After(s, s.threads[t], a)])| == |Bodies(s.threads)| + Delta(a)
  {
    var k := s.threads[t];
    ActOnBodies(s, k, a);
    if a.CountIn? {
      BodiesGrow(s.threads, t, After(s, k, a), |k| - 1);
    } else if a.CountOut? {
      BodiesShrink(s.threads, t, After(s, k, a), |k| - 1);
    } else {
      BodiesStay(s.threads, t, After(s, k, a));
    }
  }

  lemma SpawnKeepsCount(threads: map<Tid, Stack>, t: Tid, rip: int)
    requires t !in threads
    ensures Bodies(threads[t := [App(rip)]]) == Bodies(threads)
  {
    var threads' := threads[t := [App(rip)]];
    forall u, i: nat ensures (u, i) in Bodies(threads') <==> (u, i) in Bodies(threads) {
    }
  }

  lemma DieKeepsCount(threads: map<Tid, Stack>, t: Tid)
    requires t in threads
    ensures |Bodies(threads - {t})| + |BodiesOf(t, threads[t])| == |Bodies(threads)|
  {
    var left, gone := Bodies(threads - {t}), BodiesOf(t, threads[t]);
    forall u, i: nat ensures (u, i) in Bodies(threads) <==> (u, i) in left + gone {
    }
    assert Bodies(threads) == left + gone && left !! gone;
  }

  /** A frame stays in its own code when a hook is added around it. */
  lemma InstallKeepsFrame(s: State, added: Site, k: Stack, i: nat)
    requires i < |k| && FrameOk(s, k[i]) && NoFrameIn(k, added.patch) && NoFrameIn(k, added.trampoline)
    ensures FrameOk(s.(sites := s.sites + [added]), k[i])
  {
    var s' := s.(sites := s.sites + [added]);
    match k[i]
    case App(x) =>
      assert !k[i].App? || (!added.patch.Has(x) && !added.trampoline.Has(x));
      AddedSite(s, added, x);
    case Entry(h, x) => assert s'.sites[h] == s.sites[h];
    case Trampoline(h, x) => assert s'.sites[h] == s.sites[h];
    case _ =>
  }

  lemma AddedSite(s: State, added: Site, x: int)
    ensures InPatch(s.(sites := s.sites + [added]), x) <==> InPatch(s, x) || added.patch.Has(x)
    ensures InTrampoline(s.(sites := s.sites + [added]), x) <==> InTrampoline(s, x) || added.trampoline.Has(x)
  {
    var all := s.sites + [added];
    assert all[|s.sites|] == added;
    assert forall i :: 0 <= i < |s.sites| ==> all[i] == s.sites[i];
  }

  /**
   The heart of the check. If the counter is zero, no handler body is on any stack, so no trampoline or bypass
   is, so every waiting frame is application code; and the running frames were looked at.
   */
  lemma CheckedStack(s: State, t: Tid)
    requires StacksOk(s) && CounterExact(s) && CheckPasses(s) && t in s.threads && s.installed
    ensures Uninstrumented(s, s.threads[t])
    ensures forall i :: 0 <= i < |s.threads[t]| ==> !InPatch(s, s.threads[t][i].rip)
  {
    var k := s.threads[t];
    assert Bodies(s.threads) == {};
    forall i: nat | i < |k| ensures !k[i].Body? {
      assert k[i].Body? <==> (t, i) in Bodies(s.threads);
    }
    assert StackOk(s, k) && !Watched(s, Top(k).rip);
    forall i | 0 <= i < |k| ensures k[i].App? {
      TopIsWatched(s, k);
      assert i > 0 ==> !k[i - 1].Body?;
    }
    forall i | 0 <= i < |k| ensures !InFreed(s, k[i].rip) && !InPatch(s, k[i].rip) {
      assert FrameOk(s, k[i]) && k[i].App?;
    }
  }

  lemma TopIsWatched(s: State, k: Stack)
    requires FrameOk(s, Top(k)) && !Watched(s, Top(k).rip)
    ensures Top(k).App? || Top(k).Bypass?
  {
  }

  // ---------------------------------------------------------------- every run

  /** Before the removal. */
  lemma ActKeepsInv(s: State, t: Tid, a: Action)
    requires Inv(s) && Enabled(s, Act(t, a))
    ensures StacksOk(Next(s, Act(t, a))) && CounterExact(Next(s, Act(t, a)))
  {
    var k, s' := s.threads[t], Next(s, Act(t, a));
    ActKeepsStack(s, k, a);
    ActKeepsCount(s, t, a);
    forall u | u in s'.threads ensures StackOk(s', s'.threads[u]) {
      SameCode(s, s', s'.threads[u]);
    }
  }

  /** Stacks are judged by the code around them only. */
  lemma SameCode(s: State, s': State, k: Stack)
    requires s'.installed == s.installed && s'.image == s.image && s'.sites == s.sites && s'.bypasses == s.bypasses
    ensures StackOk(s', k) <==> StackOk(s, k)
  {
    forall x: int ensures Clear(s', x) <==> Clear(s, x) {
      assert InPatch(s', x) <==> InPatch(s, x);
      assert InTrampoline(s', x) <==> InTrampoline(s, x);
      assert InBypass(s', x) <==> InBypass(s, x);
    }
  }

  lemma SpawnKeepsInv(s: State, t: Tid, rip: int)
    requires Inv(s) && Enabled(s, Spawn(t, rip))
    ensures StacksOk(Next(s, Spawn(t, rip))) && CounterExact(Next(s, Spawn(t, rip)))
  {
    var s' := Next(s, Spawn(t, rip));
    SpawnKeepsCount(s.threads, t, rip);
    forall u | u in s'.threads ensures StackOk(s', s'.threads[u]) {
      SameCode(s, s', s'.threads[u]);
    }
  }

  lemma DieKeepsInv(s: State, t: Tid)
    requires Inv(s) && Enabled(s, Die(t))
    ensures StacksOk(Next(s, Die(t))) && CounterExact(Next(s, Die(t)))
  {
    var s' := Next(s, Die(t));
    DieKeepsCount(s.threads, t);
    forall u | u in s'.threads ensures StackOk(s', s'.threads[u]) {
      SameCode(s, s', s'.threads[u]);
    }
  }

  lemma InstallKeepsInv(s: State, added: Site)
    requires Inv(s) && Enabled(s, Install(added))
    ensures StacksOk(Next(s, Install(added))) && CounterExact(Next(s, Install(added)))
  {
    var s' := Next(s, Install(added));
    forall u | u in s'.threads ensures StackOk(s', s'.threads[u]) {
      var k := s.threads[u];
      assert NoFrameIn(k, added.patch) && NoFrameIn(k, added.trampoline);
      assert StackOk(s, k);
      forall i | 0 <= i < |k| ensures FrameOk(s', k[i]) {
        InstallKeepsFrame(s, added, k, i);
      }
    }
  }

  lemma RemoveKeepsInv(s: State)
    requires Inv(s) && Enabled(s, Remove)
    ensures Inv(Next(s, Remove))
    ensures forall t :: t in s.threads ==> NoFrameInPatches(s, s.threads[t])
  {
    var s' := Next(s, Remove);
    forall t | t in s.threads
      ensures Uninstrumented(s', s'.threads[t]) && StackOk(s', s'.threads[t])
      ensures NoFrameInPatches(s, s.threads[t])
    {
      CheckedStack(s, t);
      UninstrumentedIsOk(s', s'.threads[t]);
    }
  }

  predicate NoFrameInPatches(s: State, k: Stack) { forall i :: 0 <= i < |k| ==> !InPatch(s, k[i].rip) }

  lemma UninstrumentedIsOk(s: State, k: Stack)
    requires !s.installed && Uninstrumented(s, k)
    ensures StackOk(s, k)
  {
  }

  /** After the removal, application code stays application code. */
  lemma ActAfterRemoval(s: State, k: Stack, a: Action)
    requires !s.installed && Uninstrumented(s, k) && CanAct(s, k, a)
    ensures Uninstrumented(s, After(s, k, a))
  {
    assert k[|k| - 1].App?;
  }

  lemma StaysUninstrumented(s: State, step: Step)
    requires !s.installed && AllUninstrumented(s) && Enabled(s, step)
    ensures !Next(s, step).installed && AllUninstrumented(Next(s, step))
  {
    var s' := Next(s, step);
    forall u | u in s'.threads ensures Uninstrumented(s', s'.threads[u]) {
      if step.Act? && step.t == u {
        ActAfterRemoval(s, s.threads[u], step.action);
      } else if u in s.threads {
        assert Uninstrumented(s, s.threads[u]);
      }
    }
  }

  lemma NextKeepsInv(s: State, step: Step)
    requires Inv(s) && Enabled(s, step)
    ensures Inv(Next(s, step))
  {
    match step
    case Act(t, a) => ActKeepsInv(s, t, a);
    case Spawn(t, rip) => SpawnKeepsInv(s, t, rip);
    case Die(t) => DieKeepsInv(s, t);
    case Install(added) => InstallKeepsInv(s, added);
    case Remove => RemoveKeepsInv(s);
    if !s.installed {
      StaysUninstrumented(s, step);
    }
  }

  /** Before any hook: no thread is in the freshly mapped hook image or in a bypass copy. */
  ghost predicate Init(s: State) {
    && s.installed && s.sites == [] && s.active == 0 && s.lost == 0
    && forall t :: t in s.threads ==> AllClear(s, s.threads[t])
  }

  predicate AllClear(s: State, k: Stack) { forall i :: 0 <= i < |k| ==> k[i].App? && Clear(s, k[i].rip) }

  lemma InitIsInv(s: State)
    requires Init(s)
    ensures Inv(s)
  {
    forall t, i: nat ensures (t, i) !in Bodies(s.threads) {
      assert t in s.threads && i < |s.threads[t]| ==> s.threads[t][i].App?;
    }
    assert Bodies(s.threads) == {};
    forall t | t in s.threads ensures StackOk(s, s.threads[t]) {
      assert AllClear(s, s.threads[t]);
    }
  }

  /** `steps` takes `s` to the last of these states, visiting all of them. */
  ghost predicate Run(s: State, steps: seq<Step>, s': State)
    decreases |steps|
  {
    if steps == [] then s' == s
    else Enabled(s, steps[0]) && Run(Next(s, steps[0]), steps[1..], s')
  }

  lemma {:induction false} RunKeepsInv(s: State, steps: seq<Step>, s': State)
    requires Inv(s) && Run(s, steps, s')
    ensures Inv(s')
    decreases |steps|
  {
    if steps != [] {
      NextKeepsInv(s, steps[0]);
      RunKeepsInv(Next(s, steps[0]), steps[1..], s');
    }
  }

  /** ActiveHookCalls counts the handler bodies on all stacks, and those of threads that ended in one. */
  lemma CounterCountsBodies(s: State, steps: seq<Step>, s': State)
    requires Init(s) && Run(s, steps, s')
    ensures s'.active == |Bodies(s'.threads)| + s'.lost
  {
    InitIsInv(s);
    RunKeepsInv(s, steps, s');
  }

  lemma {:induction false} RemovedStaysRemoved(s: State, steps: seq<Step>, s': State)
    requires !s.installed && AllUninstrumented(s) && Run(s, steps, s')
    ensures !s'.installed && AllUninstrumented(s')
    decreases |steps|
  {
    if steps != [] {
      StaysUninstrumented(s, steps[0]);
      RemovedStaysRemoved(Next(s, steps[0]), steps[1..], s');
    }
  }

  /** Nothing new is installed after a removal, so what was freed is what was there. */
  lemma {:induction false} FreedStays(s: State, steps: seq<Step>, s': State)
    requires !s.installed && Run(s, steps, s')
    ensures s'.image == s.image && s'.sites == s.sites && s'.bypasses == s.bypasses
    decreases |steps|
  {
    if steps != [] {
      FreedStays(Next(s, steps[0]), steps[1..], s');
    }
  }

  /**
   Safe removal. In any run, if the check passes and the hooks come out, then no activation, running or
   waiting, stands inside a restored function at that moment, and in every later state no thread has an
   activation of a handler, a trampoline, a bypass or a patched entry, nor a return address in freed code.
   */
  lemma SafeRemoval(init: State, before: seq<Step>, stopped: State, after: seq<Step>, later: State)
    requires Init(init) && Run(init, before, stopped)
    requires Enabled(stopped, Remove) && Run(Next(stopped, Remove), after, later)
    ensures forall t :: t in stopped.threads ==> NoFrameInPatches(stopped, stopped.threads[t])
    ensures AllUninstrumented(later)
  {
    InitIsInv(init);
    RunKeepsInv(init, before, stopped);
    RemoveKeepsInv(stopped);
    RemovedStaysRemoved(Next(stopped, Remove), after, later);
  }

  /** While hooks are in, the check passes exactly when no activation is instrumented and no count was lost. */
  lemma CheckIsExact(init: State, steps: seq<Step>, s: State)
    requires Init(init) && Run(init, steps, s) && s.installed
    ensures CheckPasses(s) <==> s.lost == 0 && AllUninstrumented(s)
  {
    InitIsInv(init);
    RunKeepsInv(init, steps, s);
    if CheckPasses(s) {
      forall t | t in s.threads ensures Uninstrumented(s, s.threads[t]) {
        CheckedStack(s, t);
      }
    }
    if s.lost == 0 && AllUninstrumented(s) {
      forall t, i: nat ensures (t, i) !in Bodies(s.threads) {
        assert t in s.threads && i < |s.threads[t]| ==> s.threads[t][i].App?;
      }
      assert Bodies(s.threads) == {};
      forall t | t in s.threads ensures !Watched(s, Top(s.threads[t]).rip) {
        var k := s.threads[t];
        assert StackOk(s, k) && FrameOk(s, k[|k| - 1]) && k[|k| - 1].App?;
      }
    }
  }
}
