/** Whole debugging sessions: modules come and go, the program runs in between, and at the end all comes out. */
module EventLoop {
  import opened Wrappers
  import opened TargetMemory
  import opened Trampoline
  import opened HookManager
  import opened HookRestoration
  import opened HookLog
  import opened Unloading
  import opened Forwarders
  import opened Transport
  import opened Session
  import opened SessionStory

  /** What the loop is told; the export tables are those of that moment. */
  datatype DebugEvent =
    | LoadDll(base: nat, path: string, remoteName: string, exports: Exports)
    | UnloadDll(base: nat)

  /**
   A session seen from outside: the hooks asked for, the modules known at first, the events, the export tables
   at the cleanup, and where the debugger put its image and its ring.
   */
  datatype Setup = Setup(
    definitions: seq<HookDefinition>, modules: Modules, generation: nat, events: seq<DebugEvent>,
    exports: Exports, image: Region, ring: Option<Region>)

  // ---------------------------------------------------------------- what the events decide

  datatype Table = Table(modules: Modules, generation: nat)

  /** The module table after the first `n` events. */
  function TableAfter(setup: Setup, n: nat): Table
    requires n <= |setup.events|
  {
    if n == 0 then Table(setup.modules, setup.generation)
    else
      var before := TableAfter(setup, n - 1);
      match setup.events[n - 1]
      case LoadDll(base, path, remoteName, _) =>
        var name := RecordedName(path, remoteName);
        if name == "" then before
        else Table(Loaded(before.modules, base, name, before.generation + 1), before.generation + 1)
      case UnloadDll(base) => Table(before.modules - {base}, before.generation)
  }

  /** Event `i` is a load after which definition `d` resolves like this. */
  ghost predicate ResolvesAt(setup: Setup, i: nat, d: HookDefinition, address: nat, target: nat) {
    && i < |setup.events| && setup.events[i].LoadDll? && d in setup.definitions
    && HookResolution(TableAfter(setup, i + 1).modules, setup.events[i].exports, d) == Resolved(address, target)
  }

  /** Event `i` made some definition resolve to `address`. */
  ghost predicate ResolvedBy(setup: Setup, i: nat, address: nat) {
    exists d: HookDefinition, target: nat :: ResolvesAt(setup, i, d, address, target)
  }

  ghost predicate Resolvable(setup: Setup, address: nat, target: nat) {
    exists i: nat, d: HookDefinition :: ResolvesAt(setup, i, d, address, target)
  }

  /** A hook that a round of the installation loop put where its definition resolves to. */
  ghost predicate PlacedAt(setup: Setup, i: nat, d: HookDefinition, h: InstalledHook) {
    && i < |setup.events| && setup.events[i].LoadDll? && d in setup.definitions
    && PlacedBy(TableAfter(setup, i + 1).modules, setup.events[i].exports, d, h)
  }

  ghost predicate PlacedIn(setup: Setup, n: nat, h: InstalledHook) {
    exists i: nat, d: HookDefinition :: i < n && PlacedAt(setup, i, d, h)
  }

  lemma PlacedIsResolvable(setup: Setup, n: nat, h: InstalledHook)
    requires PlacedIn(setup, n, h)
    ensures Resolvable(setup, h.original, h.target)
  {
    var i: nat, d: HookDefinition :| i < n && PlacedAt(setup, i, d, h);
    assert ResolvesAt(setup, i, d, h.original, h.target);
  }

  /** Some module that the hook took part in went away. */
  predicate DroppedIn(setup: Setup, n: nat, h: InstalledHook)
    requires n <= |setup.events|
  {
    exists i :: 0 <= i < n && setup.events[i].UnloadDll? && Dropped(h, setup.events[i].base)
  }

  predicate OnlyLoads(setup: Setup, n: nat)
    requires n <= |setup.events|
  {
    forall i :: 0 <= i < n ==> setup.events[i].LoadDll?
  }

  /** Where hooks can go is apart, and what goes away with its module is not counted on to stay. */
  ghost predicate Separate(setup: Setup, fixed: set<int>) {
    && (forall a, t, b, u :: Resolvable(setup, a, t) && Resolvable(setup, b, u) ==> FarApart(a, b))
    && forall a, t, i :: 0 <= i < |setup.events| && Resolvable(setup, a, t) && setup.events[i] == UnloadDll(t) ==>
         !ReachesInto(a, fixed)
  }

  predicate FarApart(a: nat, b: nat) { a == b || a + DECODE_WINDOW <= b || b + DECODE_WINDOW <= a }

  predicate ReachesInto(a: nat, code: set<int>) { exists x :: x in code && InRange(x, a, DECODE_WINDOW) }

  /** `x` belongs to the debugger, or is a variable that it sets. */
  ghost predicate Taken(setup: Setup, x: int) {
    || Remotely(x, setup.exports, Remote(setup.ring, None, None, setup.image))
    || exists i :: 0 <= i < |setup.events| && TakenAt(setup, i, x)
  }

  ghost predicate TakenAt(setup: Setup, i: nat, x: int)
    requires i < |setup.events|
  {
    && setup.events[i].LoadDll?
    && !Foreign({x}, setup.definitions, setup.events[i].exports, setup.image.start)
  }

  /** Code is not where the hook image keeps its variables. */
  ghost predicate Foreign(code: set<int>, definitions: seq<HookDefinition>, exports: Exports, image: nat) {
    forall x :: x in code ==>
      && !InVariable(x, exports(image, "TransportNtSetEvent"))
      && !InVariable(x, exports(image, "TransportNtReadVirtualMemory"))
      && forall d :: d in definitions ==> !InVariable(x, exports(image, d.trampolineExport))
  }

  lemma UntakenIsForeign(setup: Setup, i: nat, code: set<int>)
    requires i < |setup.events| && setup.events[i].LoadDll? && forall x :: x in code ==> !Taken(setup, x)
    ensures Foreign(code, setup.definitions, setup.events[i].exports, setup.image.start)
  {
    forall x | x in code ensures Foreign({x}, setup.definitions, setup.events[i].exports, setup.image.start) {
      assert !TakenAt(setup, i, x);
    }
    forall x | x in code
      ensures !InVariable(x, setup.events[i].exports(setup.image.start, "TransportNtSetEvent"))
      ensures !InVariable(x, setup.events[i].exports(setup.image.start, "TransportNtReadVirtualMemory"))
      ensures forall d :: d in setup.definitions ==>
        !InVariable(x, setup.events[i].exports(setup.image.start, d.trampolineExport))
    {
      assert x in {x};
    }
  }

  // ---------------------------------------------------------------- a pass of installations

  /** The handler and slot that the hook image exports are those of the record. */
  lemma PutForIsPut(
    session: DebugSession, exports: Exports, d: HookDefinition, m: Memory, h: InstalledHook, m': Memory)
    requires session.PutFor(exports, d, m, h, m')
    ensures Put(session.process.decode, m, h, m') && |h.originalBytes| <= DECODE_WINDOW
    ensures exports(session.hookImageBase, d.trampolineExport).Some?
    ensures exports(session.hookImageBase, d.trampolineExport).value.address == h.slot
  {
  }

  /** A story that goes on from another with the hooks of `hooks`. */
  predicate Continues(s: Story, s': Story, hooks: seq<InstalledHook>) {
    && s'.born == s.born && s'.lost == s.lost && s.log.states <= s'.log.states
    && s.known <= s'.known && forall h :: h in s'.known ==> h in s.known || (h in hooks && Short(h))
  }

  predicate Short(h: InstalledHook) { |h.originalBytes| <= DECODE_WINDOW }

  lemma RoundTold(
    session: DebugSession, exports: Exports, d: HookDefinition, now: Moment, then': Moment, s: Story, ordered: bool)
    returns (s': Story)
    requires session.Settling(exports, d, now, then') && d in session.definitions
    requires Foreign(s.born.Keys, session.definitions, exports, session.hookImageBase)
    requires Told(session.process.decode, s, ordered, now.memory, now.hooks)
    ensures Told(session.process.decode, s', ordered, then'.memory, then'.hooks)
    ensures Continues(s, s', then'.hooks) && now.hooks <= then'.hooks
  {
    hide Told, HookResolution, PlacedBy, Put;
    if then' == now {
      s' := s;
    } else {
      var h := then'.hooks[|then'.hooks| - 1];
      PutForIsPut(session, exports, d, now.memory, h, then'.memory);
      s' := HookTold(session.process.decode, s, ordered, now.memory, now.hooks, h, then'.memory);
    }
  }

  /** A whole pass. */
  lemma {:induction false} PassTold(
    session: DebugSession, exports: Exports, rounds: seq<Moment>, n: nat, s: Story, ordered: bool)
    returns (s': Story)
    requires session.Rounds(exports, rounds) && n < |rounds|
    requires Foreign(s.born.Keys, session.definitions, exports, session.hookImageBase)
    requires Told(session.process.decode, s, ordered, rounds[0].memory, rounds[0].hooks)
    ensures Told(session.process.decode, s', ordered, rounds[n].memory, rounds[n].hooks)
    ensures Continues(s, s', rounds[n].hooks) && rounds[0].hooks <= rounds[n].hooks
    decreases n
  {
    hide Told, Foreign, Short, DebugSession.Settling, DebugSession.CanSettle;
    if n == 0 {
      s' := s;
    } else {
      var before := PassTold(session, exports, rounds, n - 1, s, ordered);
      assert session.Round(exports, session.definitions[n - 1], rounds[n - 1], rounds[n]);
      s' := RoundTold(session, exports, session.definitions[n - 1], rounds[n - 1], rounds[n], before, ordered);
    }
  }

  // ---------------------------------------------------------------- an attempt that fails

  /** The definition that could not be hooked, if its function can have been touched. */
  ghost predicate FailedAt(session: DebugSession, exports: Exports, p: nat)
    reads session`modules
  {
    exists d: HookDefinition, target: nat ::
      d in session.definitions && HookResolution(session.modules, exports, d) == Resolved(p, target)
  }

  /** All code but what a failed installation can have spoiled. */
  function Outside(code: set<int>, spoiled: Option<nat>): set<int> {
    if spoiled.None? then code else set x | x in code && !InRange(x, spoiled.value, DECODE_WINDOW)
  }

  lemma FailedKeeps(
    session: DebugSession, exports: Exports, d: HookDefinition, now: Moment, then': Moment, code: set<int>)
    returns (spoiled: Option<nat>)
    requires session.Failing(exports, d, now, then') && d in session.definitions
    requires Foreign(code, session.definitions, exports, session.hookImageBase)
    requires forall x :: x in code ==> x in now.memory
    ensures SameOn(Outside(code, spoiled), now.memory, then'.memory)
    ensures spoiled.Some? ==> FailedAt(session, exports, spoiled.value)
  {
    var result := HookResolution(session.modules, exports, d);
    spoiled := None;
    if then'.memory != now.memory {
      spoiled := Some(result.address);
      FailedForKeeps(session, exports, d, result.address, now.memory, then'.memory, code);
      assert result == Resolved(result.address, result.target);
    }
  }

  lemma FailedForKeeps(
    session: DebugSession, exports: Exports, d: HookDefinition, address: nat, m: Memory, m': Memory, code: set<int>)
    requires session.FailedFor(exports, d, address, m, m') && d in session.definitions
    requires Foreign(code, session.definitions, exports, session.hookImageBase)
    requires forall x :: x in code ==> x in m
    ensures SameOn(Outside(code, Some(address)), m, m')
  {
    var slot := session.HookImageExport(exports, d.trampolineExport);
    if slot.Some? {
      forall x | x in Outside(code, Some(address)) ensures x in m' && m[x] == m'[x] {
        assert !InVariable(x, exports(session.hookImageBase, d.trampolineExport));
      }
    }
  }

  lemma TransportKeeps(
    code: set<int>, definitions: seq<HookDefinition>, exports: Exports, image: nat, m: Memory, m': Memory)
    requires Foreign(code, definitions, exports, image) && KeptBut(m, m', exports, image)
    requires forall x :: x in code ==> x in m
    ensures SameOn(code, m, m')
  {
  }

  /** Only part of the code is still spoken of. */
  lemma FewerTold(
    decode: Decoder, s: Story, ordered: bool, m: Memory, hooks: seq<InstalledHook>, m': Memory, code: set<int>)
    returns (s': Story)
    requires Told(decode, s, ordered, m, hooks) && code <= s.born.Keys && SameOn(code, m, m')
    ensures Told(decode, s', ordered, m', hooks) && Narrows(s, s', code)
  {
    hide Told;
    ToldIsMapped(decode, s, ordered, m, hooks);
    assert s.born.Keys * code == code;
    RunTold(decode, s, ordered, m, hooks, m', code);
    s' := Run(s, m', code);
  }

  /** The same story about the code in `code`, as far as that was in it. */
  predicate Narrows(s: Story, s': Story, code: set<int>) {
    && s'.born.Keys == code && s'.lost == s.lost && s'.known == s.known && s'.log.changes == s.log.changes
    && forall x :: x in s.born && x in code ==> SameFirst(s, s', x)
  }

  predicate SameFirst(s: Story, s': Story, x: int)
    requires x in s.born && x in s'.born
  {
    && s.born[x] < |s.log.states| && x in s.log.states[s.born[x]]
    && s'.born[x] < |s'.log.states| && x in s'.log.states[s'.born[x]]
    && First(s'.log, s'.born, x) == First(s.log, s.born, x)
  }

  // ---------------------------------------------------------------- one event

  /** A bypass has its own memory. */
  predicate Away(code: set<int>, bypass: Option<RemoteTrampoline>) {
    bypass.Some? ==> forall x :: x in code ==> !InRange(x, bypass.value.address, TRAMPOLINE_SIZE)
  }

  lemma StillAway(code: set<int>, m: Memory, before: Option<RemoteTrampoline>, now: Option<RemoteTrampoline>)
    requires Away(code, before) && OldOrFresh(m, before, now) && forall x :: x in code ==> x in m
    ensures Away(code, now)
  {
  }

  lemma FewerAway(code: set<int>, code': set<int>, bypass: Option<RemoteTrampoline>)
    requires Away(code, bypass) && code' <= code
    ensures Away(code', bypass)
  {
  }

  /** What holds between two events. */
  ghost predicate Sound(session: DebugSession, s: Story, ordered: bool)
    reads session, session.process
  {
    && session.Valid()
    && Told(session.process.decode, s, ordered, session.process.memory, session.installedHooks)
    && Away(s.born.Keys, session.setEventBypass) && Away(s.born.Keys, session.readMemoryBypass)
  }

  lemma FailedHooks(session: DebugSession, exports: Exports, d: HookDefinition, now: Moment)
    requires session.Failing(exports, d, now, session.Now())
    ensures session.installedHooks == now.hooks
  {
  }

  /** Goes on from `s`, about the code that is not spoiled. */
  predicate LoadGoes(s: Story, s': Story, hooks: seq<InstalledHook>, spoiled: Option<nat>) {
    && s'.born.Keys == Outside(s.born.Keys, spoiled) && s'.lost == s.lost
    && s.known <= s'.known && (forall h :: h in s'.known ==> h in s.known || (h in hooks && Short(h)))
    && forall x :: x in s.born && x in s'.born ==> SameFirst(s, s', x)
  }

  lemma ContinuesFirst(
    decode: Decoder, s: Story, ordered: bool, m: Memory, hooks: seq<InstalledHook>, s': Story,
    hooks': seq<InstalledHook>)
    requires Told(decode, s, ordered, m, hooks) && Continues(s, s', hooks')
    ensures forall x :: x in s.born ==> SameFirst(s, s', x)
  {
    forall x | x in s.born ensures SameFirst(s, s', x) {
      BornIn(decode, s.born, s.log, x);
    }
  }

  lemma ToldFirst(decode: Decoder, s: Story, ordered: bool, m: Memory, hooks: seq<InstalledHook>)
    requires Told(decode, s, ordered, m, hooks)
    ensures forall x :: x in s.born ==> SameFirst(s, s, x)
  {
    forall x | x in s.born ensures SameFirst(s, s, x) {
      BornIn(decode, s.born, s.log, x);
    }
  }

  /** What follows from how a load went. */
  lemma LoadTold(
    session: DebugSession, exports: Exports, rounds: seq<Moment>, ok: bool, hooks: seq<InstalledHook>, m: Memory,
    s: Story, ordered: bool)
    returns (s': Story, spoiled: Option<nat>)
    requires Foreign(s.born.Keys, session.definitions, exports, session.hookImageBase)
    requires Told(session.process.decode, s, ordered, m, hooks)
    requires rounds == [] ==>
      && session.installedHooks == hooks
      && KeptBut(m, session.process.memory, exports, session.hookImageBase)
    requires rounds != [] ==>
      && rounds[0].hooks == hooks && session.PassEnds(exports, rounds, ok, session.Now())
      && KeptBut(m, rounds[0].memory, exports, session.hookImageBase)
    ensures Told(session.process.decode, s', ordered, session.process.memory, session.installedHooks)
    ensures LoadGoes(s, s', session.installedHooks, spoiled)
    ensures ok ==> spoiled.None?
    ensures spoiled.Some? ==> FailedAt(session, exports, spoiled.value)
  {
    hide Told, Foreign, KeptBut, Short, SameFirst, FailedAt;
    hide DebugSession.Failing, DebugSession.CanSettle, DebugSession.Settling;
    var decode, now := session.process.decode, session.process.memory;
    ToldIsMapped(decode, s, ordered, m, hooks);
    ToldFirst(decode, s, ordered, m, hooks);
    spoiled := None;
    if rounds == [] {
      TransportKeeps(s.born.Keys, session.definitions, exports, session.hookImageBase, m, now);
      SameTold(decode, s, ordered, m, hooks, now);
      s' := s;
    } else {
      var last := |rounds| - 1;
      TransportKeeps(s.born.Keys, session.definitions, exports, session.hookImageBase, m, rounds[0].memory);
      SameTold(decode, s, ordered, m, hooks, rounds[0].memory);
      s' := PassTold(session, exports, rounds, last, s, ordered);
      ContinuesFirst(decode, s, ordered, m, hooks, s', rounds[last].hooks);
      if !ok {
        var passed := s';
        ToldIsMapped(decode, passed, ordered, rounds[last].memory, rounds[last].hooks);
        spoiled := FailedKeeps(
          session, exports, session.definitions[last], rounds[last], session.Now(), passed.born.Keys);
        FailedHooks(session, exports, session.definitions[last], rounds[last]);
        s' := FewerTold(
          decode, passed, ordered, rounds[last].memory, rounds[last].hooks, now,
          Outside(passed.born.Keys, spoiled));
        FirstTwice(s, passed, s');
      }
    }
  }

  lemma FirstTwice(s: Story, mid: Story, s': Story)
    requires mid.born == s.born && s'.born.Keys <= s.born.Keys
    requires forall x :: x in s.born ==> SameFirst(s, mid, x)
    requires forall x :: x in mid.born && x in s'.born ==> SameFirst(mid, s', x)
    ensures forall x :: x in s.born && x in s'.born ==> SameFirst(s, s', x)
  {
  }

  method HandleLoad(
    session: DebugSession, base: nat, path: string, remoteName: string, exports: Exports,
    ghost s: Story, ghost ordered: bool)
    returns (ok: bool, ghost s': Story, ghost spoiled: Option<nat>)
    requires Sound(session, s, ordered)
    requires Foreign(s.born.Keys, session.definitions, exports, session.hookImageBase)
    modifies session`modules, session`moduleGeneration, session`transportConfigured, session`installedHooks
    modifies session`setEventBypass, session`readMemoryBypass, session.process
    ensures Sound(session, s', ordered) && LoadGoes(s, s', session.installedHooks, spoiled)
    ensures ok ==> spoiled.None?
    ensures spoiled.Some? ==> FailedAt(session, exports, spoiled.value)
    ensures
      var name, before := RecordedName(path, remoteName), Table(old(session.modules), old(session.moduleGeneration));
      Table(session.modules, session.moduleGeneration) ==
        if name == "" then before
        else Table(Loaded(before.modules, base, name, before.generation + 1), before.generation + 1)
    ensures forall h :: h in session.installedHooks ==>
      || h in old(session.installedHooks)
      || PlacedBySome(session.modules, exports, session.definitions, h)
  {
    hide Told, Foreign, Away, OldOrFresh, KeptBut, DebugSession.PassEnds, PlacedBySome, FailedAt, Outside;
    hide DebugSession.Valid, SameFirst, Short, TransportBuilt, CanConfigure, Newest, AllPlaced, NormalizeModuleName;
    ghost var m, hooks := session.process.memory, session.installedHooks;
    ghost var setEvent, readMemory := session.setEventBypass, session.readMemoryBypass;
    ToldIsMapped(session.process.decode, s, ordered, m, hooks);
    ghost var added, rounds;
    ok, added, rounds := session.RegisterModule(base, path, remoteName, exports);
    AddedArePlaced(session, exports, hooks, added);
    s', spoiled := LoadTold(session, exports, rounds, ok, hooks, m, s, ordered);
    OutsideIsFewer(s.born.Keys, spoiled);
    StillAway(s.born.Keys, m, setEvent, session.setEventBypass);
    StillAway(s.born.Keys, m, readMemory, session.readMemoryBypass);
    FewerAway(s.born.Keys, s'.born.Keys, session.setEventBypass);
    FewerAway(s.born.Keys, s'.born.Keys, session.readMemoryBypass);
  }

  lemma AddedArePlaced(
    session: DebugSession, exports: Exports, hooks: seq<InstalledHook>, added: seq<InstalledHook>)
    requires AllPlaced(session.modules, exports, session.definitions, added)
    requires session.installedHooks == hooks + added
    ensures forall h :: h in session.installedHooks ==>
      h in hooks || PlacedBySome(session.modules, exports, session.definitions, h)
  {
  }

  lemma OutsideIsFewer(code: set<int>, spoiled: Option<nat>)
    ensures Outside(code, spoiled) <= code
  {
  }

  method HandleUnload(session: DebugSession, base: nat, ghost s: Story, ghost ordered: bool)
    returns (clean: bool, ghost undone: seq<InstalledHook>, ghost s': Story)
    requires Sound(session, s, ordered)
    modifies session`modules, session`installedHooks, session.process
    ensures s'.born == s.born && s'.known == s.known
    ensures s'.lost == s.lost + DroppedOnes(old(session.installedHooks), base)
    ensures s.log.states <= s'.log.states
    ensures Sound(session, s', ordered && Calm(old(session.installedHooks), base, undone, s.born))
    ensures session.modules == old(session.modules) - {base}
    ensures forall h :: h in session.installedHooks ==> h in old(session.installedHooks)
    ensures clean ==> forall h :: h in old(session.installedHooks) && Undone(h, base) ==> h in undone
  {
    hide Told, Away, Calm;
    ghost var m, hooks, modules := session.process.memory, session.installedHooks, session.modules;
    clean, undone := session.HandleUnloadDll(base);
    s' := UnloadTold(
      session.process.decode, s, ordered, m, hooks, modules, base, undone, session.process.memory);
    WithoutModuleOk(modules, hooks, base);
  }

  // ---------------------------------------------------------------- the loop

  /** The session is the one that the setup describes, `n` events on. */
  ghost predicate Matches(session: DebugSession, setup: Setup, n: nat)
    requires n <= |setup.events|
    reads session
  {
    && session.definitions == setup.definitions
    && Region(session.hookImageBase, session.hookImageSize) == setup.image && session.remoteRing == setup.ring
    && Table(session.modules, session.moduleGeneration) == TableAfter(setup, n)
  }

  /** Every hook of the story went where an event made its definition resolve to, or was lost in one. */
  ghost predicate Explained(setup: Setup, n: nat, s: Story)
    requires n <= |setup.events|
  {
    && (forall h :: h in s.known ==> PlacedIn(setup, n, h) && Short(h))
    && forall h :: h in s.lost ==> DroppedIn(setup, n, h)
  }

  /** The code that is there all the time, as it was at first. */
  predicate FixedFirst(s: Story, fixed: set<int>, first: Memory) {
    forall x :: x in fixed ==>
      && x in s.born && s.born[x] < |s.log.states| && x in s.log.states[s.born[x]]
      && x in first && First(s.log, s.born, x) == first[x]
  }

  /** Nothing came off out of turn: no module went, or all removals succeeded and hooks do not meet. */
  ghost predicate Orderly(setup: Setup, n: nat, quiet: bool, fixed: set<int>)
    requires n <= |setup.events|
  {
    OnlyLoads(setup, n) || (quiet && Separate(setup, fixed))
  }

  /** Code that goes when its module does. */
  predicate GoesWith(setup: Setup, n: nat, hooks: seq<InstalledHook>, x: int) {
    n < |setup.events| && setup.events[n].UnloadDll?
    && exists h :: h in hooks && h.target == setup.events[n].base && InPatch(x, h)
  }

  /**
   The debuggee goes on until event `n`. It never writes to its code, but code can come and go: `fixed` stays,
   the code of a module is gone when its unload is reported, and what is new is nowhere the debugger is.
   */
  ghost method ProgramRuns(session: DebugSession, setup: Setup, n: nat, code: set<int>, fixed: set<int>)
    returns (code': set<int>)
    requires session.process.Valid() && fixed <= code
    requires forall x :: x in code ==> x in session.process.memory && !Taken(setup, x)
    requires Away(code, session.setEventBypass) && Away(code, session.readMemoryBypass)
    modifies session.process
    ensures session.process.Valid() && fixed <= code'
    ensures forall x :: x in code' ==> x in session.process.memory && !Taken(setup, x)
    ensures SameOn(code * code', old(session.process.memory), session.process.memory)
    ensures forall x :: x in code' ==> x in code || Unused(session.installedHooks, x)
    ensures forall x :: x in code' && GoesWith(setup, n, session.installedHooks, x) ==> x in fixed
    ensures Away(code', session.setEventBypass) && Away(code', session.readMemoryBypass)
  {
    code' := set x | x in code && (x in fixed || !GoesWith(setup, n, session.installedHooks, x));
  }

  /** Where resolvable addresses are apart, an unload that succeeds is calm. */
  lemma SeparateIsCalm(
    setup: Setup, n: nat, s: Story, modules: Modules, hooks: seq<InstalledHook>, base: nat,
    undone: seq<InstalledHook>, fixed: set<int>)
    requires n < |setup.events| && setup.events[n] == UnloadDll(base) && Separate(setup, fixed)
    requires HooksOk(modules, hooks) && (forall h :: h in hooks ==> h in s.known) && Explained(setup, n, s)
    requires forall h :: h in hooks && Undone(h, base) ==> h in undone
    requires forall x :: x in s.born && GoesWith(setup, n, hooks, x) ==> x in fixed
    ensures Calm(hooks, base, undone, s.born)
  {
    hide PlacedIn, DroppedIn, Resolvable;
    forall x, g, h | x in s.born && g in hooks && h in hooks && InPatch(x, g) && InPatch(x, h) ensures g == h {
      PlacedIsResolvable(setup, n, g);
      PlacedIsResolvable(setup, n, h);
      assert FarApart(g.original, h.original) && Short(g) && Short(h);
      SameFunction(modules, hooks, g, h);
    }
    forall x, h | x in s.born && h in hooks && Dropped(h, base) && InPatch(x, h) ensures h in undone {
      if h.target == base {
        assert GoesWith(setup, n, hooks, x);
        FixedNotOver(setup, n, fixed, h, x);
      }
    }
  }

  lemma FixedNotOver(setup: Setup, n: nat, fixed: set<int>, h: InstalledHook, x: int)
    requires n < |setup.events| && setup.events[n] == UnloadDll(h.target) && Separate(setup, fixed)
    requires PlacedIn(setup, n, h) && Short(h) && x in fixed
    ensures !InPatch(x, h)
  {
    hide PlacedIn, Resolvable;
    PlacedIsResolvable(setup, n, h);
    PatchInWindow(h);
    assert !ReachesInto(h.original, fixed);
  }

  lemma PatchInWindow(h: InstalledHook)
    requires Short(h)
    ensures forall x :: InPatch(x, h) ==> InRange(x, h.original, DECODE_WINDOW)
  {
  }

  lemma DifferentFunctions(modules: Modules, hooks: seq<InstalledHook>, i: nat, j: nat)
    requires HooksOk(modules, hooks) && i < j < |hooks|
    ensures hooks[i].original != hooks[j].original
  {
    assert Different(hooks[i], hooks[j]);
  }

  lemma SameFunction(modules: Modules, hooks: seq<InstalledHook>, g: InstalledHook, h: InstalledHook)
    requires HooksOk(modules, hooks) && g in hooks && h in hooks && g.original == h.original
    ensures g == h
  {
    var i :| 0 <= i < |hooks| && hooks[i] == g;
    var j :| 0 <= j < |hooks| && hooks[j] == h;
    if i < j { DifferentFunctions(modules, hooks, i, j); }
    if j < i { DifferentFunctions(modules, hooks, j, i); }
  }

  lemma PlacedLater(setup: Setup, n: nat, h: InstalledHook)
    requires n < |setup.events|
    ensures PlacedIn(setup, n, h) ==> PlacedIn(setup, n + 1, h)
    ensures DroppedIn(setup, n, h) ==> DroppedIn(setup, n + 1, h)
  {
    if PlacedIn(setup, n, h) {
      var i: nat, d: HookDefinition :| i < n && PlacedAt(setup, i, d, h);
    }
  }

  lemma PlacedNow(setup: Setup, n: nat, modules: Modules, h: InstalledHook)
    requires n < |setup.events| && setup.events[n].LoadDll? && modules == TableAfter(setup, n + 1).modules
    requires PlacedBySome(modules, setup.events[n].exports, setup.definitions, h)
    ensures PlacedIn(setup, n + 1, h)
  {
    var k :| 0 <= k < |setup.definitions|
      && PlacedBy(modules, setup.events[n].exports, setup.definitions[k], h);
    assert PlacedAt(setup, n, setup.definitions[k], h);
  }

  lemma ExplainedLoad(
    setup: Setup, n: nat, s: Story, s': Story, before: seq<InstalledHook>, hooks: seq<InstalledHook>,
    modules: Modules, spoiled: Option<nat>)
    requires n < |setup.events| && setup.events[n].LoadDll? && modules == TableAfter(setup, n + 1).modules
    requires Explained(setup, n, s) && (forall h :: h in before ==> h in s.known)
    requires LoadGoes(s, s', hooks, spoiled)
    requires forall h :: h in hooks ==>
      h in before || PlacedBySome(modules, setup.events[n].exports, setup.definitions, h)
    ensures Explained(setup, n + 1, s')
  {
    hide PlacedIn, DroppedIn, PlacedBySome, SameFirst, TableAfter;
    forall h | h in s'.known ensures PlacedIn(setup, n + 1, h) && Short(h) {
      PlacedLater(setup, n, h);
      if h !in s.known {
        PlacedNow(setup, n, modules, h);
      }
    }
    forall h | h in s'.lost ensures DroppedIn(setup, n + 1, h) {
      PlacedLater(setup, n, h);
    }
  }

  lemma ExplainedUnload(setup: Setup, n: nat, s: Story, s': Story, hooks: seq<InstalledHook>, base: nat)
    requires n < |setup.events| && setup.events[n] == UnloadDll(base) && Explained(setup, n, s)
    requires s'.known == s.known && s'.lost == s.lost + DroppedOnes(hooks, base)
    ensures Explained(setup, n + 1, s')
  {
    hide PlacedIn;
    forall h | h in s'.known ensures PlacedIn(setup, n + 1, h) {
      PlacedLater(setup, n, h);
    }
    forall h | h in s'.lost ensures DroppedIn(setup, n + 1, h) {
      PlacedLater(setup, n, h);
      if h in DroppedOnes(hooks, base) {
        assert setup.events[n].UnloadDll? && Dropped(h, setup.events[n].base);
      }
    }
  }

  lemma FixedNarrows(s: Story, s': Story, fixed: set<int>, fixed': set<int>, first: Memory)
    requires FixedFirst(s, fixed, first) && fixed' <= fixed && fixed' <= s'.born.Keys
    requires forall x :: x in s.born && x in s'.born ==> SameFirst(s, s', x)
    ensures FixedFirst(s', fixed', first)
  {
    forall x | x in fixed' ensures SameFirst(s, s', x) {
      assert x in fixed;
    }
  }

  lemma FixedUnload(s: Story, s': Story, fixed: set<int>, first: Memory)
    requires FixedFirst(s, fixed, first) && s'.born == s.born && s.log.states <= s'.log.states
    ensures FixedFirst(s', fixed, first)
  {
  }

  lemma OutsideOfFewer(fixed: set<int>, code: set<int>, spoiled: Option<nat>)
    requires fixed <= code
    ensures Outside(fixed, spoiled) <= Outside(code, spoiled) && Outside(fixed, spoiled) <= fixed
    ensures Outside(code, spoiled) <= code
  {
  }

  lemma FailedResolves(session: DebugSession, setup: Setup, n: nat, p: nat)
    requires n < |setup.events| && setup.events[n].LoadDll? && session.definitions == setup.definitions
    requires session.modules == TableAfter(setup, n + 1).modules && FailedAt(session, setup.events[n].exports, p)
    ensures ResolvedBy(setup, n, p)
  {
    var d: HookDefinition, target: nat :|
      d in session.definitions
      && HookResolution(session.modules, setup.events[n].exports, d) == Resolved(p, target);
    assert ResolvesAt(setup, n, d, p, target);
  }

  /** What the loop keeps from event to event. */
  ghost predicate Underway(
    session: DebugSession, setup: Setup, n: nat, quiet: bool, s: Story, fixed: set<int>, kept: set<int>,
    first: Memory)
    requires n <= |setup.events|
    reads session, session.process
  {
    && Matches(session, setup, n) && Explained(setup, n, s) && FixedFirst(s, kept, first)
    && Sound(session, s, Orderly(setup, n, quiet, fixed)) && forall x :: x in s.born ==> !Taken(setup, x)
  }

  /** The program runs until event `n`. */
  ghost method RunUntil(
    session: DebugSession, setup: Setup, n: nat, quiet: bool, s: Story, fixed: set<int>, first: Memory)
    returns (s': Story)
    requires n < |setup.events| && Underway(session, setup, n, quiet, s, fixed, fixed, first)
    modifies session.process
    ensures Underway(session, setup, n, quiet, s', fixed, fixed, first)
    ensures forall x :: x in s'.born && GoesWith(setup, n, session.installedHooks, x) ==> x in fixed
  {
    hide Told, Taken, Explained, Matches, GoesWith, Orderly, Unused;
    var decode, m, ordered := session.process.decode, session.process.memory, Orderly(setup, n, quiet, fixed);
    ToldIsMapped(decode, s, ordered, m, session.installedHooks);
    FixedIsBorn(s, fixed, first);
    var code := ProgramRuns(session, setup, n, s.born.Keys, fixed);
    RunTold(decode, s, ordered, m, session.installedHooks, session.process.memory, code);
    s' := Run(s, session.process.memory, code);
    SameExplained(setup, n, s, s');
    FixedNarrows(s, s', fixed, fixed, first);
  }

  lemma SameExplained(setup: Setup, n: nat, s: Story, s': Story)
    requires n <= |setup.events| && Explained(setup, n, s) && s'.known == s.known && s'.lost == s.lost
    ensures Explained(setup, n, s')
  {
  }

  method AttendLoad(
    session: DebugSession, setup: Setup, n: nat, base: nat, path: string, remoteName: string, exports: Exports,
    ghost quiet: bool, ghost s: Story, ghost fixed: set<int>, ghost first: Memory)
    returns (ok: bool, ghost s': Story, ghost spoiled: Option<nat>)
    requires n < |setup.events| && setup.events[n] == LoadDll(base, path, remoteName, exports)
    requires Underway(session, setup, n, quiet, s, fixed, fixed, first)
    modifies session`modules, session`moduleGeneration, session`transportConfigured, session`installedHooks
    modifies session`setEventBypass, session`readMemoryBypass, session.process
    ensures Underway(session, setup, n + 1, quiet, s', fixed, Outside(fixed, spoiled), first)
    ensures ok ==> spoiled.None?
    ensures spoiled.Some? ==> ResolvedBy(setup, n, spoiled.value)
  {
    hide Told, Taken, Explained, Foreign, PlacedBySome, FailedAt, SameFirst, Short, Outside, ResolvedBy, Away;
    hide DebugSession.Valid, OnlyLoads, Separate;
    ghost var hooks, ordered := session.installedHooks, Orderly(setup, n, quiet, fixed);
    UntakenIsForeign(setup, n, s.born.Keys);
    KnownHooks(session.process.decode, s, ordered, session.process.memory, hooks);
    ok, s', spoiled := HandleLoad(session, base, path, remoteName, exports, s, ordered);
    assert Table(session.modules, session.moduleGeneration) == TableAfter(setup, n + 1);
    ExplainedLoad(setup, n, s, s', hooks, session.installedHooks, session.modules, spoiled);
    FixedIsBorn(s, fixed, first);
    OutsideOfFewer(fixed, s.born.Keys, spoiled);
    FixedNarrows(s, s', fixed, Outside(fixed, spoiled), first);
    LoadsGoOn(setup, n, quiet, fixed);
    if spoiled.Some? {
      FailedResolves(session, setup, n, spoiled.value);
    }
  }

  lemma FixedIsBorn(s: Story, fixed: set<int>, first: Memory)
    requires FixedFirst(s, fixed, first)
    ensures fixed <= s.born.Keys
  {
    forall x | x in fixed ensures x in s.born.Keys {
    }
  }

  lemma KnownHooks(decode: Decoder, s: Story, ordered: bool, m: Memory, hooks: seq<InstalledHook>)
    requires Told(decode, s, ordered, m, hooks)
    ensures forall h :: h in hooks ==> h in s.known
  {
  }

  lemma LoadsGoOn(setup: Setup, n: nat, quiet: bool, fixed: set<int>)
    requires n < |setup.events| && setup.events[n].LoadDll?
    ensures Orderly(setup, n + 1, quiet, fixed) == Orderly(setup, n, quiet, fixed)
  {
  }

  method AttendUnload(
    session: DebugSession, setup: Setup, n: nat, base: nat, quiet: bool,
    ghost s: Story, ghost fixed: set<int>, ghost first: Memory)
    returns (quiet': bool, ghost s': Story)
    requires n < |setup.events| && setup.events[n] == UnloadDll(base)
    requires Underway(session, setup, n, quiet, s, fixed, fixed, first)
    requires forall x :: x in s.born && GoesWith(setup, n, session.installedHooks, x) ==> x in fixed
    modifies session`modules, session`installedHooks, session.process
    ensures Underway(session, setup, n + 1, quiet', s', fixed, fixed, first)
    ensures quiet' ==> quiet
  {
    hide Told, Taken, Explained, SameFirst, Short, Away, GoesWith, Calm, Separate;
    ghost var hooks, modules, ordered := session.installedHooks, session.modules, Orderly(setup, n, quiet, fixed);
    KnownHooks(session.process.decode, s, ordered, session.process.memory, hooks);
    var clean;
    ghost var undone;
    clean, undone, s' := HandleUnload(session, base, s, ordered);
    quiet' := quiet && clean;
    if quiet' && Separate(setup, fixed) {
      SeparateIsCalm(setup, n, s, modules, hooks, base, undone, fixed);
    }
    ExplainedUnload(setup, n, s, s', hooks, base);
    FixedUnload(s, s', fixed, first);
    assert !OnlyLoads(setup, n + 1);
    LessOrdered(
      session.process.decode, s', ordered && Calm(hooks, base, undone, s.born),
      Orderly(setup, n + 1, quiet', fixed), session.process.memory, session.installedHooks);
  }

  /** The events up to the first that fails, with the program running in between. */
  method Attend(session: DebugSession, setup: Setup, ghost fixed: set<int>)
    returns (ok: bool, quiet: bool, ghost n: nat, ghost s: Story, ghost spoiled: Option<nat>)
    requires session.Valid() && session.installedHooks == [] && Matches(session, setup, 0)
    requires session.setEventBypass.None? && session.readMemoryBypass.None?
    requires forall x :: x in fixed ==> x in session.process.memory && !Taken(setup, x)
    modifies session`modules, session`moduleGeneration, session`transportConfigured, session`installedHooks
    modifies session`setEventBypass, session`readMemoryBypass, session.process
    ensures n <= |setup.events| && (ok ==> n == |setup.events| && spoiled.None?)
    ensures
      Underway(session, setup, n, quiet, s, fixed, Outside(fixed, spoiled), old(session.process.memory))
    ensures spoiled.Some? ==> 0 < n && ResolvedBy(setup, n - 1, spoiled.value)
  {
    hide Told, Taken, Explained, SameFirst, Short, Away, GoesWith, Separate, ResolvedBy, HooksOk;
    ghost var first := session.process.memory;
    ok, quiet, n, spoiled := true, true, 0, None;
    s := Story(Log([first], []), Reborn(map[], fixed, 0), {}, {});
    NothingTold(session.process.decode, fixed, first);
    Beginning(setup, fixed, first, s);
    for i := 0 to |setup.events|
      invariant n == i && ok && spoiled.None? && Underway(session, setup, i, quiet, s, fixed, fixed, first)
    {
      s := RunUntil(session, setup, i, quiet, s, fixed, first);
      match setup.events[i]
      case LoadDll(base, path, remoteName, exports) =>
        ok, s, spoiled := AttendLoad(
          session, setup, i, base, path, remoteName, exports, quiet, s, fixed, first);
        n := i + 1;
        if !ok {
          return;
        }
      case UnloadDll(base) =>
        quiet, s := AttendUnload(session, setup, i, base, quiet, s, fixed, first);
        n := i + 1;
    }
  }

  lemma Beginning(setup: Setup, fixed: set<int>, first: Memory, s: Story)
    requires s == Story(Log([first], []), Reborn(map[], fixed, 0), {}, {})
    requires forall x :: x in fixed ==> x in first
    ensures Explained(setup, 0, s) && FixedFirst(s, fixed, first) && OnlyLoads(setup, 0)
    ensures Away(s.born.Keys, None)
  {
  }

  lemma OwnWithBypasses(setup: Setup, code: set<int>, r: Remote)
    requires r.image == setup.image && r.ring == setup.ring && forall x :: x in code ==> !Taken(setup, x)
    requires Away(code, r.setEvent) && Away(code, r.readMemory)
    ensures forall x :: x in code ==> !Remotely(x, setup.exports, r)
  {
    forall x | x in code ensures !Remotely(x, setup.exports, r) {
      assert !Remotely(x, setup.exports, Remote(setup.ring, None, None, setup.image));
    }
  }

  lemma TearDownTold(
    decode: Decoder, s: Story, ordered: bool, m: Memory, hooks: seq<InstalledHook>, exports: Exports, r: Remote)
    requires Told(decode, s, ordered, m, hooks) && forall x :: x in s.born ==> !Remotely(x, exports, r)
    ensures Told(decode, s, ordered, TornDown(m, exports, r), hooks)
  {
    hide Told, TornDown, Remotely;
    ToldIsMapped(decode, s, ordered, m, hooks);
    forall x | x in s.born ensures x in TornDown(m, exports, r) && TornDown(m, exports, r)[x] == m[x] {
      TornDownAt(m, exports, r, x);
    }
    SameTold(decode, s, ordered, m, hooks, TornDown(m, exports, r));
  }

  /** Code that is as when it was mapped. */
  predicate Back(s: Story, m: Memory, x: int)
    requires x in s.born
  {
    && s.born[x] < |s.log.states| && x in s.log.states[s.born[x]]
    && x in m && m[x] == First(s.log, s.born, x)
  }

  lemma AllBack(decode: Decoder, s: Story, ordered: bool, m: Memory)
    requires Told(decode, s, ordered, m, [])
    ensures forall x :: x in s.born && (ordered || Closed(s.log.changes, s.born[x], x)) ==> Back(s, m, x)
    ensures Tracks(decode, s.born, s.log, m) && forall h :: h in AllOn(s.log.changes) ==> h in s.lost
    ensures forall c :: c in s.log.changes ==> c.hook in s.known
  {
    hide Tracks, Closed, AllOn;
    forall x | x in s.born && (ordered || Closed(s.log.changes, s.born[x], x)) ensures Back(s, m, x) {
      ToldRestores(decode, s, ordered, m, x);
    }
  }

  /**
   A whole session: any loads and unloads, the program running in between and its code coming and going, then
   the cleanup, at a stop or after the first event that fails. If the cleanup succeeds, code is as it was when
   it was mapped: all of it if no module was unloaded, or if all removals succeeded and hooks have no chance
   to meet, and otherwise wherever hooks came off newest first, or were never two at a time and are all off.
   Code that stays throughout is as at first. Only the function that could not be hooked, if a load failed,
   is not spoken of. All hooks of the log went where an event made their definition resolve to, and those
   still on have lost a module in one.
   */
  method Debug(session: DebugSession, setup: Setup, ghost fixed: set<int>)
    returns (ok: bool, quiet: bool, cleaned: bool, ghost n: nat, ghost s: Story, ghost spoiled: Option<nat>)
    requires session.Valid() && session.installedHooks == [] && session.hookImageBase != 0
    requires Matches(session, setup, 0) && session.setEventBypass.None? && session.readMemoryBypass.None?
    requires forall x :: x in fixed ==> x in session.process.memory && !Taken(setup, x)
    modifies session, session.process
    ensures n <= |setup.events| && (ok ==> n == |setup.events| && spoiled.None?)
    ensures spoiled.Some? ==> 0 < n && ResolvedBy(setup, n - 1, spoiled.value)
    ensures cleaned ==>
      && Tracks(session.process.decode, s.born, s.log, session.process.memory)
      && (forall c :: c in s.log.changes ==> PlacedIn(setup, n, c.hook))
      && forall h :: h in AllOn(s.log.changes) ==> DroppedIn(setup, n, h)
    ensures cleaned ==> forall x ::
      x in s.born && (Orderly(setup, n, quiet, fixed) || Closed(s.log.changes, s.born[x], x)) ==>
        Back(s, session.process.memory, x)
    ensures FixedFirst(s, Outside(fixed, spoiled), old(session.process.memory))
    ensures cleaned && Orderly(setup, n, quiet, fixed) ==> forall x :: x in Outside(fixed, spoiled) ==>
      && x in old(session.process.memory) && x in session.process.memory
      && session.process.memory[x] == old(session.process.memory)[x]
  {
    hide Told, Taken, Away, TornDown, UnhookedBackwards, AllCanUnhook, CanClearAll, Closed, Tracks, HooksOk;
    hide ResolvedBy, Separate, OnlyLoads, PlacedIn, DroppedIn, AllOn, Short, Outside;
    ghost var decode := session.process.decode;
    ok, quiet, n, s, spoiled := Attend(session, setup, fixed);
    ghost var m, hooks, remotes := session.process.memory, session.installedHooks, session.Remotes();
    ghost var ordered := Orderly(setup, n, quiet, fixed);
    DifferentOnes(session.modules, hooks);
    OwnWithBypasses(setup, s.born.Keys, remotes);
    cleaned := session.CleanupRemote(setup.exports);
    if cleaned {
      assert hooks[..|hooks|] == hooks;
      ghost var before := s;
      s := BackwardsTold(decode, s, ordered, m, hooks, |hooks|);
      FixedUnload(before, s, Outside(fixed, spoiled), old(session.process.memory));
      TearDownTold(decode, s, ordered, UnhookedBackwards(m, hooks, |hooks|), [], setup.exports, remotes);
      AllBack(decode, s, ordered, session.process.memory);
    }
  }
}
