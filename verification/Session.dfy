/** The debugger's record of loaded modules and installed hooks, and the events that change it. */
module Session {
  import opened Bytes
  import opened Wrappers
  import opened Forwarders
  import opened HookManager
  import opened Unloading
  import opened Transport
  import opened TargetMemory
  import Trampoline

  /** Where the installation loop stands. */
  datatype Moment = Moment(hooks: seq<InstalledHook>, memory: Trampoline.Memory, calls: nat)

  /** What the debugger learns about one thread of the snapshot. */
  datatype Opened = Gone | Denied | NoContext | At(ip: nat)
  datatype ThreadEntry = ThreadEntry(owner: nat, id: nat, access: Opened)

  // ---------------------------------------------------------------- what the records say

  predicate HasHook(hooks: seq<InstalledHook>, name: string) {
    exists i :: 0 <= i < |hooks| && hooks[i].name == name
  }

  predicate HasAddress(hooks: seq<InstalledHook>, address: nat) {
    exists i :: 0 <= i < |hooks| && hooks[i].original == address
  }

  /** No function is hooked twice, under any name, and every hook lives between loaded modules. */
  predicate HooksOk(modules: Modules, hooks: seq<InstalledHook>) {
    && (forall i :: 0 <= i < |hooks| ==> hooks[i].source in modules && hooks[i].target in modules)
    && (forall i, j {:trigger Different(hooks[i], hooks[j])} ::
          0 <= i < j < |hooks| ==> Different(hooks[i], hooks[j]))
  }

  predicate Different(g: InstalledHook, h: InstalledHook) { g.name != h.name && g.original != h.original }

  predicate RecordsOk(modules: Modules, generation: nat) {
    forall b :: b in modules ==> modules[b].base == b && modules[b].generation <= generation
  }

  /** The requested hook is installed, or waits for a module. */
  ghost predicate Settled(modules: Modules, exports: Exports, hooks: seq<InstalledHook>, d: HookDefinition) {
    HasHook(hooks, d.canonicalName) || HookResolution(modules, exports, d).Pending?
  }

  ghost predicate AllSettled(
    modules: Modules, exports: Exports, hooks: seq<InstalledHook>, definitions: seq<HookDefinition>, n: nat)
    requires n <= |definitions|
    decreases n
  {
    n == 0 ||
    (AllSettled(modules, exports, hooks, definitions, n - 1)
     && Settled(modules, exports, hooks, definitions[n - 1]))
  }

  lemma {:induction false} EachSettled(
    modules: Modules, exports: Exports, hooks: seq<InstalledHook>, definitions: seq<HookDefinition>, n: nat, i: nat)
    requires i < n <= |definitions| && AllSettled(modules, exports, hooks, definitions, n)
    ensures
      || (exists h :: h in hooks && h.name == definitions[i].canonicalName)
      || HookResolution(modules, exports, definitions[i]) == Pending
    decreases n
  {
    if i < n - 1 {
      EachSettled(modules, exports, hooks, definitions, n - 1, i);
    }
  }

  /** `h` was put where its definition resolves to. */
  ghost predicate PlacedBy(modules: Modules, exports: Exports, d: HookDefinition, h: InstalledHook) {
    && h.name == d.canonicalName
    && HookResolution(modules, exports, d) == Resolved(h.original, h.target)
    && Newest(modules, d.moduleName) == Some(h.source)
  }

  ghost predicate AllPlaced(
    modules: Modules, exports: Exports, definitions: seq<HookDefinition>, hooks: seq<InstalledHook>)
  {
    forall i :: 0 <= i < |hooks| ==> PlacedBySome(modules, exports, definitions, hooks[i])
  }

  ghost predicate PlacedBySome(
    modules: Modules, exports: Exports, definitions: seq<HookDefinition>, h: InstalledHook)
  {
    exists k :: 0 <= k < |definitions| && PlacedBy(modules, exports, definitions[k], h)
  }

  lemma {:induction false} SettledStays(
    modules: Modules, exports: Exports, before: seq<InstalledHook>, now: seq<InstalledHook>,
    definitions: seq<HookDefinition>, n: nat)
    requires before <= now && n <= |definitions| && AllSettled(modules, exports, before, definitions, n)
    ensures AllSettled(modules, exports, now, definitions, n)
    decreases n
  {
    if n > 0 {
      SettledStays(modules, exports, before, now, definitions, n - 1);
      if HasHook(before, definitions[n - 1].canonicalName) {
        var i :| 0 <= i < |before| && before[i].name == definitions[n - 1].canonicalName;
        assert now[i] == before[i];
      }
    }
  }

  function AsSeq<T>(o: Option<T>): seq<T> { if o.Some? then [o.value] else [] }

  lemma PlacedGrows(
    modules: Modules, exports: Exports, definitions: seq<HookDefinition>, added: seq<InstalledHook>,
    hook: Option<InstalledHook>, i: nat)
    requires i < |definitions| && AllPlaced(modules, exports, definitions, added)
    requires hook.Some? ==> PlacedBy(modules, exports, definitions[i], hook.value)
    ensures AllPlaced(modules, exports, definitions, added + AsSeq(hook))
  {
    if hook.Some? {
      assert PlacedBySome(modules, exports, definitions, hook.value);
    }
  }

  /** One more definition has been looked at. */
  lemma RoundDone(
    modules: Modules, exports: Exports, definitions: seq<HookDefinition>, before: seq<InstalledHook>,
    added: seq<InstalledHook>, hook: Option<InstalledHook>, i: nat, ok: bool)
    requires i < |definitions| && AllSettled(modules, exports, before, definitions, i)
    requires AllPlaced(modules, exports, definitions, added)
    requires hook.Some? ==> PlacedBy(modules, exports, definitions[i], hook.value)
    requires ok ==> Settled(modules, exports, before + AsSeq(hook), definitions[i])
    ensures ok ==> AllSettled(modules, exports, before + AsSeq(hook), definitions, i + 1)
    ensures AllPlaced(modules, exports, definitions, added + AsSeq(hook))
  {
    SettledStays(modules, exports, before, before + AsSeq(hook), definitions, i);
    PlacedGrows(modules, exports, definitions, added, hook, i);
  }

  lemma NothingLookedAt(
    modules: Modules, exports: Exports, definitions: seq<HookDefinition>, hooks: seq<InstalledHook>)
    ensures AllSettled(modules, exports, hooks, definitions, 0) && AllPlaced(modules, exports, definitions, [])
    ensures hooks == hooks + []
  {
  }

  lemma AppendGrouped(base: seq<InstalledHook>, added: seq<InstalledHook>, hook: Option<InstalledHook>)
    ensures (base + added) + AsSeq(hook) == base + (added + AsSeq(hook))
  {
  }

  lemma HooksStay(modules: Modules, base: nat, record: ModuleRecord, hooks: seq<InstalledHook>)
    requires HooksOk(modules, hooks)
    ensures HooksOk(modules[base := record], hooks)
  {
  }

  predicate HookCovers(h: InstalledHook, ip: int) {
    || h.original <= ip < h.original + |h.originalBytes|
    || h.trampoline <= ip < h.trampoline + TRAMPOLINE_SIZE
  }

  predicate Instrumentation(imageBase: nat, imageSize: nat, hooks: seq<InstalledHook>, ip: int) {
    || (imageBase != 0 && imageBase <= ip < imageBase + imageSize)
    || exists i :: 0 <= i < |hooks| && HookCovers(hooks[i], ip)
  }

  predicate Harmless(imageBase: nat, imageSize: nat, hooks: seq<InstalledHook>, access: Opened) {
    access.Gone? || (access.At? && !Instrumentation(imageBase, imageSize, hooks, access.ip))
  }

  function WithoutModule(hooks: seq<InstalledHook>, base: nat): seq<InstalledHook> {
    if hooks == [] then []
    else if Dropped(hooks[0], base) then WithoutModule(hooks[1..], base)
    else [hooks[0]] + WithoutModule(hooks[1..], base)
  }

  /** Erasing in place: `kept` hooks have been looked at and stay; what remains is still to be looked at. */
  predicate Erasing(goal: seq<InstalledHook>, base: nat, now: seq<InstalledHook>, kept: nat) {
    kept <= |now| && goal == now[..kept] + WithoutModule(now[kept..], base)
  }

  lemma EraseStep(goal: seq<InstalledHook>, base: nat, now: seq<InstalledHook>, kept: nat)
    requires Erasing(goal, base, now, kept) && kept < |now|
    ensures
      if Dropped(now[kept], base)
      then Erasing(goal, base, Erased(now, kept), kept) && Erased(now, kept)[kept..] == now[kept..][1..]
      else Erasing(goal, base, now, kept + 1) && now[kept + 1..] == now[kept..][1..]
  {
    var rest := now[kept..];
    assert rest[1..] == now[kept + 1..] && rest[0] == now[kept];
    assert Erased(now, kept)[..kept] == now[..kept] && Erased(now, kept)[kept..] == now[kept + 1..];
    assert now[..kept] + [now[kept]] == now[..kept + 1];
  }

  lemma WholeRest(hooks: seq<InstalledHook>)
    ensures hooks[0..] == hooks
  {
  }

  lemma NextRest(hooks: seq<InstalledHook>, n: nat, rest: seq<InstalledHook>)
    requires n <= |hooks| && rest == hooks[n..] && rest != []
    ensures n < |hooks| && rest[0] == hooks[n] && rest[1..] == hooks[n + 1..]
  {
  }

  lemma EraseDone(goal: seq<InstalledHook>, base: nat, now: seq<InstalledHook>)
    requires Erasing(goal, base, now, |now|)
    ensures goal == now
  {
  }

  lemma EraseStart(base: nat, now: seq<InstalledHook>)
    ensures Erasing(WithoutModule(now, base), base, now, 0)
  {
    assert now[0..] == now;
  }

  function Erased(hooks: seq<InstalledHook>, k: nat): (r: seq<InstalledHook>)
    requires k < |hooks|
    ensures |r| == |hooks| - 1
  {
    hooks[..k] + hooks[k + 1..]
  }

  lemma HooksExtend(modules: Modules, hooks: seq<InstalledHook>, h: InstalledHook)
    requires HooksOk(modules, hooks) && h.source in modules && h.target in modules
    requires !HasHook(hooks, h.name) && !HasAddress(hooks, h.original)
    ensures HooksOk(modules, hooks + [h])
  {
    var all := hooks + [h];
    forall i, j | 0 <= i < j < |all| ensures Different(all[i], all[j]) {
      if j == |hooks| {
        assert hooks[i].name != h.name && hooks[i].original != h.original;
      } else {
        assert Different(hooks[i], hooks[j]);
      }
    }
  }

  /** Dropping the hooks of an unloaded module keeps the rest, and needs that module no more. */
  lemma {:induction false} WithoutModuleOk(modules: Modules, hooks: seq<InstalledHook>, base: nat)
    requires HooksOk(modules, hooks)
    ensures HooksOk(modules - {base}, WithoutModule(hooks, base))
    ensures forall h :: h in WithoutModule(hooks, base) <==> h in hooks && h.source != base && h.target != base
    decreases |hooks|
  {
    if hooks != [] {
      var h, tail := hooks[0], hooks[1..];
      forall i, j | 0 <= i < j < |tail| ensures Different(tail[i], tail[j]) {
        assert Different(hooks[i + 1], hooks[j + 1]);
      }
      WithoutModuleOk(modules, tail, base);
      var rest := WithoutModule(tail, base);
      if h.target != base && h.source != base {
        forall g | g in rest ensures Different(h, g) {
          assert g in tail;
          var i :| 0 <= i < |tail| && tail[i] == g;
          assert Different(hooks[0], hooks[i + 1]);
        }
        HooksPrepend(modules - {base}, h, rest);
      }
    }
  }

  lemma HooksPrepend(modules: Modules, h: InstalledHook, rest: seq<InstalledHook>)
    requires HooksOk(modules, rest) && h.source in modules && h.target in modules
    requires forall g :: g in rest ==> Different(h, g)
    ensures HooksOk(modules, [h] + rest)
  {
    var all := [h] + rest;
    forall i, j | 0 <= i < j < |all| ensures Different(all[i], all[j]) {
      if i > 0 {
        assert Different(rest[i - 1], rest[j - 1]);
      }
    }
  }

  function Loaded(modules: Modules, base: nat, name: string, generation: nat): Modules {
    modules[base := ModuleRecord(base, name, generation)]
  }

  lemma NewGeneration(modules: Modules, generation: nat, base: nat, name: string)
    requires Generations(modules) && RecordsOk(modules, generation)
    ensures
      var modules' := Loaded(modules, base, name, generation + 1);
      Generations(modules') && RecordsOk(modules', generation + 1) && Newest(modules', name) == Some(base)
  {
    var modules' := Loaded(modules, base, name, generation + 1);
    forall a, b ensures ToldApart(modules', a, b) {
      assert ToldApart(modules, a, b);
    }
    NewestIsUnique(modules', name, base);
  }

  lemma FewerGenerations(modules: Modules, generation: nat, base: nat)
    requires Generations(modules) && RecordsOk(modules, generation)
    ensures Generations(modules - {base}) && RecordsOk(modules - {base}, generation)
  {
    forall a, b ensures ToldApart(modules - {base}, a, b) {
      assert ToldApart(modules, a, b);
    }
  }

  // ---------------------------------------------------------------- the session

  class DebugSession {
    const definitions: seq<HookDefinition>
    const process: Process
    const processId: nat
    var modules: Modules
    var installedHooks: seq<InstalledHook>
    var transportConfigured: bool
    var moduleGeneration: nat
    var hookImageBase: Word64
    var hookImageSize: nat
    var setEventBypass: Option<RemoteTrampoline>
    var readMemoryBypass: Option<RemoteTrampoline>
    var remoteRing: Option<Region>
    var remoteWakeEvent: bool

    ghost predicate Registered()
      reads this`modules, this`moduleGeneration
    {
      Generations(modules) && RecordsOk(modules, moduleGeneration)
    }

    /** What every event keeps. */
    ghost predicate Valid()
      reads this, process
    {
      && process.Valid()
      && Registered() && HooksOk(modules, installedHooks)
      && (installedHooks != [] ==> transportConfigured)
      && (transportConfigured ==> setEventBypass.Some? && readMemoryBypass.Some?)
    }

    constructor (definitions: seq<HookDefinition>, process: Process, processId: nat)
      requires process.Valid()
      ensures Valid() && modules == map[] && installedHooks == [] && !transportConfigured
      ensures this.definitions == definitions && this.process == process && this.processId == processId
    {
      this.definitions, this.process, this.processId := definitions, process, processId;
      modules, installedHooks, transportConfigured, moduleGeneration := map[], [], false, 0;
      hookImageBase, hookImageSize, setEventBypass, readMemoryBypass := 0, 0, None, None;
      remoteRing, remoteWakeEvent := None, false;
    }

    /** The most recently loaded module of that name. */
    method FindModule(name: string) returns (newest: Option<ModuleRecord>)
      requires Registered()
      ensures newest.Some? ==>
        newest.value.base in modules && modules[newest.value.base] == newest.value
      ensures Newest(modules, name) == if newest.Some? then Some(newest.value.base) else None
    {
      newest := None;
      var bases := modules.Keys;
      while bases != {}
        invariant bases <= modules.Keys
        invariant newest.Some? ==>
          && newest.value.base in modules && modules[newest.value.base] == newest.value && newest.value.name == name
        invariant forall b :: b in modules && b !in bases && modules[b].name == name ==>
          newest.Some? && modules[b].generation <= newest.value.generation
        decreases |bases|
      {
        var b :| b in bases;
        var record := modules[b];
        if record.name == name && (newest.None? || record.generation > newest.value.generation) {
          newest := Some(record);
        }
        bases := bases - {b};
      }
      if newest.Some? {
        NewestIsUnique(modules, name, newest.value.base);
      }
    }

    static method QualifiedName(moduleName: string) returns (normalizedModule: string)
      ensures normalizedModule == Qualified(moduleName)
    {
      normalizedModule := NormalizeModuleName(moduleName);
      if '.' !in normalizedModule {
        normalizedModule := normalizedModule + ".dll";
      }
    }

    /** What one module says about one export. */
    method LookUp(exports: Exports, x: Node) returns (hop: Hop)
      requires Registered()
      ensures hop == HopsOf(modules, exports)(x)
    {
      var library := FindModule(x.library);
      if library.None? {
        return NotLoaded;
      }
      var remoteExport := exports(library.value.base, x.name);
      if remoteExport.None? {
        return Dead;
      }
      if remoteExport.value.address != 0 {
        return Found(remoteExport.value.address, library.value.base);
      }
      var forwarder := remoteExport.value.forwarder;
      var separator := LastOf(forwarder, ".");
      if separator.None? || separator.value == 0 || separator.value + 1 >= |forwarder|
         || forwarder[separator.value + 1] == '#' {
        return Dead;
      }
      var library' := QualifiedName(forwarder[..separator.value]);
      return Goes(Node(library', forwarder[separator.value + 1..]));
    }

    method ResolveExportAddress(exports: Exports, x: Node, depth: nat, visited: set<string>)
      returns (result: Resolution, visited': set<string>)
      requires Registered()
      ensures result ==
        Walk(HopsOf(modules, exports), x, if depth < MAX_HOPS then MAX_HOPS - depth else 0, visited)
      decreases MAX_HOPS - depth
    {
      visited' := visited;
      ghost var hops, n := HopsOf(modules, exports), if depth < MAX_HOPS then MAX_HOPS - depth else 0;
      WalkOnce(hops, x, n, visited, hops(x));
      if depth >= MAX_HOPS {
        return Error, visited';
      }
      var identity := Identity(x);
      if identity in visited {
        return Error, visited';
      }
      visited' := visited + {identity};
      var hop := LookUp(exports, x);
      match hop
      case NotLoaded => result := Pending;
      case Dead => result := Error;
      case Found(address, target) => result := Resolved(address, target);
      case Goes(next) => result, visited' := ResolveExportAddress(exports, next, depth + 1, visited');
    }

    method ResolveHookAddress(exports: Exports, d: HookDefinition) returns (result: Resolution, source: nat)
      requires Registered()
      ensures result == HookResolution(modules, exports, d)
      ensures !result.Pending? ==> Newest(modules, d.moduleName) == Some(source)
    {
      source := 0;
      var found := FindModule(d.moduleName);
      if found.None? {
        return Pending, source;
      }
      source := found.value.base;
      var library := QualifiedName(d.moduleName);
      var visited;
      result, visited := ResolveExportAddress(exports, Node(library, d.exportName), 0, {});
    }

    /** What the hook image exports under a name. */
    function HookImageExport(exports: Exports, name: string): (r: Option<nat>)
      reads this`hookImageBase
      ensures r.Some? ==> r.value < WORD64
    {
      var e := exports(hookImageBase, name);
      if e.None? then None else Some(e.value.address)
    }

    method IsInstalled(name: string) returns (found: bool)
      ensures found <==> HasHook(installedHooks, name)
    {
      for i := 0 to |installedHooks|
        invariant forall k :: 0 <= k < i ==> installedHooks[k].name != name
      {
        if installedHooks[i].name == name {
          return true;
        }
      }
      return false;
    }

    method IsHooked(address: nat) returns (found: bool)
      ensures found <==> HasAddress(installedHooks, address)
    {
      for i := 0 to |installedHooks|
        invariant forall k :: 0 <= k < i ==> installedHooks[k].original != address
      {
        if installedHooks[i].original == address {
          return true;
        }
      }
      return false;
    }

    /** HookFunction can put `d` on `address`, with its calls numbered from `n` on. */
    ghost predicate CanHook(exports: Exports, d: HookDefinition, address: nat, m: Trampoline.Memory, n: nat)
      reads this`hookImageBase
    {
      var handler, slot := HookImageExport(exports, d.handlerExport), HookImageExport(exports, d.trampolineExport);
      && address != 0 && NonNull(handler) && NonNull(slot) && process.Grants10(n) && process.Grants2(n + 10)
      && Possible(process.decode, m, address, process.place(n + 1), slot.value)
    }

    /** It was put there with the handler and the slot that the hook image exports for `d`. */
    ghost predicate PutFor(
      exports: Exports, d: HookDefinition, m: Trampoline.Memory, h: InstalledHook, m': Trampoline.Memory)
      reads this`hookImageBase
    {
      var handler := HookImageExport(exports, d.handlerExport);
      && HookImageExport(exports, d.trampolineExport) == Some(h.slot) && handler.Some?
      && Describes(h, process.decode, m, h.original, h.slot) && m' == Hooked(m, h, handler.value)
    }

    /** What a failed attempt leaves: nothing but the slot has changed, or the patch is in place all the same. */
    ghost predicate FailedFor(
      exports: Exports, d: HookDefinition, address: nat, m: Trampoline.Memory, m': Trampoline.Memory)
      reads this`hookImageBase
    {
      var handler, slot := HookImageExport(exports, d.handlerExport), HookImageExport(exports, d.trampolineExport);
      if slot.None? then m' == m
      else
        || KeepsOutside(m, m', slot.value)
        || (handler.Some? && LeftPatched(m, m', address, handler.value, slot.value))
    }

    /**
     The function jumps to what the hook image exports as the handler, and the variable it exports for the
     trampoline, if it is not in the patch, holds the trampoline's address.
     */
    ghost predicate LeadsTo(
      exports: Exports, d: HookDefinition, m: Trampoline.Memory, h: InstalledHook, m': Trampoline.Memory)
      reads this`hookImageBase
    {
      var handler, slot := exports(hookImageBase, d.handlerExport), exports(hookImageBase, d.trampolineExport);
      && handler.Some? && slot.Some? && handler.value.address != 0 && slot.value.address != 0
      && Trampoline.CodeAt(m', h.original, Trampoline.Stub(handler.value.address))
      && (Apart(h.original, |h.originalBytes|, slot.value.address, 8) ==>
            && Mapped(m', slot.value.address, 8)
            && FromLittleEndian(Read(m', slot.value.address, 8)) == h.trampoline)
    }

    /** Hook a resolved address that is not hooked yet, and record where it came from. */
    method InstallResolved(exports: Exports, d: HookDefinition, address: nat, source: nat, target: nat)
      returns (hook: Option<InstalledHook>)
      requires process.Valid()
      modifies process
      ensures process.Valid()
      ensures hook.Some? <==> CanHook(exports, d, address, old(process.memory), old(process.calls))
      ensures hook.Some? ==>
        && hook.value.name == d.canonicalName && hook.value.original == address
        && hook.value.source == source && hook.value.target == target
        && Put(process.decode, old(process.memory), hook.value, process.memory)
        && PutFor(exports, d, old(process.memory), hook.value, process.memory)
        && process.calls == old(process.calls) + 12
      ensures hook.Some? ==> LeadsTo(exports, d, old(process.memory), hook.value, process.memory)
      ensures hook.None? ==> FailedFor(exports, d, address, old(process.memory), process.memory)
    {
      var handler, slot := HookImageExport(exports, d.handlerExport), HookImageExport(exports, d.trampolineExport);
      var installed, written := process.HookFunction(address, d.canonicalName, handler, slot);
      if installed.None? {
        return None;
      }
      var h := installed.value.(source := source, target := target);
      assert process.memory == Hooked(old(process.memory), h, handler.value);
      PatchedWithStub(old(process.memory), h, handler.value);
      return Some(h);
    }

    ghost function Now(): (now: Moment)
      reads this`installedHooks, process
      ensures now.hooks == installedHooks
    {
      Moment(installedHooks, process.memory, process.calls)
    }

    /** When one round of the installation loop succeeds. */
    ghost predicate CanSettle(exports: Exports, d: HookDefinition, now: Moment)
      reads this`modules, this`hookImageBase
    {
      var result := HookResolution(modules, exports, d);
      || HasHook(now.hooks, d.canonicalName) || result.Pending?
      || (result.Resolved? && !HasAddress(now.hooks, result.address)
          && CanHook(exports, d, result.address, now.memory, now.calls))
    }

    /** What it then does: nothing, or one hook goes where the definition resolves to. */
    ghost predicate Settling(exports: Exports, d: HookDefinition, now: Moment, then': Moment)
      reads this`modules, this`hookImageBase
    {
      if HasHook(now.hooks, d.canonicalName) || HookResolution(modules, exports, d).Pending? then then' == now
      else
        && |then'.hooks| > 0 && then'.calls == now.calls + 12
        && var h := then'.hooks[|then'.hooks| - 1];
           && then'.hooks == now.hooks + [h] && PlacedBy(modules, exports, d, h)
           && PutFor(exports, d, now.memory, h, then'.memory)
    }

    ghost predicate Failing(exports: Exports, d: HookDefinition, now: Moment, then': Moment)
      reads this`modules, this`hookImageBase
    {
      var result := HookResolution(modules, exports, d);
      && then'.hooks == now.hooks
      && (then'.memory == now.memory
          || (result.Resolved? && FailedFor(exports, d, result.address, now.memory, then'.memory)))
    }

    /** One round of the installation loop. */
    method TryInstall(exports: Exports, d: HookDefinition) returns (ok: bool, ghost added: Option<InstalledHook>)
      requires Valid() && transportConfigured
      modifies this`installedHooks, process
      ensures Valid()
      ensures ok <==> CanSettle(exports, d, old(Now()))
      ensures ok ==> Settling(exports, d, old(Now()), Now())
      ensures
        var result := HookResolution(modules, exports, d);
        var installed := exists h :: h in old(installedHooks) && h.name == d.canonicalName;
        && (installed || result.Pending? ==> ok && added.None?)
        && (!installed && result.Error? ==> !ok)
        && (!installed && result.Resolved? ==>
              && (ok <==> added.Some?)
              && ((exists h :: h in old(installedHooks) && h.original == result.address) ==> !ok))
      ensures added.Some? ==>
        && added.value.name == d.canonicalName && Newest(modules, d.moduleName) == Some(added.value.source)
        && HookResolution(modules, exports, d) == Resolved(added.value.original, added.value.target)
      ensures added.Some? ==> LeadsTo(exports, d, old(process.memory), added.value, process.memory)
      ensures !ok ==> Failing(exports, d, old(Now()), Now())
      ensures ok ==> Settled(modules, exports, installedHooks, d)
      ensures installedHooks == old(installedHooks) + AsSeq(added)
      ensures added.Some? ==>
        && PlacedBy(modules, exports, d, added.value)
        && Put(process.decode, old(process.memory), added.value, process.memory)
        && PutFor(exports, d, old(process.memory), added.value, process.memory)
    {
      hide HookResolution, Put, PutFor, CanHook, FailedFor, LeadsTo;
      added := None;
      var installed := IsInstalled(d.canonicalName);
      if installed {
        return true, None;
      }
      var result, source := ResolveHookAddress(exports, d);
      if result.Pending? {
        return true, None;
      }
      if result.Error? {
        return false, None;
      }
      var taken := IsHooked(result.address);
      if taken {
        return false, None;
      }
      var hook := InstallResolved(exports, d, result.address, source, result.target);
      if hook.None? {
        return false, None;
      }
      HookIsPlaced(modules, exports, installedHooks, d, hook.value);
      installedHooks := installedHooks + [hook.value];
      return true, hook;
    }

    /** Rounds for the first definitions, all successful. */
    ghost predicate Rounds(exports: Exports, rounds: seq<Moment>)
      reads this`modules, this`hookImageBase
    {
      && 0 < |rounds| <= |definitions| + 1
      && forall i :: 0 <= i < |rounds| - 1 ==> Round(exports, definitions[i], rounds[i], rounds[i + 1])
    }

    ghost predicate Round(exports: Exports, d: HookDefinition, now: Moment, then': Moment)
      reads this`modules, this`hookImageBase
    {
      CanSettle(exports, d, now) && Settling(exports, d, now, then')
    }

    /** The rounds end where a definition cannot be settled, or with the last one. */
    ghost predicate Ended(exports: Exports, rounds: seq<Moment>)
      reads this`modules, this`hookImageBase
    {
      && Rounds(exports, rounds)
      && (|rounds| <= |definitions| ==> !CanSettle(exports, definitions[|rounds| - 1], rounds[|rounds| - 1]))
    }

    /** A whole pass: it succeeds exactly if every round does, and then every definition is settled. */
    ghost predicate PassEnds(exports: Exports, rounds: seq<Moment>, ok: bool, now: Moment)
      reads this`modules, this`hookImageBase
    {
      && Ended(exports, rounds) && (ok <==> |rounds| == |definitions| + 1)
      && if ok then
           && now == rounds[|rounds| - 1]
           && AllSettled(modules, exports, now.hooks, definitions, |definitions|)
         else Failing(exports, definitions[|rounds| - 1], rounds[|rounds| - 1], now)
    }

    lemma NextRound(exports: Exports, rounds: seq<Moment>, then': Moment)
      requires Rounds(exports, rounds) && |rounds| <= |definitions|
      requires CanSettle(exports, definitions[|rounds| - 1], rounds[|rounds| - 1])
      requires Settling(exports, definitions[|rounds| - 1], rounds[|rounds| - 1], then')
      ensures Rounds(exports, rounds + [then'])
    {
      var all := rounds + [then'];
      forall i | 0 <= i < |all| - 1 ensures Round(exports, definitions[i], all[i], all[i + 1]) {
        if i < |rounds| - 1 {
          assert Round(exports, definitions[i], rounds[i], rounds[i + 1]);
        }
      }
    }

    /** Success means that every requested hook is installed, or waits for a module. */
    method TryInstallPendingHooks(exports: Exports)
      returns (ok: bool, ghost added: seq<InstalledHook>, ghost rounds: seq<Moment>)
      requires Valid() && transportConfigured
      modifies this`installedHooks, process
      ensures Valid() && installedHooks == old(installedHooks) + added
      ensures rounds != [] && rounds[0] == old(Now()) && PassEnds(exports, rounds, ok, Now())
      ensures AllPlaced(modules, exports, definitions, added)
    {
      hide *;
      added := [];
      rounds := [Now()];
      NoRounds(exports, rounds);
      NothingLookedAt(modules, exports, definitions, installedHooks);
      for i := 0 to |definitions|
        invariant Valid() && installedHooks == old(installedHooks) + added
        invariant Rounds(exports, rounds) && |rounds| == i + 1
        invariant rounds[0] == old(Now()) && rounds[i] == Now()
        invariant AllSettled(modules, exports, installedHooks, definitions, i)
        invariant AllPlaced(modules, exports, definitions, added)
      {
        ghost var before := installedHooks;
        var installed, hook := TryInstall(exports, definitions[i]);
        RoundDone(modules, exports, definitions, before, added, hook, i, installed);
        AppendGrouped(old(installedHooks), added, hook);
        added := added + AsSeq(hook);
        if !installed {
          NotEnded(exports, rounds, Now());
          return false, added, rounds;
        }
        NextRound(exports, rounds, Now());
        rounds := rounds + [Now()];
      }
      AllEnded(exports, rounds, Now());
      return true, added, rounds;
    }

    lemma NoRounds(exports: Exports, rounds: seq<Moment>)
      requires |rounds| == 1
      ensures Rounds(exports, rounds)
    {
    }

    lemma NotEnded(exports: Exports, rounds: seq<Moment>, now: Moment)
      requires Rounds(exports, rounds) && |rounds| <= |definitions|
      requires !CanSettle(exports, definitions[|rounds| - 1], rounds[|rounds| - 1])
      requires Failing(exports, definitions[|rounds| - 1], rounds[|rounds| - 1], now)
      ensures PassEnds(exports, rounds, false, now)
    {
    }

    lemma AllEnded(exports: Exports, rounds: seq<Moment>, now: Moment)
      requires Rounds(exports, rounds) && |rounds| == |definitions| + 1 && now == rounds[|rounds| - 1]
      requires AllSettled(modules, exports, now.hooks, definitions, |definitions|)
      ensures PassEnds(exports, rounds, true, now)
    {
    }

    /** An uninstrumented copy of one exported system call. */
    method BypassFor(library: nat, name: string, exports: Exports) returns (bypass: Option<RemoteTrampoline>)
      requires process.Valid()
      modifies process
      ensures process.Valid()
      ensures bypass.Some? <==>
        CanBypass(process, exports(library, name), old(process.memory), old(process.calls))
      ensures bypass.Some? ==>
        && BypassBuilt(
             process.decode, exports(library, name), old(process.memory), bypass.value, process.memory)
        && process.calls == old(process.calls) + 6 && bypass.value.address < WORD64
        && process.memory ==
             AfterBypass(process, exports(library, name), old(process.memory), old(process.calls))
      ensures Keeps(old(process.memory), process.memory)
      ensures OldOrFresh(old(process.memory), None, bypass)
    {
      var e := exports(library, name);
      if e.None? || e.value.address == 0 {
        return None;
      }
      bypass := process.CreateBypassTrampoline(e.value.address);
      if bypass.Some? {
        OneBypass(process.decode, old(process.memory), e.value.address, bypass.value);
        TrampolineIsForgotten(
          old(process.memory), e.value.address, bypass.value.address, bypass.value.patchSize);
      }
    }

    /** The hook image reaches the two system calls it needs through uninstrumented copies. */
    method ConfigureTransport(ntdll: nat, exports: Exports) returns (ok: bool)
      requires process.Valid()
      modifies this`setEventBypass, this`readMemoryBypass, process
      ensures process.Valid()
      ensures ok <==>
        CanConfigure(process, exports, ntdll, hookImageBase, old(process.memory), old(process.calls))
      ensures ok ==> setEventBypass.Some? && readMemoryBypass.Some? && process.calls == old(process.calls) + 14
      ensures ok ==>
        TransportBuilt(
          process.decode, exports, ntdll, hookImageBase, old(process.memory), setEventBypass.value,
          readMemoryBypass.value, process.memory)
      ensures ok ==>
        var event, read :=
          exports(hookImageBase, "TransportNtSetEvent"), exports(hookImageBase, "TransportNtReadVirtualMemory");
        && event.Some? && read.Some?
        && Mapped(process.memory, event.value.address, 8) && Mapped(process.memory, read.value.address, 8)
        && FromLittleEndian(Read(process.memory, read.value.address, 8)) == readMemoryBypass.value.address
        && (Apart(event.value.address, 8, read.value.address, 8) ==>
              FromLittleEndian(Read(process.memory, event.value.address, 8)) == setEventBypass.value.address)
      ensures KeptBut(old(process.memory), process.memory, exports, hookImageBase)
      ensures OldOrFresh(old(process.memory), old(setEventBypass), setEventBypass)
      ensures OldOrFresh(old(process.memory), old(readMemoryBypass), readMemoryBypass)
    {
      hide BypassBuilt, CanBypass, AfterBypass, TransportBuilt, ExportWritten, CanSet;
      ghost var before := process.memory;
      ghost var first, third;
      ok, first := MakeBypasses(ntdll, exports);
      if !ok {
        return;
      }
      ghost var second := process.memory;
      ok, third := PublishBypasses(exports, setEventBypass.value.address, readMemoryBypass.value.address);
      if ok {
        BuiltInSteps(
          process.decode, exports, ntdll, hookImageBase, before, first, second, third, process.memory,
          setEventBypass.value, readMemoryBypass.value);
      }
    }

    method MakeBypasses(ntdll: nat, exports: Exports) returns (ok: bool, ghost between: Trampoline.Memory)
      requires process.Valid()
      modifies this`setEventBypass, this`readMemoryBypass, process
      ensures process.Valid()
      ensures
        var setEvent, readMemory := exports(ntdll, "NtSetEvent"), exports(ntdll, "NtReadVirtualMemory");
        var m, n := old(process.memory), old(process.calls);
        var m1 := AfterBypass(process, setEvent, m, n);
        && (ok <==> CanBypass(process, setEvent, m, n) && CanBypass(process, readMemory, m1, n + 6))
        && (ok ==>
              && setEventBypass.Some? && readMemoryBypass.Some? && process.calls == n + 12
              && setEventBypass.value.address < WORD64 && readMemoryBypass.value.address < WORD64
              && process.memory == AfterBypass(process, readMemory, m1, n + 6)
              && BypassBuilt(process.decode, setEvent, m, setEventBypass.value, between)
              && BypassBuilt(process.decode, readMemory, between, readMemoryBypass.value, process.memory))
      ensures Keeps(old(process.memory), process.memory)
      ensures OldOrFresh(old(process.memory), old(setEventBypass), setEventBypass)
      ensures OldOrFresh(old(process.memory), old(readMemoryBypass), readMemoryBypass)
    {
      hide BypassBuilt, CanBypass, AfterBypass;
      ok, between := false, process.memory;
      setEventBypass := BypassFor(ntdll, "NtSetEvent", exports);
      if setEventBypass.None? {
        return;
      }
      between := process.memory;
      readMemoryBypass := BypassFor(ntdll, "NtReadVirtualMemory", exports);
      ok := readMemoryBypass.Some?;
    }

    method PublishBypasses(exports: Exports, setEvent: nat, readMemory: nat)
      returns (ok: bool, ghost between: Trampoline.Memory)
      requires process.Valid() && setEvent < WORD64 && readMemory < WORD64
      modifies process
      ensures process.Valid()
      ensures
        var event, read :=
          exports(hookImageBase, "TransportNtSetEvent"), exports(hookImageBase, "TransportNtReadVirtualMemory");
        var m, n := old(process.memory), old(process.calls);
        && (ok <==> CanSet(process.refuses, event, m, n) && CanSet(process.refuses, read, m, n + 1))
        && (ok ==>
              && process.calls == n + 2 && ExportWritten(event, setEvent, m, between)
              && ExportWritten(read, readMemory, between, process.memory))
      ensures ok ==> Published(exports, setEvent, readMemory)
      ensures KeptBut(old(process.memory), process.memory, exports, hookImageBase)
    {
      between := process.memory;
      ok := WriteRemoteExport(exports, "TransportNtSetEvent", setEvent);
      if !ok {
        return;
      }
      ghost var m := old(process.memory);
      between := process.memory;
      ok := WriteRemoteExport(exports, "TransportNtReadVirtualMemory", readMemory);
      if ok {
        PublishedInTurn(exports, m, between, setEvent, readMemory);
      }
    }

    /** Each variable of the hook image reads as its own address. */
    ghost predicate Published(exports: Exports, setEvent: nat, readMemory: nat)
      reads this`hookImageBase, process
    {
      var event, read :=
        exports(hookImageBase, "TransportNtSetEvent"), exports(hookImageBase, "TransportNtReadVirtualMemory");
      && event.Some? && read.Some?
      && Mapped(process.memory, event.value.address, 8) && Mapped(process.memory, read.value.address, 8)
      && FromLittleEndian(Read(process.memory, read.value.address, 8)) == readMemory
      && (Apart(event.value.address, 8, read.value.address, 8) ==>
            FromLittleEndian(Read(process.memory, event.value.address, 8)) == setEvent)
    }

    lemma PublishedInTurn(
      exports: Exports, m: Trampoline.Memory, between: Trampoline.Memory, setEvent: nat, readMemory: nat)
      requires setEvent < WORD64 && readMemory < WORD64
      requires
        var event, read :=
          exports(hookImageBase, "TransportNtSetEvent"), exports(hookImageBase, "TransportNtReadVirtualMemory");
        && ExportWritten(event, setEvent, m, between) && ExportWritten(read, readMemory, between, process.memory)
        && Mapped(m, event.value.address, 8) && Mapped(m, read.value.address, 8)
      ensures Published(exports, setEvent, readMemory)
    {
      var event, read :=
        exports(hookImageBase, "TransportNtSetEvent"), exports(hookImageBase, "TransportNtReadVirtualMemory");
      WrittenPointer(m, event.value.address, setEvent);
      WrittenPointer(between, read.value.address, readMemory);
      if Apart(event.value.address, 8, read.value.address, 8) {
        ReadElsewhere(between, read.value.address, LittleEndianPointer(readMemory), event.value.address, 8);
      }
    }

    method WriteRemoteExport(exports: Exports, name: string, value: nat) returns (ok: bool)
      requires process.Valid()
      modifies process
      ensures process.Valid()
      ensures ok <==>
        CanSet(process.refuses, exports(hookImageBase, name), old(process.memory), old(process.calls))
      ensures ok ==> process.calls == old(process.calls) + 1
      ensures ok ==> ExportWritten(exports(hookImageBase, name), value, old(process.memory), process.memory)
      ensures !ok ==> process.memory == old(process.memory)
    {
      var e := HookImageExport(exports, name);
      if !NonNull(e) {
        return false;
      }
      ok := process.WriteProcessMemory(e.value, LittleEndianPointer(value));
    }

    /**
     A module was loaded. `path` is its file name if that is ASCII, `remoteName` the name in its own export
     directory; a module with neither is not recorded.
     */
    method RegisterModule(base: nat, path: string, remoteName: string, exports: Exports)
      returns (ok: bool, ghost added: seq<InstalledHook>, ghost rounds: seq<Moment>)
      requires Valid()
      modifies this`modules, this`moduleGeneration, this`transportConfigured, this`installedHooks
      modifies this`setEventBypass, this`readMemoryBypass, process
      ensures Valid() && installedHooks == old(installedHooks) + added
      ensures AllPlaced(modules, exports, definitions, added)
      ensures
        var name := RecordedName(path, remoteName);
        if name == "" then
          && ok && modules == old(modules) && moduleGeneration == old(moduleGeneration) && added == []
          && transportConfigured == old(transportConfigured) && process.memory == old(process.memory)
        else
          && modules == Loaded(old(modules), base, name, old(moduleGeneration) + 1)
          && moduleGeneration == old(moduleGeneration) + 1 && Newest(modules, name) == Some(base)
          && (transportConfigured <==>
                || old(transportConfigured)
                || (name == "ntdll.dll"
                    && CanConfigure(
                         process, exports, base, hookImageBase, old(process.memory), old(process.calls))))
          && (!transportConfigured ==>
                (ok <==> name != "ntdll.dll") && added == [] && (ok ==> process.memory == old(process.memory)))
          && (transportConfigured ==> rounds != [] && PassEnds(exports, rounds, ok, Now()))
          && (old(transportConfigured) ==> rounds[0] == old(Now()))
      ensures transportConfigured && !old(transportConfigured) ==>
        && rounds[0].hooks == old(installedHooks) && rounds[0].calls == old(process.calls) + 14
        && TransportBuilt(
             process.decode, exports, base, hookImageBase, old(process.memory), setEventBypass.value,
             readMemoryBypass.value, rounds[0].memory)
      ensures rounds == [] ==>
        added == [] && KeptBut(old(process.memory), process.memory, exports, hookImageBase)
      ensures rounds != [] ==>
        && rounds[0].hooks == old(installedHooks) && PassEnds(exports, rounds, ok, Now())
        && KeptBut(old(process.memory), rounds[0].memory, exports, hookImageBase)
      ensures OldOrFresh(old(process.memory), old(setEventBypass), setEventBypass)
      ensures OldOrFresh(old(process.memory), old(readMemoryBypass), readMemoryBypass)
    {
      hide HookResolution, HooksOk, TransportBuilt, CanConfigure, PassEnds, Generations, NormalizeModuleName;
      added, rounds := [], [];
      var name := NormalizeModuleName(path);
      if name == "" {
        name := NormalizeModuleName(remoteName);
      }
      if name == "" {
        return true, [], [];
      }
      RecordModule(base, name);
      ok := EnsureTransport(base, name, exports);
      if !ok || !transportConfigured {
        return ok, [], [];
      }
      ok, added, rounds := TryInstallPendingHooks(exports);
    }

    /** The newest module, whatever was recorded at that base before. */
    method RecordModule(base: nat, name: string)
      requires Valid()
      modifies this`modules, this`moduleGeneration
      ensures Valid()
      ensures modules == Loaded(old(modules), base, name, old(moduleGeneration) + 1)
      ensures moduleGeneration == old(moduleGeneration) + 1
      ensures Newest(modules, name) == Some(base)
    {
      NewGeneration(modules, moduleGeneration, base, name);
      HooksStay(modules, base, ModuleRecord(base, name, moduleGeneration + 1), installedHooks);
      moduleGeneration := moduleGeneration + 1;
      modules := Loaded(modules, base, name, moduleGeneration);
    }

    /** The transport is set up when ntdll is first seen. */
    method EnsureTransport(base: nat, name: string, exports: Exports) returns (ok: bool)
      requires process.Valid() && (transportConfigured ==> setEventBypass.Some? && readMemoryBypass.Some?)
      modifies this`transportConfigured, this`setEventBypass, this`readMemoryBypass, process
      ensures process.Valid() && (transportConfigured ==> setEventBypass.Some? && readMemoryBypass.Some?)
      ensures transportConfigured <==>
        || old(transportConfigured)
        || (name == "ntdll.dll"
            && CanConfigure(process, exports, base, hookImageBase, old(process.memory), old(process.calls)))
      ensures ok <==> transportConfigured || name != "ntdll.dll"
      ensures old(transportConfigured) || name != "ntdll.dll" ==>
        process.memory == old(process.memory) && process.calls == old(process.calls)
      ensures transportConfigured && !old(transportConfigured) ==>
        && process.calls == old(process.calls) + 14
        && TransportBuilt(
             process.decode, exports, base, hookImageBase, old(process.memory), setEventBypass.value,
             readMemoryBypass.value, process.memory)
      ensures KeptBut(old(process.memory), process.memory, exports, hookImageBase)
      ensures OldOrFresh(old(process.memory), old(setEventBypass), setEventBypass)
      ensures OldOrFresh(old(process.memory), old(readMemoryBypass), readMemoryBypass)
    {
      hide TransportBuilt, CanConfigure;
      ok := true;
      if name == "ntdll.dll" && !transportConfigured {
        var configured := ConfigureTransport(base, exports);
        if !configured {
          return false;
        }
        transportConfigured := true;
      }
    }

    /** Give back what one hook holds, if the unloaded module takes part in it. */
    method LetGo(hook: InstalledHook, base: nat) returns (erased: bool, clean: bool, ghost undone: bool)
      requires process.Valid()
      modifies process
      ensures process.Valid()
      ensures erased <==> Dropped(hook, base)
      ensures clean ==>
        CanGiveBack(old(process.memory), hook, base) && process.memory == GivenBack(old(process.memory), hook, base)
      ensures process.GrantsAll() && !clean ==> !CanGiveBack(old(process.memory), hook, base)
      ensures ContainedStep(old(process.memory), process.memory, hook, base)
      ensures (undone ==> Undone(hook, base)) && (clean && Undone(hook, base) ==> undone)
      ensures GivesBack(old(process.memory), process.memory, hook, undone)
    {
      erased, clean, undone := true, true, false;
      if hook.target == base {
        clean := process.ReleaseUnloadedHook(hook);
      } else if hook.source == base {
        ghost var before := process.memory;
        clean := process.UnhookFunction(hook);
        undone := clean || process.memory != before;
      } else {
        erased := false;
      }
    }

    /**
     A module was unloaded: the hooks that it takes part in are dropped, the others stay as they are. If no
     system call is refused, `clean` tells exactly whether every hook could be given back.
     */
    method HandleUnloadDll(base: nat) returns (clean: bool, ghost undone: seq<InstalledHook>)
      requires Valid()
      modifies this`modules, this`installedHooks, process
      ensures Valid()
      ensures modules == old(modules) - {base}
      ensures installedHooks == WithoutModule(old(installedHooks), base)
      ensures forall h :: h in installedHooks <==>
        h in old(installedHooks) && h.target != base && h.source != base
      ensures clean ==> forall x, h ::
        x in process.memory && h in old(installedHooks) && (h.target == base || h.source == base) ==>
          !InRange(x, h.trampoline, 1024)
      ensures clean ==> process.memory == GivenBackAll(old(process.memory), old(installedHooks), base)
      ensures process.GrantsAll() ==>
        (clean <==> AllCanGiveBack(old(process.memory), old(installedHooks), base))
      ensures Contained(old(process.memory), process.memory, old(installedHooks), base)
      ensures Chosen(old(installedHooks), |old(installedHooks)|, undone)
      ensures RewrittenBy(old(process.memory), process.memory, old(installedHooks), undone)
      ensures forall h :: h in undone ==> h in old(installedHooks) && h.target != base && h.source == base
      ensures clean ==> forall h :: h in old(installedHooks) && h.target != base && h.source == base ==> h in undone
    {
      WithoutModuleOk(modules, installedHooks, base);
      FewerGenerations(modules, moduleGeneration, base);
      clean, undone := EraseHooks(base);
      if clean {
        forall x | x in process.memory
          ensures forall h :: h in old(installedHooks) && (h.target == base || h.source == base) ==>
            !InRange(x, h.trampoline, 1024)
        {
          NoneGivenBackIsLeft(old(process.memory), old(installedHooks), base, x);
        }
      }
      modules := modules - {base};
    }

    method EraseHooks(base: nat) returns (clean: bool, ghost undone: seq<InstalledHook>)
      requires process.Valid()
      modifies this`installedHooks, process
      ensures process.Valid()
      ensures installedHooks == WithoutModule(old(installedHooks), base)
      ensures clean ==> process.memory == GivenBackAll(old(process.memory), old(installedHooks), base)
      ensures process.GrantsAll() ==>
        (clean <==> AllCanGiveBack(old(process.memory), old(installedHooks), base))
      ensures Contained(old(process.memory), process.memory, old(installedHooks), base)
      ensures Chosen(old(installedHooks), |old(installedHooks)|, undone)
      ensures RewrittenBy(old(process.memory), process.memory, old(installedHooks), undone)
      ensures forall h :: h in undone ==> h in old(installedHooks) && Undone(h, base)
      ensures clean ==> forall h :: h in old(installedHooks) && Undone(h, base) ==> h in undone
    {
      hide *;
      ghost var goal, hooks, before := WithoutModule(installedHooks, base), installedHooks, process.memory;
      EraseStart(base, hooks);
      UnloadStart(before, hooks, base, process.GrantsAll());
      UndoingStart(before, hooks, base);
      clean, undone := true, [];
      ghost var n := 0;
      WholeRest(hooks);
      var kept := 0;
      while kept < |installedHooks|
        invariant process.Valid() && kept <= |installedHooks| && Erasing(goal, base, installedHooks, kept)
        invariant Unloads(before, hooks, base, process.memory, installedHooks[kept..], clean, process.GrantsAll())
        invariant Undoing(before, hooks, base, process.memory, n, undone, clean)
        invariant n <= |hooks| && installedHooks[kept..] == hooks[n..]
        decreases |installedHooks| - kept
      {
        ghost var rest, now := installedHooks[kept..], process.memory;
        EraseStep(goal, base, installedHooks, kept);
        var erased, given, back := LetGo(installedHooks[kept], base);
        UnloadStep(before, hooks, base, now, rest, clean, process.GrantsAll(), process.memory, given);
        NextRest(hooks, n, rest);
        UndoingStep(before, hooks, base, now, n, undone, clean, process.memory, given, back);
        undone := if back then undone + [hooks[n]] else undone;
        clean := clean && given;
        n := n + 1;
        if erased {
          installedHooks := Erased(installedHooks, kept);
        } else {
          kept := kept + 1;
        }
      }
      EraseDone(goal, base, installedHooks);
      UndoingDone(before, hooks, base, process.memory, undone, clean);
      UnloadDone(before, hooks, base, process.memory, installedHooks[kept..], clean, process.GrantsAll());
    }

    /** Take all hooks out, newest first. */
    method RemoveAllHooks() returns (cleaned: bool)
      requires Valid()
      modifies this`installedHooks, process
      ensures Valid() && installedHooks == []
      ensures cleaned ==>
        process.memory == UnhookedBackwards(old(process.memory), old(installedHooks), |old(installedHooks)|)
      ensures cleaned ==> forall x, h ::
        x in process.memory && h in old(installedHooks) ==> !InRange(x, h.trampoline, 1024)
      ensures process.GrantsAll() ==>
        (cleaned <==> AllCanUnhook(old(process.memory), old(installedHooks), |old(installedHooks)|))
    {
      cleaned := process.RemoveHooks(installedHooks);
      installedHooks := [];
    }

    ghost function Remotes(): Remote
      reads this
    {
      Remote(remoteRing, setEventBypass, readMemoryBypass, Region(hookImageBase, hookImageSize))
    }

    method ClearRemoteExports(exports: Exports) returns (cleaned: bool)
      requires process.Valid()
      modifies process
      ensures process.Valid()
      ensures cleaned ==> process.memory == AllCleared(old(process.memory), exports, hookImageBase)
      ensures cleaned ==> CanClearAll(old(process.memory), exports, hookImageBase)
      ensures process.GrantsAll() && CanClearAll(old(process.memory), exports, hookImageBase) ==> cleaned
    {
      var ring := WriteRemoteExport(exports, "TransportRing", 0);
      var event := WriteRemoteExport(exports, "TransportWakeEvent", 0);
      var setEvent := WriteRemoteExport(exports, "TransportNtSetEvent", 0);
      var readMemory := WriteRemoteExport(exports, "TransportNtReadVirtualMemory", 0);
      cleaned := readMemory && setEvent && event && ring;
    }

    /** The ring, the wake-up event and the bypasses are given back, whatever fails on the way. */
    method CleanupTransport(exports: Exports) returns (cleaned: bool)
      requires process.Valid()
      modifies this`remoteRing, this`remoteWakeEvent, this`setEventBypass, this`readMemoryBypass, process
      ensures process.Valid()
      ensures remoteRing.None? && !remoteWakeEvent && setEventBypass.None? && readMemoryBypass.None?
      ensures cleaned ==> process.memory == TransportDown(old(process.memory), exports, old(Remotes()))
      ensures process.GrantsAll() ==> (cleaned <==> CanClearAll(old(process.memory), exports, hookImageBase))
      ensures cleaned ==> forall x :: x in process.memory ==>
        && (old(remoteRing).Some? ==> !InRange(x, old(remoteRing).value.start, old(remoteRing).value.size))
        && (old(setEventBypass).Some? ==> !InRange(x, old(setEventBypass).value.address, 1024))
        && (old(readMemoryBypass).Some? ==> !InRange(x, old(readMemoryBypass).value.address, 1024))
      ensures cleaned ==> forall name ::
        name in {"TransportRing", "TransportWakeEvent", "TransportNtSetEvent", "TransportNtReadVirtualMemory"} ==>
          ReadsNull(exports, name, old(Remotes()))
    {
      hide AllCleared, CanClearAll, WithoutRing, WithoutBypass, TransportDown;
      ghost var m, remotes := process.memory, Remotes();
      cleaned := ClearRemoteExports(exports);
      ghost var m1 := process.memory;
      var unmapped := UnmapRing(remoteRing);
      remoteRing := None;
      ghost var m2 := process.memory;
      var closed := CloseWakeEvent();
      var setEvent := FreeBypass(setEventBypass);
      setEventBypass := None;
      ghost var m3 := process.memory;
      var readMemory := FreeBypass(readMemoryBypass);
      readMemoryBypass := None;
      cleaned := readMemory && setEvent && closed && unmapped && cleaned;
      if cleaned {
        DownInSteps(m, m1, m2, m3, exports, remotes);
        AllReadNull(exports, m, remotes);
        forall x | x in process.memory
          ensures remotes.ring.Some? ==> !InRange(x, remotes.ring.value.start, remotes.ring.value.size)
          ensures remotes.setEvent.Some? ==> !InRange(x, remotes.setEvent.value.address, 1024)
          ensures remotes.readMemory.Some? ==> !InRange(x, remotes.readMemory.value.address, 1024)
        {
          TransportIsGone(m, exports, remotes, x);
        }
      }
    }

    /** A variable of the hook image that lies outside what was given back reads zero. */
    ghost predicate ReadsNull(exports: Exports, name: string, r: Remote)
      reads this`hookImageBase, process
    {
      var e := exports(hookImageBase, name);
      && e.Some? && e.value.address != 0
      && (StaysBehind(e.value.address, r) ==>
            && Mapped(process.memory, e.value.address, 8)
            && FromLittleEndian(Read(process.memory, e.value.address, 8)) == 0)
    }

    lemma AllReadNull(exports: Exports, m: Trampoline.Memory, r: Remote)
      requires CanClearAll(m, exports, hookImageBase) && r.image.start == hookImageBase
      requires process.memory == TransportDown(m, exports, r)
      ensures forall name ::
        name in {"TransportRing", "TransportWakeEvent", "TransportNtSetEvent", "TransportNtReadVirtualMemory"} ==>
          ReadsNull(exports, name, r)
    {
      hide TransportDown, StaysBehind;
      forall name |
        name in {"TransportRing", "TransportWakeEvent", "TransportNtSetEvent", "TransportNtReadVirtualMemory"}
        ensures ReadsNull(exports, name, r)
      {
        if StaysBehind(exports(hookImageBase, name).value.address, r) {
          VariableIsNull(m, exports, r, name);
        }
      }
    }

    method CloseWakeEvent() returns (ok: bool)
      requires process.Valid()
      modifies this`remoteWakeEvent, process
      ensures process.Valid() && process.memory == old(process.memory) && !remoteWakeEvent
      ensures process.GrantsAll() ==> ok
    {
      ok := true;
      if remoteWakeEvent {
        ok := process.Ask();
      }
      remoteWakeEvent := false;
    }

    method UnmapRing(ring: Option<Region>) returns (ok: bool)
      requires process.Valid()
      modifies process
      ensures process.Valid()
      ensures ok ==> process.memory == WithoutRing(old(process.memory), ring)
      ensures process.GrantsAll() ==> ok
    {
      ok := true;
      if ring.Some? {
        ok := process.VirtualFreeEx(ring.value.start, ring.value.size);
      }
    }

    method FreeBypass(bypass: Option<RemoteTrampoline>) returns (ok: bool)
      requires process.Valid()
      modifies process
      ensures process.Valid()
      ensures ok ==> process.memory == WithoutBypass(old(process.memory), bypass)
      ensures process.GrantsAll() ==> ok
    {
      ok := true;
      if bypass.Some? {
        ok := process.VirtualFreeEx(bypass.value.address);
      }
    }

    /** Everything that the debugger put into the process comes out: the hooks, the transport, the hook image. */
    method CleanupRemote(exports: Exports) returns (cleaned: bool)
      requires Valid()
      modifies this, process
      ensures process.Valid() && installedHooks == [] && hookImageBase == 0
      ensures
        var m := UnhookedBackwards(old(process.memory), old(installedHooks), |old(installedHooks)|);
        && (cleaned ==>
              process.memory == if old(hookImageBase) == 0 then m else TornDown(m, exports, old(Remotes())))
        && (process.GrantsAll() ==>
              (cleaned <==>
                 && AllCanUnhook(old(process.memory), old(installedHooks), |old(installedHooks)|)
                 && (old(hookImageBase) != 0 ==> CanClearAll(m, exports, old(hookImageBase)))))
      ensures cleaned && old(hookImageBase) != 0 ==> forall x :: x in process.memory ==>
        && !InRange(x, old(hookImageBase), old(hookImageSize))
        && (old(remoteRing).Some? ==> !InRange(x, old(remoteRing).value.start, old(remoteRing).value.size))
        && (old(setEventBypass).Some? ==> !InRange(x, old(setEventBypass).value.address, 1024))
        && (old(readMemoryBypass).Some? ==> !InRange(x, old(readMemoryBypass).value.address, 1024))
      ensures cleaned ==> forall x, h ::
        x in process.memory && h in old(installedHooks) ==> !InRange(x, h.trampoline, 1024)
    {
      hide TransportDown, CanClearAll, AllCanUnhook, UnhookedBackwards, ReadsNull, TornDown;
      ghost var hooks, remotes := installedHooks, Remotes();
      cleaned := RemoveAllHooks();
      ghost var off := process.memory;
      if hookImageBase != 0 {
        var down := CleanupTransport(exports);
        cleaned := down && cleaned;
        var freed := process.VirtualFreeEx(hookImageBase, hookImageSize);
        cleaned := freed && cleaned;
        hookImageBase := 0;
        if cleaned {
          TornDownIs(off, exports, remotes);
          assert process.memory == TornDown(off, exports, remotes);
          forall x | x in process.memory ensures x in off && x in TransportDown(off, exports, remotes) {
            NothingIsLeft(off, exports, remotes, x);
          }
        }
      }
    }

    // -------------------------------------------------------------- the quiescence check

    method IsInstrumentationAddress(ip: nat) returns (inside: bool)
      ensures inside <==> Instrumentation(hookImageBase, hookImageSize, installedHooks, ip)
    {
      if hookImageBase != 0 && ip >= hookImageBase && ip < hookImageBase + hookImageSize {
        return true;
      }
      for i := 0 to |installedHooks|
        invariant forall k :: 0 <= k < i ==> !HookCovers(installedHooks[k], ip)
      {
        var hook := installedHooks[i];
        if (ip >= hook.original && ip < hook.original + |hook.originalBytes|)
           || (ip >= hook.trampoline && ip < hook.trampoline + 1024) {
          return true;
        }
      }
      return false;
    }

    /** `activeCalls` is what reading ActiveHookCalls gave, `snapshot` the threads of the whole system. */
    method IsCleanupQuiescent(activeCalls: Option<int>, snapshot: Option<seq<ThreadEntry>>)
      returns (quiescent: bool)
      ensures quiescent <==>
        || hookImageBase == 0
        || (activeCalls == Some(0) && snapshot.Some?
            && forall e :: e in snapshot.value && e.owner == processId ==>
                 Harmless(hookImageBase, hookImageSize, installedHooks, e.access))
      ensures quiescent <==>
        || hookImageBase == 0
        || (activeCalls == Some(0) && snapshot.Some?
            && forall e :: e in snapshot.value && e.owner == processId ==>
                 match e.access
                 case Gone => true
                 case Denied => false
                 case NoContext => false
                 case At(ip) =>
                   && !(hookImageBase <= ip < hookImageBase + hookImageSize)
                   && forall h :: h in installedHooks ==>
                        && !(h.original <= ip < h.original + |h.originalBytes|)
                        && !(h.trampoline <= ip < h.trampoline + 1024))
    {
      if hookImageBase == 0 {
        return true;
      }
      if activeCalls.None? || activeCalls.value != 0 {
        return false;
      }
      if snapshot.None? {
        return false;
      }
      var entries := snapshot.value;
      for i := 0 to |entries|
        invariant forall k :: 0 <= k < i && entries[k].owner == processId ==>
          Harmless(hookImageBase, hookImageSize, installedHooks, entries[k].access)
      {
        var entry := entries[i];
        if entry.owner != processId {
          continue;
        }
        match entry.access
        case Gone => continue;
        case Denied => return false;
        case NoContext => return false;
        case At(ip) =>
          var inside := IsInstrumentationAddress(ip);
          if inside {
            return false;
          }
      }
      return true;
    }
  }

  /** The hook recorded as `h` was put into memory `m`, giving `m'`. */
  ghost predicate Put(decode: Trampoline.Decoder, m: Trampoline.Memory, h: InstalledHook, m': Trampoline.Memory) {
    && Describes(h, decode, m, h.original, h.slot)
    && exists handler: nat :: handler < WORD64 && m' == Hooked(m, h, handler)
  }

  lemma SourceIsLoaded(modules: Modules, name: string, source: nat)
    requires Newest(modules, name) == Some(source)
    ensures source in modules
  {
  }

  lemma {:induction false} WalkTargets(hops: Hops, x: Node, n: nat, visited: set<string>, loaded: set<nat>)
    requires forall y: Node :: hops(y).Found? ==> hops(y).target in loaded
    ensures Walk(hops, x, n, visited).Resolved? ==> Walk(hops, x, n, visited).target in loaded
    decreases n
  {
    if n > 0 && Identity(x) !in visited && hops(x).Goes? {
      WalkTargets(hops, hops(x).next, n - 1, visited + {Identity(x)}, loaded);
    }
  }

  lemma HopTarget(modules: Modules, exports: Exports, y: Node)
    ensures HopFrom(modules, exports, y).Found? ==> HopFrom(modules, exports, y).target in modules
  {
  }

  lemma TargetIsLoaded(modules: Modules, exports: Exports, d: HookDefinition, address: nat, target: nat)
    requires HookResolution(modules, exports, d) == Resolved(address, target)
    ensures target in modules
  {
    var hops := HopsOf(modules, exports);
    forall y: Node ensures hops(y).Found? ==> hops(y).target in modules.Keys {
      HopTarget(modules, exports, y);
    }
    WalkTargets(hops, Node(Qualified(d.moduleName), d.exportName), MAX_HOPS, {}, modules.Keys);
  }

  lemma HookIsPlaced(
    modules: Modules, exports: Exports, hooks: seq<InstalledHook>, d: HookDefinition, h: InstalledHook)
    requires HooksOk(modules, hooks) && PlacedBy(modules, exports, d, h)
    requires !HasHook(hooks, d.canonicalName) && !HasAddress(hooks, h.original)
    ensures HooksOk(modules, hooks + [h])
    ensures Settled(modules, exports, hooks + [h], d)
  {
    TargetIsLoaded(modules, exports, d, h.original, h.target);
    SourceIsLoaded(modules, d.moduleName, h.source);
    HooksExtend(modules, hooks, h);
    var all := hooks + [h];
    assert all[|hooks|].name == d.canonicalName;
  }
}
