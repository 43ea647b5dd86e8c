/** A run in which unloading a module leaves part of a patch in code that stays. */
module OverlappingUnload {
  import opened Bytes
  import opened TargetMemory
  import opened Trampoline
  import opened Wrappers
  import opened HookManager
  import opened HookRestoration
  import opened Unloading
  import Session

  /** Two functions four bytes apart, and the byte that both patches hold. */
  const FIRST := 4096
  const SECOND := 4100
  const SHARED := 4101
  const FIRST_SLOT := 4136
  const SECOND_SLOT := 4144
  const HANDLER := 0x7000

  /** The module whose exports led to both functions, and the module they are in. */
  const FORWARDER := 1
  const LIBRARY := 2

  /** The code of the library around them. */
  function Code(): (code: set<int>)
    ensures forall x :: x in code <==> FIRST <= x < FIRST_SLOT
  {
    set x: int | FIRST <= x < FIRST_SLOT && InRange(x, FIRST, 40)
  }

  predicate HasPage(m: Memory) { forall x :: 4096 <= x < 4160 ==> x in m }

  lemma HookedMaps(m: Memory, h: InstalledHook, handler: nat)
    requires handler < WORD64 && |h.originalBytes| >= PATCH_SIZE && h.original + |h.originalBytes| < WORD64
    requires Mapped(m, h.original, |h.originalBytes|)
    ensures forall x :: x in Hooked(m, h, handler) <==> x in m || InRange(x, h.trampoline, TRAMPOLINE_SIZE)
  {
  }

  lemma CanBeHooked(m: Memory, original: nat, address: nat, slot: nat)
    requires HasPage(m) && Fits(m, address)
    requires 4096 <= original <= 4160 - DECODE_WINDOW && 4096 <= slot <= 4152
    ensures Possible(OneByteDecoder, m, original, address, slot)
  {
    var window := Read(m, original, DECODE_WINDOW);
    OneByteBoundary(window, PATCH_SIZE);
    assert IsPatchSize(OneByteDecoder, window, PATCH_SIZE);
  }

  /** What one of the two installations leaves. */
  ghost predicate Placed(m: Memory, h: InstalledHook, m': Memory, original: nat, slot: nat) {
    && HasPage(m) && HasPage(m')
    && h.source == FORWARDER && h.target == LIBRARY
    && Describes(h, OneByteDecoder, m, original, slot) && m' == Hooked(m, h, HANDLER)
  }

  method Place(process: Process, original: nat, slot: nat) returns (hook: InstalledHook)
    requires process.Valid() && process.decode == OneByteDecoder && process.GrantsAll() && HasPage(process.memory)
    requires 4096 <= original <= 4160 - DECODE_WINDOW && 4096 <= slot <= 4152
    requires Fits(process.memory, process.place(process.calls + 1))
    modifies process
    ensures process.Valid() && Placed(old(process.memory), hook, process.memory, original, slot)
    ensures process.calls == old(process.calls) + 12
    ensures hook.trampoline == process.place(old(process.calls) + 1)
  {
    hide Hooked, Possible, KeepsOutside, LeftPatched, Fits, LocalDecoder;
    CanBeHooked(process.memory, original, process.place(process.calls + 1), slot);
    var installed, written := process.HookFunction(original, "", Some(HANDLER), Some(slot));
    hook := installed.value.(source := FORWARDER, target := LIBRARY);
    Attributed(OneByteDecoder, old(process.memory), installed.value, HANDLER, FORWARDER, LIBRARY);
    HookedMaps(old(process.memory), hook, HANDLER);
  }

  lemma PlacedExtends(m: Memory, h: InstalledHook, m': Memory, original: nat, slot: nat)
    requires Placed(m, h, m', original, slot)
    ensures Installs(OneByteDecoder, Code(), m, h, m')
  {
    assert InstallsAt(OneByteDecoder, Code(), m, h, m', m, HANDLER);
  }

  lemma FirstPatch(m: Memory, h: InstalledHook, m': Memory)
    requires Placed(m, h, m', FIRST, FIRST_SLOT)
    ensures SHARED in m' && m'[SHARED] == 0xC7
  {
    RecordedCode(OneByteDecoder, m, m', h, HANDLER, FIRST + |h.originalBytes|);
    CodeByte(m', FIRST, Patch(HANDLER, |h.originalBytes|), SHARED - FIRST);
  }

  lemma StillMapped(m0: Memory, g: InstalledHook, m1: Memory, m2: Memory)
    requires Placed(m0, g, m1, FIRST, FIRST_SLOT) && HasPage(m2)
    ensures HasPage(Unhooked(m2, g))
  {
    forall x | 4096 <= x < 4160 ensures x in Unhooked(m2, g) {
      assert x in m0 && x in m2;
    }
  }

  /** The two installations, one on top of the other. */
  ghost predicate TwoPlaced(states: seq<Memory>, hooks: seq<InstalledHook>) {
    && |states| == 3 && |hooks| == 2
    && Placed(states[0], hooks[0], states[1], FIRST, FIRST_SLOT)
    && Placed(states[1], hooks[1], states[2], SECOND, SECOND_SLOT)
  }

  lemma BothCanGo(states: seq<Memory>, hooks: seq<InstalledHook>)
    requires TwoPlaced(states, hooks)
    ensures AllCanGiveBack(states[2], hooks, FORWARDER)
  {
    var g, h := hooks[0], hooks[1];
    var m3 := Unhooked(states[2], g);
    StillMapped(states[0], g, states[1], states[2]);
    assert CanGiveBack(states[2], g, FORWARDER) && CanGiveBack(m3, h, FORWARDER);
    assert hooks[1..][0] == h && hooks[1..][1..] == [];
    assert AllCanGiveBack(m3, hooks[1..], FORWARDER);
  }

  lemma TwoMakeHistory(states: seq<Memory>, hooks: seq<InstalledHook>)
    requires TwoPlaced(states, hooks)
    ensures History(OneByteDecoder, Code(), states, hooks)
  {
    PlacedExtends(states[0], hooks[0], states[1], FIRST, FIRST_SLOT);
    PlacedExtends(states[1], hooks[1], states[2], SECOND, SECOND_SLOT);
  }

  lemma SharedIsLastInSecond(states: seq<Memory>, hooks: seq<InstalledHook>)
    requires TwoPlaced(states, hooks)
    ensures NewestUndone(hooks, FORWARDER, 1, SHARED) && OutsideSlots(hooks, SHARED)
  {
  }

  /** So the shared byte becomes what the newer hook found there: the older patch. */
  lemma SharedByteStays(states: seq<Memory>, hooks: seq<InstalledHook>)
    requires TwoPlaced(states, hooks)
    ensures
      var r := GivenBackAll(states[2], hooks, FORWARDER);
      SHARED in r && r[SHARED] == 0xC7
  {
    hide TwoPlaced, Placed, NewestUndone, GivenBackAll, OutsideSlots, History;
    TwoMakeHistory(states, hooks);
    SharedIsLastInSecond(states, hooks);
    SharedByteBetween(states, hooks);
    OrderIsOutside(OneByteDecoder, Code(), states, hooks, hooks, SHARED);
    NewestUndoneAt(states[2], hooks, FORWARDER, 1, SHARED);
  }

  /** The newer hook saved the older patch's byte. */
  lemma SharedByteBetween(states: seq<Memory>, hooks: seq<InstalledHook>)
    requires TwoPlaced(states, hooks)
    ensures |states| == 3 && |hooks| == 2 && SHARED in states[2]
    ensures InPatch(SHARED, hooks[1]) && hooks[1].originalBytes[SHARED - hooks[1].original] == 0xC7
  {
    FirstPatch(states[0], hooks[0], states[1]);
    PlacedExtends(states[1], hooks[1], states[2], SECOND, SECOND_SLOT);
    InstallAt(OneByteDecoder, Code(), states[1], hooks[1], states[2], SHARED);
  }

  /** Two hooks from concrete memory, all nops. */
  method PlaceBoth() returns (process: Process, hooks: seq<InstalledHook>, ghost states: seq<Memory>)
    ensures fresh(process) && process.Valid() && process.GrantsAll()
    ensures TwoPlaced(states, hooks) && states[0] == Nops() && states[2] == process.memory
  {
    hide Placed;
    OneByteIsLocal();
    process := new Process(Nops(), OneByteDecoder, i => false, i => if i < 12 then 65536 else 131072);
    PageOfNops();
    ghost var before := process.memory;
    var g := Place(process, FIRST, FIRST_SLOT);
    ghost var between := process.memory;
    SecondFits(before, g, between);
    var h := Place(process, SECOND, SECOND_SLOT);
    hooks, states := [g, h], [before, between, process.memory];
  }

  lemma PageOfNops()
    ensures HasPage(Nops()) && Fits(Nops(), 65536)
  {
  }

  lemma SecondFits(m: Memory, g: InstalledHook, m': Memory)
    requires m == Nops() && g.trampoline == 65536 && Placed(m, g, m', FIRST, FIRST_SLOT)
    ensures HasPage(m') && Fits(m', 131072)
  {
    HookedMaps(m, g, HANDLER);
  }

  /**
   Every system call succeeds and both hooks of the unloaded module are given back, and yet a byte that was
   a nop before the first hook is part of a patch after the last one is gone.
   */
  method UnloadLeavesPatch()
    returns (before: Memory, after: Memory, left: nat, ghost hooks: seq<InstalledHook>, ghost states: seq<Memory>)
    ensures SHARED in before && before[SHARED] == NOP && SHARED in after && after[SHARED] == 0xC7 && left == 0
    ensures History(OneByteDecoder, Code(), states, hooks) && before == states[0]
    ensures |hooks| == 2 && after == GivenBackAll(states[2], hooks, FORWARDER)
  {
    hide TwoPlaced, GivenBackAll, AllCanGiveBack, Contained, History;
    var process, installed, passed := PlaceBoth();
    before, hooks, states := Nops(), installed, passed;
    PageOfNops();
    BothCanGo(states, hooks);
    TwoMakeHistory(states, hooks);
    SharedByteBetween(states, hooks);
    SharedByteStays(states, hooks);
    NoneLeft(states, hooks);
    var session := new Session.DebugSession([], process, 0);
    session.installedHooks := installed;
    var clean, undone := session.EraseHooks(FORWARDER);
    after, left := process.memory, |session.installedHooks|;
  }

  lemma NoneLeft(states: seq<Memory>, hooks: seq<InstalledHook>)
    requires TwoPlaced(states, hooks)
    ensures Session.WithoutModule(hooks, FORWARDER) == []
  {
    assert hooks[1..][1..] == [];
    assert Session.WithoutModule(hooks[1..][1..], FORWARDER) == [];
  }
}
