/** What hooks do to the code they are put on: transparent while installed, gone after cleanup. */
module HookRestoration {
  import opened Bytes
  import opened TargetMemory
  import opened Trampoline
  import opened Wrappers
  import opened HookManager

  // ---------------------------------------------------------------- an installed hook is transparent

  lemma DisplacedPrefix(decode: Decoder, m: Memory, original: nat, n: nat)
    requires LocalDecoder(decode) && 0 < n <= DECODE_WINDOW
    requires Mapped(m, original, DECODE_WINDOW) && Mapped(m, original, n)
    requires SafeBoundary(decode, Read(m, original, DECODE_WINDOW), n)
    ensures SafeBoundary(decode, Read(m, original, n), n)
  {
    var window, bytes := Read(m, original, DECODE_WINDOW), Read(m, original, n);
    assert window[..n] == bytes == bytes[..n];
    BoundaryIsLocal(decode, window, bytes, n);
  }

  /** A fresh region, then a write outside it, then another: the region and the last write stay as written. */
  lemma Layers(m: Memory, region: nat, code: seq<byte>, slot: nat, pointer: seq<byte>, original: nat, patch: seq<byte>)
    requires Unmapped(m, region, TRAMPOLINE_SIZE) && |code| <= TRAMPOLINE_SIZE
    requires Mapped(m, slot, |pointer|) && Mapped(m, original, |patch|)
    ensures
      var m2 := Write(Write(Reserve(m, region, TRAMPOLINE_SIZE), region, code), slot, pointer);
      CodeAt(Write(m2, original, patch), original, patch) && CodeAt(Write(m2, original, patch), region, code)
  {
    var m1 := Write(Reserve(m, region, TRAMPOLINE_SIZE), region, code);
    var m2 := Write(m1, slot, pointer);
    WrittenIsThere(Reserve(m, region, TRAMPOLINE_SIZE), region, code);
    FreshRegionsAreApart(m, region, TRAMPOLINE_SIZE, slot, |pointer|);
    FreshRegionsAreApart(m, region, TRAMPOLINE_SIZE, original, |patch|);
    WriteElsewhere(m1, slot, pointer, region, code);
    WriteElsewhere(m2, original, patch, region, code);
    WrittenIsThere(m2, original, patch);
  }

  /** Installation is those three layers. */
  lemma HookedIsLayered(
    m: Memory, h: InstalledHook, handler: nat, code: seq<byte>, patch: seq<byte>, pointer: seq<byte>)
    requires handler < WORD64 && |h.originalBytes| >= PATCH_SIZE && h.original + |h.originalBytes| < WORD64
    requires Mapped(m, h.original, |h.originalBytes|)
    requires patch == Patch(handler, |h.originalBytes|) && pointer == LittleEndianPointer(h.trampoline)
    requires code == Read(m, h.original, |h.originalBytes|) + Stub(h.original + |h.originalBytes|)
    ensures Hooked(m, h, handler) ==
      Write(
        Write(Write(Reserve(m, h.trampoline, TRAMPOLINE_SIZE), h.trampoline, code), h.slot, pointer),
        h.original, patch)
  {
  }

  lemma HookedCode(
    m: Memory, h: InstalledHook, handler: nat, after: Memory, code: seq<byte>, patch: seq<byte>,
    pointer: seq<byte>)
    requires |pointer| == 8 && |code| <= TRAMPOLINE_SIZE
    requires Mapped(m, h.original, |patch|) && Mapped(m, h.slot, 8) && Unmapped(m, h.trampoline, TRAMPOLINE_SIZE)
    requires after ==
      Write(
        Write(Write(Reserve(m, h.trampoline, TRAMPOLINE_SIZE), h.trampoline, code), h.slot, pointer),
        h.original, patch)
    ensures CodeAt(after, h.original, patch) && CodeAt(after, h.trampoline, code)
  {
    Layers(m, h.trampoline, code, h.slot, pointer, h.original, patch);
  }

  lemma FreshRegionsAreApart(m: Memory, start: int, n: nat, other: int, k: nat)
    requires Unmapped(m, start, n) && Mapped(m, other, k)
    ensures Apart(start, n, other, k)
  {
    var x := if start <= other then other else start;
    assert start <= x < start + n ==> x !in m;
    assert other <= x < other + k ==> x in m;
  }

  lemma PatchEntersHandler<R(!new)>(
    cpu: Cpu<R>, after: Memory, original: nat, handler: nat, n: nat, c: Context<R>)
    returns (entered: Machine<R>)
    requires Processor(cpu) && handler < WORD64 && n >= PATCH_SIZE && c.rsp >= 8
    requires CodeAt(after, original, Patch(handler, n))
    ensures Reaches(cpu, after, Machine(original, c), entered)
    ensures entered.rip == handler && SameButDeadZone(c, entered.context)
  {
    CodeParts(after, original, Stub(handler), seq(n - PATCH_SIZE, i => NOP));
    var c1 := PatchReachesHandler(cpu, after, original, handler, c);
    entered := Machine(handler, c1);
  }

  /** Where the code is before and after a recorded hook went in. */
  lemma RecordedCode(
    decode: Decoder, before: Memory, after: Memory, h: InstalledHook, handler: nat, back: nat)
    requires handler < WORD64 && Mapped(before, h.slot, 8)
    requires Describes(h, decode, before, h.original, h.slot)
    requires back == h.original + |h.originalBytes| && after == Hooked(before, h, handler)
    ensures PATCH_SIZE <= |h.originalBytes| <= DECODE_WINDOW && back < WORD64
    ensures CodeAt(before, h.original, h.originalBytes)
    ensures CodeAt(after, h.original, Patch(handler, |h.originalBytes|))
    ensures CodeAt(after, h.trampoline, h.originalBytes + Stub(back))
  {
    var code, patch := h.originalBytes + Stub(back), Patch(handler, |h.originalBytes|);
    var pointer := LittleEndianPointer(h.trampoline);
    HookedIsLayered(before, h, handler, code, patch, pointer);
    HookedCode(before, h, handler, after, code, patch, pointer);
  }

  /**
   From any state of the processor, entering the hooked function arrives at the handler as the caller left
   things, and calling the trampoline does what the original prologue did, ending where it ended.
   */
  lemma HookIsTransparent<R(!new)>(
    cpu: Cpu<R>, before: Memory, after: Memory, h: InstalledHook, handler: nat, back: nat, c: Context<R>)
    returns (entered: Machine<R>, there: Machine<R>, here: Machine<R>)
    requires Processor(cpu) && handler < WORD64 && Mapped(before, h.slot, 8)
    requires Describes(h, cpu.decode, before, h.original, h.slot) && after == Hooked(before, h, handler)
    requires SafeBoundary(cpu.decode, h.originalBytes, |h.originalBytes|)
    requires back == h.original + |h.originalBytes| && c.rsp >= 8
    requires
      var e := Straight(cpu, h.originalBytes, |h.originalBytes|, c);
      e.Fell? ==> e.context.rsp >= 8
    ensures Reaches(cpu, after, Machine(h.original, c), entered)
    ensures entered.rip == handler && SameButDeadZone(c, entered.context)
    ensures Reaches(cpu, before, Machine(h.original, c), there)
    ensures Reaches(cpu, after, Machine(h.trampoline, c), here)
    ensures there.rip == here.rip && SameButDeadZone(there.context, here.context)
    ensures there == Arrival(h.original, |h.originalBytes|, Straight(cpu, h.originalBytes, |h.originalBytes|, c))
  {
    RecordedCode(cpu.decode, before, after, h, handler, back);
    entered := PatchEntersHandler(cpu, after, h.original, handler, |h.originalBytes|, c);
    there, here := TrampolineSimulates(
      cpu, before, after, h.original, back, h.trampoline, h.originalBytes, c);
  }

  /** Every recorded hook meets the requirement above: it displaces whole instructions that can be moved. */
  lemma RecordedBytesAreSafe(decode: Decoder, m: Memory, h: InstalledHook)
    requires LocalDecoder(decode) && Describes(h, decode, m, h.original, h.slot)
    ensures SafeBoundary(decode, h.originalBytes, |h.originalBytes|)
  {
    DisplacedPrefix(decode, m, h.original, |h.originalBytes|);
  }

  // ---------------------------------------------------------------- histories of hooks

  /** Neither memory lost a byte of `code` and they agree on it. */
  predicate SameOn(code: set<int>, m: Memory, m': Memory) {
    forall x :: x in code ==> x in m && x in m' && m[x] == m'[x]
  }

  /** The program runs for a while without writing to `code`; then the debugger installs `h`. */
  ghost predicate Installs(decode: Decoder, code: set<int>, m: Memory, h: InstalledHook, m': Memory) {
    exists mid: Memory, handler: nat :: handler < WORD64 && InstallsAt(decode, code, m, h, m', mid, handler)
  }

  ghost predicate InstallsAt(
    decode: Decoder, code: set<int>, m: Memory, h: InstalledHook, m': Memory, mid: Memory, handler: nat)
    requires handler < WORD64
  {
    SameOn(code, m, mid) && Describes(h, decode, mid, h.original, h.slot) && m' == Hooked(mid, h, handler)
  }

  /** `states[i]` is memory after the first `i` hooks. */
  ghost predicate History(decode: Decoder, code: set<int>, states: seq<Memory>, hooks: seq<InstalledHook>) {
    && |states| == |hooks| + 1
    && forall i :: 0 <= i < |hooks| ==> Installs(decode, code, states[i], hooks[i], states[i + 1])
  }

  predicate InPatch(x: int, h: InstalledHook) { InRange(x, h.original, |h.originalBytes|) }

  predicate InSlot(x: int, h: InstalledHook) { InRange(x, h.slot, 8) }

  lemma HookedAt(m: Memory, h: InstalledHook, handler: nat, x: int)
    requires handler < WORD64 && |h.originalBytes| >= PATCH_SIZE && h.original + |h.originalBytes| < WORD64
    requires Mapped(m, h.original, |h.originalBytes|) && x in m
    requires |h.originalBytes| + PATCH_SIZE <= TRAMPOLINE_SIZE
    ensures x in Hooked(m, h, handler)
    ensures !InPatch(x, h) && !InSlot(x, h) && !InRange(x, h.trampoline, TRAMPOLINE_SIZE) ==>
      Hooked(m, h, handler)[x] == m[x]
  {
    var code := Read(m, h.original, |h.originalBytes|) + Stub(h.original + |h.originalBytes|);
    LayersAt(
      m, h.trampoline, code, h.slot, LittleEndianPointer(h.trampoline), h.original,
      Patch(handler, |h.originalBytes|), x);
  }

  lemma LayersAt(
    m: Memory, region: nat, code: seq<byte>, slot: nat, pointer: seq<byte>, original: nat, patch: seq<byte>, x: int)
    requires |code| <= TRAMPOLINE_SIZE && x in m
    ensures
      var r := Write(
        Write(Write(Reserve(m, region, TRAMPOLINE_SIZE), region, code), slot, pointer), original, patch);
      && x in r
      && (!InRange(x, original, |patch|) && !InRange(x, slot, |pointer|) && !InRange(x, region, TRAMPOLINE_SIZE)
          ==> r[x] == m[x])
  {
  }

  lemma RecordedAt(decode: Decoder, m: Memory, h: InstalledHook, x: int)
    requires Describes(h, decode, m, h.original, h.slot) && x in m
    ensures !InRange(x, h.trampoline, TRAMPOLINE_SIZE)
    ensures InPatch(x, h) ==> h.originalBytes[x - h.original] == m[x]
    ensures PATCH_SIZE <= |h.originalBytes| <= DECODE_WINDOW && h.original + |h.originalBytes| < WORD64
    ensures Mapped(m, h.original, |h.originalBytes|)
  {
    if InPatch(x, h) {
      CodeByte(m, h.original, Read(m, h.original, |h.originalBytes|), x - h.original);
    }
  }

  /** One installation, seen at one byte of code. */
  lemma InstallAt(decode: Decoder, code: set<int>, m: Memory, h: InstalledHook, m': Memory, x: int)
    requires Installs(decode, code, m, h, m') && x in code
    ensures x in m && x in m' && !InRange(x, h.trampoline, TRAMPOLINE_SIZE)
    ensures InPatch(x, h) ==> h.originalBytes[x - h.original] == m[x]
    ensures !InPatch(x, h) && !InSlot(x, h) ==> m'[x] == m[x]
  {
    var mid: Memory, handler: nat :| handler < WORD64 && InstallsAt(decode, code, m, h, m', mid, handler);
    RecordedAt(decode, mid, h, x);
    HookedAt(mid, h, handler, x);
  }

  /** What one removal leaves at one byte. */
  lemma UnhookedAt(m: Memory, h: InstalledHook, x: int)
    requires x in m && !InRange(x, h.trampoline, TRAMPOLINE_SIZE)
    ensures x in Unhooked(m, h)
    ensures Unhooked(m, h)[x] ==
      if InSlot(x, h) then 0 else if InPatch(x, h) then h.originalBytes[x - h.original] else m[x]
  {
    if InSlot(x, h) {
      assert NULL_POINTER[x - h.slot] == 0;
    }
  }

  /** Removing the newest hook takes a byte from its value after that hook to its value before. */
  lemma RemovalAt(
    decode: Decoder, code: set<int>, m0: Memory, h: InstalledHook, m1: Memory, m: Memory, x: int, slotted: bool)
    requires Installs(decode, code, m0, h, m1) && x in code && x in m && x in m1
    requires m[x] == m1[x] || (slotted && m[x] == 0)
    requires InSlot(x, h) ==> slotted
    ensures x in m0 && x in Unhooked(m, h)
    ensures Unhooked(m, h)[x] == m0[x] || (slotted && Unhooked(m, h)[x] == 0)
  {
    InstallAt(decode, code, m0, h, m1, x);
    UnhookedAt(m, h, x);
  }

  lemma {:induction false} CleanupAt(
    decode: Decoder, code: set<int>, states: seq<Memory>, hooks: seq<InstalledHook>, k: nat, m: Memory, x: int,
    slotted: bool)
    requires History(decode, code, states, hooks) && k <= |hooks|
    requires x in code && x in m && x in states[k]
    requires m[x] == states[k][x] || (slotted && m[x] == 0)
    requires forall i :: 0 <= i < k && InSlot(x, hooks[i]) ==> slotted
    ensures
      var r := UnhookedBackwards(m, hooks, k);
      x in r && x in states[0] && (r[x] == states[0][x] || (slotted && r[x] == 0))
    decreases k
  {
    if k > 0 {
      RemovalAt(decode, code, states[k - 1], hooks[k - 1], states[k], m, x, slotted);
      CleanupAt(decode, code, states, hooks, k - 1, Unhooked(m, hooks[k - 1]), x, slotted);
    }
  }

  predicate InSomeSlot(x: int, hooks: seq<InstalledHook>) { exists h :: h in hooks && InSlot(x, h) }

  /** `m'` gives `m` back on `code`; a byte of a trampoline slot may have become zero instead. */
  predicate Restored(code: set<int>, hooks: seq<InstalledHook>, m: Memory, m': Memory) {
    forall x :: x in code ==> x in m && x in m' && (m'[x] == m[x] || (m'[x] == 0 && InSomeSlot(x, hooks)))
  }

  /** Cleanup restores every code byte, however the patches overlap. */
  lemma CleanupRestores(
    decode: Decoder, code: set<int>, states: seq<Memory>, hooks: seq<InstalledHook>, m: Memory)
    requires History(decode, code, states, hooks) && SameOn(code, states[|hooks|], m)
    ensures Restored(code, hooks, states[0], UnhookedBackwards(m, hooks, |hooks|))
    ensures (forall x :: x in code ==> !InSomeSlot(x, hooks)) ==>
      SameOn(code, states[0], UnhookedBackwards(m, hooks, |hooks|))
  {
    forall x | x in code
      ensures
        var r := UnhookedBackwards(m, hooks, |hooks|);
        && x in states[0] && x in r
        && (r[x] == states[0][x] || (r[x] == 0 && InSomeSlot(x, hooks)))
    {
      CleanupAt(decode, code, states, hooks, |hooks|, m, x, InSomeSlot(x, hooks));
    }
  }

  // ---------------------------------------------------------------- other orders

  function UnhookedInOrder(m: Memory, order: seq<InstalledHook>): Memory {
    if order == [] then m else UnhookedInOrder(Unhooked(m, order[0]), order[1..])
  }

  predicate Covers(h: InstalledHook, x: int) { InPatch(x, h) || InSlot(x, h) }

  /** Patches lie apart from each other and from every slot. */
  predicate AllApart(hooks: seq<InstalledHook>) {
    && (forall i, j :: 0 <= i < j < |hooks| ==> PatchesApart(hooks[i], hooks[j]))
    && (forall i, j :: 0 <= i < |hooks| && 0 <= j < |hooks| ==> PatchAndSlotApart(hooks[i], hooks[j]))
  }

  predicate PatchesApart(g: InstalledHook, h: InstalledHook) {
    Apart(g.original, |g.originalBytes|, h.original, |h.originalBytes|)
  }

  predicate PatchAndSlotApart(g: InstalledHook, h: InstalledHook) {
    Apart(g.original, |g.originalBytes|, h.slot, 8)
  }

  lemma {:induction false} OrderAt(m: Memory, order: seq<InstalledHook>, x: int, v: byte, slotted: bool)
    requires x in m
    requires forall h :: h in order ==>
      && !InRange(x, h.trampoline, TRAMPOLINE_SIZE)
      && (InSlot(x, h) ==> slotted)
      && (InPatch(x, h) ==> h.originalBytes[x - h.original] == v)
    requires m[x] == v || (slotted && m[x] == 0) || exists h :: h in order && Covers(h, x)
    ensures
      var r := UnhookedInOrder(m, order);
      x in r && (r[x] == v || (slotted && r[x] == 0))
    decreases |order|
  {
    if order != [] {
      UnhookedAt(m, order[0], x);
      OrderAt(Unhooked(m, order[0]), order[1..], x, v, slotted);
    }
  }

  /** Before any hook covers `x`, nothing has changed there. */
  lemma {:induction false} UntouchedAt(
    decode: Decoder, code: set<int>, states: seq<Memory>, hooks: seq<InstalledHook>, x: int, k: nat)
    requires History(decode, code, states, hooks) && x in code && x in states[0] && k <= |hooks|
    requires forall i :: 0 <= i < k ==> !Covers(hooks[i], x)
    ensures x in states[k] && states[k][x] == states[0][x]
    decreases k
  {
    if k > 0 {
      UntouchedAt(decode, code, states, hooks, x, k - 1);
      InstallAt(decode, code, states[k - 1], hooks[k - 1], states[k], x);
    }
  }

  /** When patches lie apart, the bytes each hook saved are those of the unhooked program. */
  lemma SavedAt(
    decode: Decoder, code: set<int>, states: seq<Memory>, hooks: seq<InstalledHook>, x: int, k: nat)
    requires History(decode, code, states, hooks) && AllApart(hooks)
    requires x in code && x in states[0] && k < |hooks| && InPatch(x, hooks[k])
    ensures hooks[k].originalBytes[x - hooks[k].original] == states[0][x]
  {
    forall i | 0 <= i < k ensures !Covers(hooks[i], x) {
      assert PatchesApart(hooks[i], hooks[k]) && PatchAndSlotApart(hooks[k], hooks[i]);
    }
    UntouchedAt(decode, code, states, hooks, x, k);
    InstallAt(decode, code, states[k], hooks[k], states[k + 1], x);
  }

  lemma AnyOrderAt(
    decode: Decoder, code: set<int>, states: seq<Memory>, hooks: seq<InstalledHook>, m: Memory,
    order: seq<InstalledHook>, x: int)
    requires History(decode, code, states, hooks) && AllApart(hooks) && SameOn(code, states[|hooks|], m)
    requires forall h :: h in order <==> h in hooks
    requires x in code && x in states[0]
    ensures
      var r := UnhookedInOrder(m, order);
      x in r && (r[x] == states[0][x] || (r[x] == 0 && InSomeSlot(x, hooks)))
  {
    forall h | h in order
      ensures !InRange(x, h.trampoline, TRAMPOLINE_SIZE)
      ensures InPatch(x, h) ==> h.originalBytes[x - h.original] == states[0][x]
    {
      var k :| 0 <= k < |hooks| && hooks[k] == h;
      InstallAt(decode, code, states[k], hooks[k], states[k + 1], x);
      if InPatch(x, h) {
        SavedAt(decode, code, states, hooks, x, k);
      }
    }
    if !exists h :: h in order && Covers(h, x) {
      forall i | 0 <= i < |hooks| ensures !Covers(hooks[i], x) {
        assert hooks[i] in order;
      }
      UntouchedAt(decode, code, states, hooks, x, |hooks|);
    }
    OrderAt(m, order, x, states[0][x], InSomeSlot(x, hooks));
  }

  /** Without overlaps, removing the hooks in any order, even repeatedly, restores the code. */
  lemma AnyOrderRestores(
    decode: Decoder, code: set<int>, states: seq<Memory>, hooks: seq<InstalledHook>, m: Memory,
    order: seq<InstalledHook>)
    requires History(decode, code, states, hooks) && AllApart(hooks) && SameOn(code, states[|hooks|], m)
    requires forall h :: h in order <==> h in hooks
    requires forall x :: x in code ==> x in states[0]
    ensures Restored(code, hooks, states[0], UnhookedInOrder(m, order))
  {
    forall x | x in code
      ensures
        var r := UnhookedInOrder(m, order);
        && x in states[0] && x in r
        && (r[x] == states[0][x] || (r[x] == 0 && InSomeSlot(x, hooks)))
    {
      AnyOrderAt(decode, code, states, hooks, m, order, x);
    }
  }

  /** The last removal of the order that writes to `x` is removal `k`. */
  predicate LastOver(order: seq<InstalledHook>, k: nat, x: int) {
    && k < |order| && Covers(order[k], x)
    && forall j :: k < j < |order| ==> !Covers(order[j], x)
  }

  /** No trampoline of the order holds `x`. */
  predicate OutsideTrampolines(order: seq<InstalledHook>, x: int) {
    forall j :: 0 <= j < |order| ==> !InRange(x, order[j].trampoline, TRAMPOLINE_SIZE)
  }

  lemma {:induction false} UncoveredInOrder(m: Memory, order: seq<InstalledHook>, x: int)
    requires x in m && OutsideTrampolines(order, x)
    requires forall j :: 0 <= j < |order| ==> !Covers(order[j], x)
    ensures x in UnhookedInOrder(m, order) && UnhookedInOrder(m, order)[x] == m[x]
    decreases |order|
  {
    if order != [] {
      UnhookedAt(m, order[0], x);
      UncoveredInOrder(Unhooked(m, order[0]), order[1..], x);
    }
  }

  /** Whatever came before, the last removal over a byte decides it. */
  lemma {:induction false} LastRemovalDecides(m: Memory, order: seq<InstalledHook>, k: nat, x: int)
    requires x in m && OutsideTrampolines(order, x) && LastOver(order, k, x)
    ensures x in UnhookedInOrder(m, order)
    ensures UnhookedInOrder(m, order)[x] ==
      if InSlot(x, order[k]) then 0 else order[k].originalBytes[x - order[k].original]
    decreases |order|
  {
    UnhookedAt(m, order[0], x);
    if k == 0 {
      UncoveredInOrder(Unhooked(m, order[0]), order[1..], x);
    } else {
      LastRemovalDecides(Unhooked(m, order[0]), order[1..], k - 1, x);
    }
  }

  lemma {:induction false} CodeStaysMapped(
    decode: Decoder, code: set<int>, states: seq<Memory>, hooks: seq<InstalledHook>, x: int, k: nat)
    requires History(decode, code, states, hooks) && x in code && k < |hooks|
    ensures x in states[0] && x in states[k]
    decreases k
  {
    InstallAt(decode, code, states[k], hooks[k], states[k + 1], x);
    if k > 0 {
      CodeStaysMapped(decode, code, states, hooks, x, k - 1);
    }
  }

  lemma OrderIsOutside(
    decode: Decoder, code: set<int>, states: seq<Memory>, hooks: seq<InstalledHook>, order: seq<InstalledHook>,
    x: int)
    requires History(decode, code, states, hooks) && x in code
    requires forall h :: h in order ==> h in hooks
    ensures OutsideTrampolines(order, x)
  {
    forall j | 0 <= j < |order| ensures !InRange(x, order[j].trampoline, TRAMPOLINE_SIZE) {
      assert order[j] in hooks;
      var i :| 0 <= i < |hooks| && hooks[i] == order[j];
      InstallAt(decode, code, states[i], hooks[i], states[i + 1], x);
    }
  }

  /**
   The order of removal, whatever it is: hooks may overlap, and some may be left on or taken off twice. A
   code byte comes back exactly if the last hook of the order over it went on while that byte was as at first.
   */
  lemma OrderRestoresIff(
    decode: Decoder, code: set<int>, states: seq<Memory>, hooks: seq<InstalledHook>, m: Memory,
    order: seq<InstalledHook>, k: nat, i: nat, x: int)
    requires History(decode, code, states, hooks) && x in code && x in m
    requires forall h :: h in order ==> h in hooks
    requires LastOver(order, k, x) && i < |hooks| && order[k] == hooks[i] && !InSlot(x, hooks[i])
    ensures x in UnhookedInOrder(m, order) && x in states[0] && x in states[i]
    ensures UnhookedInOrder(m, order)[x] == states[0][x] <==> states[i][x] == states[0][x]
  {
    CodeStaysMapped(decode, code, states, hooks, x, i);
    OrderIsOutside(decode, code, states, hooks, order, x);
    LastRemovalDecides(m, order, k, x);
    InstallAt(decode, code, states[i], hooks[i], states[i + 1], x);
  }

  /**
   With overlaps the order matters. Where two patches overlap outside the slots, removing the older hook
   first restores a byte exactly when the first patch happened not to change it.
   */
  lemma OldestFirstFails(
    decode: Decoder, code: set<int>, states: seq<Memory>, g: InstalledHook, h: InstalledHook, m: Memory, x: int)
    requires History(decode, code, states, [g, h]) && SameOn(code, states[2], m)
    requires x in code && InPatch(x, g) && InPatch(x, h) && !InSlot(x, g) && !InSlot(x, h)
    ensures
      var r := UnhookedInOrder(m, [g, h]);
      && x in r && x in states[0] && x in states[1]
      && (r[x] == states[0][x] <==> states[1][x] == states[0][x])
  {
    assert LastOver([g, h], 1, x);
    OrderRestoresIff(decode, code, states, [g, h], m, [g, h], 1, 1, x);
  }

  // ---------------------------------------------------------------- a hook that fails late

  /**
   A hook that fails after the patch was written gives the old code back exactly when the patch had not
   changed it.
   */
  lemma LateFailureKeepsPatch(m: Memory, m': Memory, original: nat, handler: nat, slot: nat, n: nat)
    requires handler < WORD64 && n >= PATCH_SIZE && Mapped(m, original, n) && Apart(original, n, slot, 8)
    requires PatchedAt(m, m', original, handler, slot, n)
    ensures KeepsOutside(m, m', slot) <==> Read(m, original, n) == Patch(handler, n)
  {
    var patch := Patch(handler, n);
    if KeepsOutside(m, m', slot) {
      forall i | 0 <= i < n ensures Read(m, original, n)[i] == patch[i] {
        CodeByte(m, original, Read(m, original, n), i);
        CodeByte(m', original, patch, i);
      }
    }
    if Read(m, original, n) == patch {
      forall x | x in m ensures x in m' && (m'[x] == m[x] || InRange(x, slot, 8)) {
        if InRange(x, original, n) {
          CodeByte(m, original, patch, x - original);
          CodeByte(m', original, patch, x - original);
        }
      }
    }
  }

  function OneByteDecoder(s: seq<byte>): Decoded { if s == [] then Undecodable else Instruction(1, false, false) }

  lemma OneByteBoundary(s: seq<byte>, k: nat)
    requires k <= |s|
    ensures SafeBoundary(OneByteDecoder, s, k)
  {
    if k > 0 {
      OneByteBoundary(s, k - 1);
      assert SafeInstruction(OneByteDecoder, s, k - 1, k);
    }
  }

  function Nops(): (m: Memory)
    ensures forall x :: x in m <==> 4096 <= x < 4160
    ensures forall x :: x in m ==> m[x] == NOP
  {
    map x: int | 4096 <= x < 4160 && InRange(x, 4096, 64) :: NOP
  }

  lemma NopsCanBeHooked(m: Memory)
    requires forall x :: x in m <==> 4096 <= x < 4160
    ensures Possible(OneByteDecoder, m, 4096, 65536, 4136)
  {
    var window := Read(m, 4096, DECODE_WINDOW);
    OneByteBoundary(window, PATCH_SIZE);
    assert IsPatchSize(OneByteDecoder, window, PATCH_SIZE);
  }

  lemma OneByteIsLocal()
    ensures LocalDecoder(OneByteDecoder)
  {
    forall s, t: seq<byte> ensures DecodesAlike(OneByteDecoder, s, t) {
      if s != [] && t == [] {
        assert |s[..1]| == 1;
      }
    }
  }

  lemma PatchStartsWithPush(m: Memory, m': Memory, original: nat, handler: nat, slot: nat)
    requires handler < WORD64 && LeftPatched(m, m', original, handler, slot)
    requires Apart(original, DECODE_WINDOW, slot, 8)
    ensures original in m' && m'[original] == 0x68
  {
    var n: nat :| PATCH_SIZE <= n <= DECODE_WINDOW && PatchedAt(m, m', original, handler, slot, n);
    CodeByte(m', original, Patch(handler, n), 0);
  }

  /** Whenever only the flush is refused, hooking reports failure and yet the function stays patched. */
  method HookWithoutFlush(process: Process, original: nat, handler: nat, slot: nat) returns (hooked: bool)
    requires process.Valid() && 0 < handler < WORD64 && original != 0 && slot != 0
    requires process.Grants10(process.calls) && process.refuses(process.calls + 11)
    requires Possible(process.decode, process.memory, original, process.place(process.calls + 1), slot)
    requires Apart(original, DECODE_WINDOW, slot, 8)
    modifies process
    ensures !hooked && original in process.memory && process.memory[original] == 0x68
  {
    ghost var before := process.memory;
    var hook, written := process.HookFunction(original, "NtClose", Some(handler), Some(slot));
    PatchStartsWithPush(before, process.memory, original, handler, slot);
    hooked := hook.Some?;
  }

  /** Such a run from concrete memory, where the first byte was a nop. */
  method RefusedFlushLeavesPatch() returns (before: Memory, after: Memory, hooked: bool)
    ensures !hooked && 4096 in before && before[4096] == NOP && 4096 in after && after[4096] == 0x68
  {
    before := Nops();
    OneByteIsLocal();
    NopsCanBeHooked(before);
    var process := new Process(before, OneByteDecoder, i => i == 11, i => 65536);
    hooked := HookWithoutFlush(process, 4096, 0x7000, 4136);
    after := process.memory;
  }
}
