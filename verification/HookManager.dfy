/** Installing and removing one inline hook: measure the prologue, copy it to a trampoline, patch, restore. */
module HookManager {
  import opened Bytes
  import opened TargetMemory
  import opened Trampoline
  import opened Wrappers
  import EventBuilder

  const TRAMPOLINE_SIZE := 1024
  const DECODE_WINDOW := 32
  const NOP: byte := 0x90
  const NULL_POINTER: seq<byte> := [0, 0, 0, 0, 0, 0, 0, 0]

  predicate NonNull(address: Option<nat>) { address.Some? && address.value != 0 }

  datatype InstalledHook = InstalledHook(
    name: string, source: nat, target: nat, original: nat, trampoline: nat, slot: nat, originalBytes: seq<byte>)

  datatype RemoteTrampoline = RemoteTrampoline(address: nat, patchSize: nat)

  // ---------------------------------------------------------------- the size of a patch

  /** `n` is the least whole-instruction prefix of `buffer` that holds the jump, or 0 when there is none. */
  ghost predicate IsPatchSize(decode: Decoder, buffer: seq<byte>, n: nat) {
    if n == 0 then forall k: nat :: PATCH_SIZE <= k ==> !SafeBoundary(decode, buffer, k)
    else
      && PATCH_SIZE <= n < PATCH_SIZE + MAX_INSTRUCTION
      && SafeBoundary(decode, buffer, n)
      && forall k: nat :: PATCH_SIZE <= k && SafeBoundary(decode, buffer, k) ==> n <= k
  }

  lemma PastTheBoundary(decode: Decoder, buffer: seq<byte>, n: nat)
    requires SafeBoundary(decode, buffer, n)
    ensures forall k: nat :: n < k && SafeBoundary(decode, buffer, k) ==>
      n < |buffer| && decode(buffer[n..]).Safe() && n + decode(buffer[n..]).length <= k
  {
    forall k: nat | n < k && SafeBoundary(decode, buffer, k)
      ensures n < |buffer| && decode(buffer[n..]).Safe() && n + decode(buffer[n..]).length <= k
    {
      BoundaryChain(decode, buffer, n, k);
    }
  }

  method SafePrefixSize(decode: Decoder, buffer: seq<byte>) returns (n: nat)
    requires LocalDecoder(decode)
    ensures IsPatchSize(decode, buffer, n) && (n == 0 || 14 <= n <= 28)
  {
    n := 0;
    while n < PATCH_SIZE && n < |buffer|
      invariant n < PATCH_SIZE + MAX_INSTRUCTION && n <= |buffer|
      invariant SafeBoundary(decode, buffer, n)
      invariant forall k: nat :: PATCH_SIZE <= k && SafeBoundary(decode, buffer, k) ==> n <= k
    {
      var instruction := decode(buffer[n..]);
      PastTheBoundary(decode, buffer, n);
      if instruction.Undecodable? || instruction.length == 0 {
        return 0;
      }
      if instruction.ripRelative {
        return 0;
      }
      if instruction.relative {
        return 0;
      }
      assert SafeInstruction(decode, buffer, n, n + instruction.length);
      n := n + instruction.length;
    }
    if n < PATCH_SIZE {
      PastTheBoundary(decode, buffer, n);
      return 0;
    }
  }

  // ---------------------------------------------------------------- what hooking does to memory

  const JUMP_TEMPLATE: seq<byte> := [0x68, 0, 0, 0, 0, 0xC7, 0x44, 0x24, 0x04, 0, 0, 0, 0, 0xC3]

  lemma TemplateFilledIn(target: nat)
    requires target < WORD64
    ensures
      Overwrite(
        Overwrite(JUMP_TEMPLATE, 1, LittleEndian(target % WORD32, 4)), 9, LittleEndian(target / WORD32, 4))
      == Stub(target)
  {
    LowAndHigh(target);
    FillIn(Low(target), High(target));
  }

  lemma FillIn(low: Word32, high: Word32)
    ensures Overwrite(Overwrite(JUMP_TEMPLATE, 1, low), 9, high) == PushImm(low) + MovRspPlus4(high) + RET
  {
  }

  function LittleEndianPointer(address: nat): (s: seq<byte>)
    ensures |s| == 8
  {
    LittleEndian(address, 8)
  }

  /** What the processor reads back is the address. */
  lemma PointerReadsBack(address: nat)
    requires address < WORD64
    ensures FromLittleEndian(LittleEndianPointer(address)) == address
  {
    RadixValues();
    LittleEndianRoundTrip(address, 8);
  }

  lemma WrittenPointer(m: Memory, at: int, address: nat)
    requires address < WORD64 && Mapped(m, at, 8)
    ensures
      var r := Write(m, at, LittleEndianPointer(address));
      Mapped(r, at, 8) && FromLittleEndian(Read(r, at, 8)) == address
  {
    PointerReadsBack(address);
    var r := Write(m, at, LittleEndianPointer(address));
    assert Read(r, at, 8) == LittleEndianPointer(address);
  }

  lemma ReadElsewhere(m: Memory, start: int, bytes: seq<byte>, at: int, n: nat)
    requires Mapped(m, at, n) && Apart(at, n, start, |bytes|)
    ensures Mapped(Write(m, start, bytes), at, n) && Read(Write(m, start, bytes), at, n) == Read(m, at, n)
  {
    var r := Write(m, start, bytes);
    forall i | 0 <= i < n ensures Read(r, at, n)[i] == Read(m, at, n)[i] {
      assert at + i in m && !InRange(at + i, start, |bytes|);
    }
  }

  /** The bytes written over the function: the jump, padded with nops to whole instructions. */
  function Patch(handler: nat, n: nat): (s: seq<byte>)
    requires handler < WORD64 && n >= PATCH_SIZE
    ensures |s| == n
  {
    Stub(handler) + seq(n - PATCH_SIZE, i => NOP)
  }

  function WithTrampoline(m: Memory, original: nat, address: nat, n: nat): Memory
    requires original + n < WORD64 && Mapped(m, original, n)
  {
    Write(Reserve(m, address, TRAMPOLINE_SIZE), address, Read(m, original, n) + Stub(original + n))
  }

  /** Memory after a successful installation. */
  function Hooked(m: Memory, h: InstalledHook, handler: nat): Memory
    requires handler < WORD64 && |h.originalBytes| >= PATCH_SIZE && h.original + |h.originalBytes| < WORD64
    requires Mapped(m, h.original, |h.originalBytes|)
  {
    var n := |h.originalBytes|;
    var m1 := WithTrampoline(m, h.original, h.trampoline, n);
    var m2 := Write(m1, h.slot, LittleEndianPointer(h.trampoline));
    Write(m2, h.original, Patch(handler, n))
  }

  function Unhooked(m: Memory, h: InstalledHook): Memory {
    Release(Write(Write(m, h.original, h.originalBytes), h.slot, NULL_POINTER), h.trampoline, TRAMPOLINE_SIZE)
  }

  /** A hook whose function is gone: only the slot and the trampoline are given back. */
  function Detached(m: Memory, h: InstalledHook): Memory {
    Release(Write(m, h.slot, NULL_POINTER), h.trampoline, TRAMPOLINE_SIZE)
  }

  /** The first `k` hooks removed, newest first. */
  function UnhookedBackwards(m: Memory, hooks: seq<InstalledHook>, k: nat): Memory
    requires k <= |hooks|
  {
    if k == 0 then m else UnhookedBackwards(Unhooked(m, hooks[k - 1]), hooks, k - 1)
  }

  /** Byte by byte: the trampoline is gone, the slot is null, the saved bytes are back, the rest is as it was. */
  lemma RemovalIs(m: Memory, h: InstalledHook, x: int)
    ensures x in Unhooked(m, h) <==> x in m && !InRange(x, h.trampoline, 1024)
    ensures x in Detached(m, h) <==> x in m && !InRange(x, h.trampoline, 1024)
    ensures x in Unhooked(m, h) ==>
      Unhooked(m, h)[x] ==
        if InRange(x, h.slot, 8) then 0
        else if InRange(x, h.original, |h.originalBytes|) then h.originalBytes[x - h.original]
        else m[x]
    ensures x in Detached(m, h) ==> Detached(m, h)[x] == if InRange(x, h.slot, 8) then 0 else m[x]
  {
  }

  /** Removal gives every trampoline back. */
  lemma {:induction false} NoTrampolineLeft(m: Memory, hooks: seq<InstalledHook>, k: nat)
    requires k <= |hooks|
    ensures forall x :: x in UnhookedBackwards(m, hooks, k) ==> x in m
    ensures forall x, i :: 0 <= i < k && x in UnhookedBackwards(m, hooks, k) ==>
      !InRange(x, hooks[i].trampoline, 1024)
    decreases k
  {
    if k > 0 {
      NoTrampolineLeft(Unhooked(m, hooks[k - 1]), hooks, k - 1);
    }
  }

  /** What UnhookFunction asks of a record before it touches anything. */
  predicate Removable(h: InstalledHook) {
    h.original != 0 && h.trampoline != 0 && h.slot != 0 && h.originalBytes != []
  }

  predicate CanUnhook(m: Memory, h: InstalledHook) {
    Removable(h) && Mapped(m, h.original, |h.originalBytes|) && Mapped(m, h.slot, 8)
  }

  /** Each of the first `k` hooks can be removed when its turn comes, newest first. */
  predicate AllCanUnhook(m: Memory, hooks: seq<InstalledHook>, k: nat)
    requires k <= |hooks|
  {
    k == 0 || (CanUnhook(m, hooks[k - 1]) && AllCanUnhook(Unhooked(m, hooks[k - 1]), hooks, k - 1))
  }

  /** `m'` still holds everything `m` held, except possibly in the eight bytes of `slot`. */
  predicate KeepsOutside(m: Memory, m': Memory, slot: int) {
    forall x :: x in m ==> x in m' && (m'[x] == m[x] || InRange(x, slot, 8))
  }

  predicate Keeps(m: Memory, m': Memory) { forall x :: x in m ==> x in m' && m'[x] == m[x] }

  lemma ReserveKeeps(m: Memory, start: int, n: nat)
    requires Unmapped(m, start, n)
    ensures Keeps(m, Reserve(m, start, n))
    ensures Mapped(Reserve(m, start, n), start, n)
    ensures Release(Reserve(m, start, n), start, n) == m
  {
  }

  /** Whatever was written into a fresh region, releasing it gives the old memory back. */
  lemma ReleaseForgets(m: Memory, start: int, n: nat, bytes: seq<byte>)
    requires Unmapped(m, start, n) && |bytes| <= n
    ensures Release(Write(Reserve(m, start, n), start, bytes), start, n) == m
    ensures Keeps(m, Write(Reserve(m, start, n), start, bytes))
  {
  }

  /** The bytes to displace read the same once the trampoline's memory is reserved. */
  lemma TrampolineIsWritten(base: Memory, m: Memory, original: nat, address: nat, n: nat, code: seq<byte>)
    requires Mapped(base, original, n) && Unmapped(base, address, TRAMPOLINE_SIZE)
    requires m == Reserve(base, address, TRAMPOLINE_SIZE) && Mapped(m, original, n)
    requires original + n < WORD64 && n + PATCH_SIZE <= TRAMPOLINE_SIZE
    requires code == Read(m, original, n) + Stub(original + n)
    ensures Mapped(m, address, |code|) && Write(m, address, code) == WithTrampoline(base, original, address, n)
  {
    assert Read(m, original, n) == Read(base, original, n);
  }

  lemma TrampolineIsForgotten(m: Memory, original: nat, address: nat, n: nat)
    requires Mapped(m, original, n) && Unmapped(m, address, TRAMPOLINE_SIZE)
    requires original + n < WORD64 && n + PATCH_SIZE <= TRAMPOLINE_SIZE
    ensures Keeps(m, Reserve(m, address, TRAMPOLINE_SIZE)) && Keeps(m, WithTrampoline(m, original, address, n))
    ensures Release(Reserve(m, address, TRAMPOLINE_SIZE), address, TRAMPOLINE_SIZE) == m
    ensures Release(WithTrampoline(m, original, address, n), address, TRAMPOLINE_SIZE) == m
  {
    ReserveKeeps(m, address, TRAMPOLINE_SIZE);
    ReleaseForgets(m, address, TRAMPOLINE_SIZE, Read(m, original, n) + Stub(original + n));
  }

  /** A fresh region the allocator can hand out. */
  predicate Fits(m: Memory, address: nat) {
    address != 0 && address + TRAMPOLINE_SIZE <= USER_SPACE && Unmapped(m, address, TRAMPOLINE_SIZE)
  }

  /** The function starts with enough whole instructions that can be moved. */
  ghost predicate Patchable(decode: Decoder, m: Memory, original: nat) {
    && Mapped(m, original, DECODE_WINDOW)
    && exists n: nat :: n > 0 && IsPatchSize(decode, Read(m, original, DECODE_WINDOW), n)
  }

  lemma NotPatchable(decode: Decoder, m: Memory, original: nat)
    requires Mapped(m, original, DECODE_WINDOW) ==> IsPatchSize(decode, Read(m, original, DECODE_WINDOW), 0)
    ensures !Patchable(decode, m, original)
  {
  }

  ghost predicate Possible(decode: Decoder, m: Memory, original: nat, address: nat, slot: nat) {
    && Patchable(decode, m, original) && Fits(m, address)
    && Mapped(Reserve(m, address, TRAMPOLINE_SIZE), slot, 8)
  }

  // ---------------------------------------------------------------- the debugger's calls

  /**
   The target process and the operating system between it and the debugger. Each system call is numbered;
   `refuses` says which of them fail and `place` where an allocation would go. Nothing is known about either.
   A refused write leaves memory as it was.
   */
  class Process {
    var memory: Memory
    var calls: nat
    const decode: Decoder
    const refuses: nat -> bool
    const place: nat -> nat

    constructor (memory: Memory, decode: Decoder, refuses: nat -> bool, place: nat -> nat)
      requires LocalDecoder(decode) && forall x :: x in memory ==> 0 <= x < USER_SPACE
      ensures Valid() && this.memory == memory && calls == 0
      ensures this.decode == decode && this.refuses == refuses && this.place == place
    {
      this.memory, this.calls, this.decode, this.refuses, this.place := memory, 0, decode, refuses, place;
    }

    ghost predicate Valid()
      reads this
    {
      LocalDecoder(decode) && forall x :: x in memory ==> 0 <= x < USER_SPACE
    }

    /** The two system calls from number `first` on succeed, and so on for more. */
    ghost predicate Grants2(first: nat) { !refuses(first) && !refuses(first + 1) }
    ghost predicate Grants4(first: nat) { Grants2(first) && Grants2(first + 2) }
    ghost predicate Grants6(first: nat) { Grants2(first) && Grants4(first + 2) }
    ghost predicate Grants10(first: nat) { Grants6(first) && Grants4(first + 6) }

    ghost predicate GrantsAll() { forall call: nat :: !refuses(call) }

    /** Changing a protection and flushing the instruction cache do not change memory. */
    method Ask() returns (ok: bool)
      modifies this`calls
      ensures ok == !refuses(old(calls)) && calls == old(calls) + 1
    {
      ok := !refuses(calls);
      calls := calls + 1;
    }

    method ReadProcessMemory(address: nat, n: nat) returns (r: Option<seq<byte>>)
      modifies this`calls
      ensures calls == old(calls) + 1
      ensures r.Some? <==> !refuses(old(calls)) && Mapped(memory, address, n)
      ensures r.Some? ==> r.value == Read(memory, address, n)
    {
      var ok := Ask();
      r := if ok && Mapped(memory, address, n) then Some(Read(memory, address, n)) else None;
    }

    method WriteProcessMemory(address: nat, bytes: seq<byte>) returns (ok: bool)
      modifies this
      ensures calls == old(calls) + 1
      ensures ok <==> !refuses(old(calls)) && Mapped(old(memory), address, |bytes|)
      ensures memory == if ok then Write(old(memory), address, bytes) else old(memory)
    {
      ok := Ask();
      ok := ok && Mapped(memory, address, |bytes|);
      if ok {
        memory := Write(memory, address, bytes);
      }
    }

    method VirtualAllocEx() returns (address: nat)
      requires Valid()
      modifies this
      ensures Valid() && calls == old(calls) + 1
      ensures address == if !refuses(old(calls)) && Fits(old(memory), place(old(calls))) then place(old(calls)) else 0
      ensures memory == if address == 0 then old(memory) else Reserve(old(memory), address, TRAMPOLINE_SIZE)
    {
      address := place(calls);
      var ok := Ask();
      if !ok || !Fits(memory, address) {
        return 0;
      }
      memory := Reserve(memory, address, TRAMPOLINE_SIZE);
    }

    method VirtualFreeEx(address: nat, size: nat := TRAMPOLINE_SIZE) returns (ok: bool)
      modifies this
      ensures calls == old(calls) + 1 && ok == !refuses(old(calls))
      ensures memory == if ok then Release(old(memory), address, size) else old(memory)
    {
      ok := Ask();
      if ok {
        memory := Release(memory, address, size);
      }
    }

    // -------------------------------------------------------------- installing

    method CalculatePatchSize(address: nat) returns (n: nat)
      requires Valid()
      modifies this`calls
      ensures calls == old(calls) + 1
      ensures
        if !refuses(old(calls)) && Mapped(memory, address, 32)
        then IsPatchSize(decode, Read(memory, address, 32), n)
        else n == 0
      ensures n <= 32
    {
      var buffer := ReadProcessMemory(address, DECODE_WINDOW);
      if buffer.None? {
        return 0;
      }
      n := SafePrefixSize(decode, buffer.value);
    }

    /** push low; mov dword ptr [rsp+4], high; ret, with the two halves of the target stored in place. */
    static method AbsoluteJump(target: nat) returns (code: array<byte>)
      requires target < WORD64
      ensures fresh(code) && code[..] == Stub(target)
    {
      code := new byte[14](i requires 0 <= i < 14 => JUMP_TEMPLATE[i]);
      assert code[..] == JUMP_TEMPLATE;
      EventBuilder.CustomMemCpy(code, 1, LittleEndian(target % WORD32, 4));
      EventBuilder.CustomMemCpy(code, 9, LittleEndian(target / WORD32, 4));
      TemplateFilledIn(target);
    }

    static method TrampolineCode(bytes: seq<byte>, back: nat) returns (code: seq<byte>)
      requires back < WORD64
      ensures code == bytes + Stub(back)
    {
      var trampolineCode := new byte[|bytes| + PATCH_SIZE](_ => 0);
      EventBuilder.CustomMemCpy(trampolineCode, 0, bytes);
      var jump := AbsoluteJump(back);
      EventBuilder.CustomMemCpy(trampolineCode, |bytes|, jump[..]);
      code := trampolineCode[..];
    }

    static method PatchCode(target: nat, n: nat) returns (code: seq<byte>)
      requires target < WORD64 && n >= PATCH_SIZE
      ensures code == Patch(target, n)
    {
      var patch := new byte[n](_ => NOP);
      var jump := AbsoluteJump(target);
      EventBuilder.CustomMemCpy(patch, 0, jump[..]);
      code := patch[..];
    }

    /** On failure the trampoline region may or may not have been written. */
    method CreateTrampoline(original: nat, trampoline: nat, n: nat, ghost base: Memory) returns (ok: bool)
      requires Valid() && n > 0 && n + PATCH_SIZE <= TRAMPOLINE_SIZE
      requires Mapped(base, original, n) && Mapped(memory, original, n)
      requires Unmapped(base, trampoline, TRAMPOLINE_SIZE)
      requires memory == Reserve(base, trampoline, TRAMPOLINE_SIZE) && original + n < WORD64
      modifies this
      ensures Valid()
      ensures ok <==> Grants4(old(calls))
      ensures ok ==> calls == old(calls) + 4
      ensures ok ==> memory == WithTrampoline(base, original, trampoline, n)
      ensures memory == old(memory) || memory == WithTrampoline(base, original, trampoline, n)
    {
      var originalBytes := ReadProcessMemory(original, n);
      if originalBytes.None? {
        return false;
      }
      var code := TrampolineCode(originalBytes.value, original + n);
      TrampolineIsWritten(base, memory, original, trampoline, n, code);
      ok := WriteProcessMemory(trampoline, code);
      if !ok {
        return;
      }
      ok := Ask();
      if !ok {
        return;
      }
      ok := Ask();
    }

    lemma InUserSpace(start: nat, n: nat)
      requires Valid() && n > 0 && Mapped(memory, start, n)
      ensures start + n <= USER_SPACE
    {
      assert start + n - 1 in memory;
    }

    method CreateBypassTrampoline(original: nat) returns (r: Option<RemoteTrampoline>)
      requires Valid()
      modifies this
      ensures Valid()
      ensures r.None? ==> Keeps(old(memory), memory)
      ensures r.Some? <==>
        && Grants6(old(calls))
        && Patchable(decode, old(memory), original) && Fits(old(memory), place(old(calls) + 1))
      ensures r.Some? ==> calls == old(calls) + 6 && r.value.address == place(old(calls) + 1)
      ensures r.Some? ==> Installed(decode, old(memory), original, r.value)
      ensures r.Some? ==>
        memory == WithTrampoline(old(memory), original, r.value.address, r.value.patchSize)
    {
      ghost var base := memory;
      var n := CalculatePatchSize(original);
      if n == 0 {
        if !refuses(old(calls)) {
          NotPatchable(decode, base, original);
        }
        return None;
      }
      PrefixIsMapped(base, original, n);
      InUserSpace(original, n);
      assert Patchable(decode, base, original);
      var address := VirtualAllocEx();
      if address == 0 {
        return None;
      }
      var ok := CreateTrampoline(original, address, n, base);
      if !ok {
        TrampolineIsForgotten(base, original, address, n);
        var freed := VirtualFreeEx(address);
        return None;
      }
      return Some(RemoteTrampoline(address, n));
    }

    /** The answers of the operating system decide: `written` is whether the patch got into memory. */
    method PatchFunction(original: nat, handler: nat, n: nat) returns (ok: bool, ghost written: bool)
      requires Valid() && handler < WORD64 && n >= PATCH_SIZE && Mapped(memory, original, n)
      modifies this
      ensures Valid()
      ensures written <==> Grants2(old(calls))
      ensures ok <==> Grants4(old(calls))
      ensures ok ==> calls == old(calls) + 4
      ensures memory == if written then Write(old(memory), original, Patch(handler, n)) else old(memory)
    {
      written := false;
      var patch := PatchCode(handler, n);
      ok := Ask();
      if !ok {
        return;
      }
      ok := WriteProcessMemory(original, patch);
      if !ok {
        var reverted := Ask();
        return;
      }
      written := true;
      ok := Ask();
      if !ok {
        return;
      }
      ok := Ask();
    }

    /**
     The second half of HookFunction, once the trampoline exists: save the bytes, publish the trampoline in
     its slot, patch; on any failure clear the slot and free the trampoline. `base` is memory before the
     trampoline, `written` tells whether the patch got into memory.
     */
    method Connect(original: nat, handler: nat, slot: nat, address: nat, n: nat, ghost base: Memory)
      returns (originalBytes: Option<seq<byte>>, ghost written: bool)
      requires Valid() && handler < WORD64 && PATCH_SIZE <= n <= DECODE_WINDOW
      requires Mapped(base, original, n) && Mapped(memory, original, n)
      requires Keeps(base, memory) && Unmapped(base, address, TRAMPOLINE_SIZE)
      modifies this
      ensures Valid()
      ensures written <==> Grants4(old(calls)) && Mapped(old(memory), slot, 8)
      ensures originalBytes.Some? <==> written && Grants2(old(calls) + 4)
      ensures originalBytes.Some? ==> calls == old(calls) + 6
      ensures originalBytes.Some? ==>
        && originalBytes.value == Read(old(memory), original, n)
        && memory == Write(Write(old(memory), slot, LittleEndianPointer(address)), original, Patch(handler, n))
      ensures originalBytes.None? && !written ==> KeepsOutside(base, memory, slot)
      ensures originalBytes.None? && written ==> PatchedAt(base, memory, original, handler, slot, n)
    {
      hide Keeps, KeepsOutside, PatchedAt, Unmapped, Abandoned;
      written := false;
      ghost var m1 := memory;
      originalBytes := ReadProcessMemory(original, n);
      if originalBytes.None? {
        Free(address, slot);
        AbandonKeeps(base, m1, memory, slot, address);
        return;
      }
      var connected := WriteProcessMemory(slot, LittleEndianPointer(address));
      if !connected {
        Free(address, slot);
        AbandonKeeps(base, m1, memory, slot, address);
        return None, false;
      }
      var patched, reached := PatchFunction(original, handler, n);
      written := reached;
      if !patched {
        ghost var m3 := memory;
        Disconnect(address, slot);
        AfterRejection(base, m1, m3, memory, original, address, n, slot, handler, written);
        return None, written;
      }
    }

    /** Nothing was published yet: free the trampoline. */
    method Free(address: nat, ghost slot: nat)
      modifies this
      ensures old(Valid()) ==> Valid()
      ensures Abandoned(old(memory), memory, slot, address)
    {
      var freed := VirtualFreeEx(address);
    }

    /** Clear the slot and free the trampoline. */
    method Disconnect(address: nat, slot: nat)
      modifies this
      ensures old(Valid()) ==> Valid()
      ensures Abandoned(old(memory), memory, slot, address)
    {
      var cleared := WriteProcessMemory(slot, NULL_POINTER);
      var freed := VirtualFreeEx(address);
    }

    /**
     `handler` and `slot` are what the export lookups in the hook image give. Which system calls succeed
     decides everything: the hook is installed when the first twelve do, and a hook that fails in the last
     two of these leaves the patch in place.
     */
    method HookFunction(original: nat, name: string, handler: Option<nat>, slot: Option<nat>)
      returns (hook: Option<InstalledHook>, ghost written: bool)
      requires Valid() && (handler.Some? ==> handler.value < WORD64)
      modifies this
      ensures Valid()
      ensures written <==>
        && original != 0 && handler.Some? && handler.value != 0 && slot.Some? && slot.value != 0
        && Grants10(old(calls))
        && Possible(decode, old(memory), original, place(old(calls) + 1), slot.value)
      ensures hook.Some? <==> written && Grants2(old(calls) + 10)
      ensures hook.Some? ==> calls == old(calls) + 12 && hook.value.trampoline == place(old(calls) + 1)
      ensures hook.Some? ==>
        && Describes(hook.value, decode, old(memory), original, slot.value) && hook.value.name == name
        && memory == Hooked(old(memory), hook.value, handler.value)
      ensures hook.Some? && Apart(original, |hook.value.originalBytes|, slot.value, 8) ==>
        && Mapped(memory, slot.value, 8)
        && FromLittleEndian(Read(memory, slot.value, 8)) == hook.value.trampoline
      ensures hook.None? && !written ==> KeepsOutside(old(memory), memory, if slot.Some? then slot.value else 0)
      ensures hook.None? && written ==> LeftPatched(old(memory), memory, original, handler.value, slot.value)
      ensures slot.None? ==> memory == old(memory)
    {
      hook, written := None, false;
      ghost var base := memory;
      if original == 0 || !NonNull(handler) || !NonNull(slot) {
        return;
      }
      var trampoline := CreateBypassTrampoline(original);
      if trampoline.None? {
        return;
      }
      var address, n := trampoline.value.address, trampoline.value.patchSize;
      UnderTrampoline(base, original, address, n, slot.value);
      var originalBytes, reached := Connect(original, handler.value, slot.value, address, n, base);
      written := reached;
      if originalBytes.Some? {
        hook := Some(InstalledHook(name, 0, 0, original, address, slot.value, originalBytes.value));
        SlotLeadsToTrampoline(base, hook.value, handler.value);
      }
    }

    // -------------------------------------------------------------- removing

    /** A removal that fails stops between two of its writes; it never leaves a partly restored function. */
    method UnhookFunction(h: InstalledHook) returns (ok: bool)
      modifies this
      ensures old(Valid()) ==> Valid()
      ensures ok <==> CanUnhook(old(memory), h) && Grants6(old(calls))
      ensures ok ==> memory == Unhooked(old(memory), h)
      ensures !ok ==>
        || memory == old(memory)
        || memory == Write(old(memory), h.original, h.originalBytes)
        || memory == Write(Write(old(memory), h.original, h.originalBytes), h.slot, NULL_POINTER)
    {
      if h.original == 0 || h.trampoline == 0 || h.slot == 0 || h.originalBytes == [] {
        return false;
      }
      ok := Ask();
      if !ok {
        return;
      }
      var restored := WriteProcessMemory(h.original, h.originalBytes);
      var protectionRestored := Ask();
      var cacheFlushed := Ask();
      if !restored || !protectionRestored || !cacheFlushed {
        return false;
      }
      ok := WriteProcessMemory(h.slot, NULL_POINTER);
      if !ok {
        return;
      }
      ok := VirtualFreeEx(h.trampoline);
    }

    /** The hooked module is gone already, so only the slot and the trampoline are given back. */
    method ReleaseUnloadedHook(h: InstalledHook) returns (ok: bool)
      modifies this
      ensures old(Valid()) ==> Valid()
      ensures ok <==> Grants2(old(calls)) && Mapped(old(memory), h.slot, 8)
      ensures ok ==> memory == Detached(old(memory), h)
      ensures ok ==> forall x :: x in memory ==>
        !InRange(x, h.trampoline, 1024) && memory[x] == if InRange(x, h.slot, 8) then 0 else old(memory)[x]
      ensures !ok ==> Abandoned(old(memory), memory, h.slot, h.trampoline)
    {
      var cleared := WriteProcessMemory(h.slot, NULL_POINTER);
      var freed := VirtualFreeEx(h.trampoline);
      return cleared && freed;
    }

    /** Hooks come off in the reverse of the order they went on; one failure does not keep the others on. */
    method RemoveHooks(hooks: seq<InstalledHook>) returns (cleaned: bool)
      modifies this
      ensures old(Valid()) ==> Valid()
      ensures cleaned ==> memory == UnhookedBackwards(old(memory), hooks, |hooks|)
      ensures cleaned ==> forall x, i :: 0 <= i < |hooks| && x in memory ==> !InRange(x, hooks[i].trampoline, 1024)
      ensures GrantsAll() ==> (cleaned <==> AllCanUnhook(old(memory), hooks, |hooks|))
    {
      cleaned := true;
      NoTrampolineLeft(memory, hooks, |hooks|);
      for i := |hooks| downto 0
        invariant old(Valid()) ==> Valid()
        invariant cleaned ==> (AllCanUnhook(old(memory), hooks, |hooks|) <==> AllCanUnhook(memory, hooks, i))
        invariant !cleaned && GrantsAll() ==> !AllCanUnhook(old(memory), hooks, |hooks|)
        invariant cleaned ==>
          UnhookedBackwards(old(memory), hooks, |hooks|) == UnhookedBackwards(memory, hooks, i)
      {
        var ok := UnhookFunction(hooks[i]);
        cleaned := ok && cleaned;
      }
    }
  }

  /** What a trampoline was made from: fresh memory, and the least whole-instruction prefix of the function. */
  ghost predicate Installed(decode: Decoder, m: Memory, original: nat, t: RemoteTrampoline) {
    && t.address != 0 && Unmapped(m, t.address, TRAMPOLINE_SIZE)
    && Mapped(m, original, DECODE_WINDOW)
    && PATCH_SIZE <= t.patchSize <= DECODE_WINDOW && original + t.patchSize < WORD64
    && IsPatchSize(decode, Read(m, original, DECODE_WINDOW), t.patchSize)
    && Mapped(m, original, t.patchSize)
  }

  lemma PrefixIsMapped(m: Memory, start: nat, n: nat)
    requires Mapped(m, start, DECODE_WINDOW) && n <= DECODE_WINDOW
    ensures Mapped(m, start, n)
  {
  }

  /** The record of a hook tells what was in memory when it was installed. */
  ghost predicate Describes(h: InstalledHook, decode: Decoder, m: Memory, original: nat, slot: nat) {
    && h.original == original && h.slot == slot && original != 0 && slot != 0
    && Installed(decode, m, original, RemoteTrampoline(h.trampoline, |h.originalBytes|))
    && h.originalBytes == Read(m, original, |h.originalBytes|)
  }

  /** The patch is in place, and nothing but the patched bytes and the slot differs from before. */
  ghost predicate LeftPatched(m: Memory, m': Memory, original: nat, handler: nat, slot: nat)
    requires handler < WORD64
  {
    exists n: nat :: PATCH_SIZE <= n <= DECODE_WINDOW && PatchedAt(m, m', original, handler, slot, n)
  }

  ghost predicate PatchedAt(m: Memory, m': Memory, original: nat, handler: nat, slot: nat, n: nat)
    requires handler < WORD64 && n >= PATCH_SIZE
  {
    && (Apart(original, n, slot, 8) ==> CodeAt(m', original, Patch(handler, n)))
    && forall x :: x in m ==> x in m' && (m'[x] == m[x] || InRange(x, slot, 8) || InRange(x, original, n))
  }

  lemma UnderTrampoline(m: Memory, original: nat, address: nat, n: nat, slot: nat)
    requires Mapped(m, original, n) && Unmapped(m, address, TRAMPOLINE_SIZE) && original + n < WORD64
    requires n + PATCH_SIZE <= TRAMPOLINE_SIZE
    ensures
      var m1 := WithTrampoline(m, original, address, n);
      && Keeps(m, m1) && Mapped(m1, original, n) && Read(m1, original, n) == Read(m, original, n)
      && (Mapped(m1, slot, 8) <==> Mapped(Reserve(m, address, TRAMPOLINE_SIZE), slot, 8))
  {
  }

  /** In hooked memory the slot holds the trampoline's address, and behind the jump there are only nops. */
  lemma SlotLeadsToTrampoline(m: Memory, h: InstalledHook, handler: nat)
    requires handler < WORD64 && PATCH_SIZE <= |h.originalBytes| && h.original + |h.originalBytes| < WORD64
    requires Mapped(m, h.original, |h.originalBytes|) && h.trampoline < WORD64
    requires Mapped(Reserve(m, h.trampoline, TRAMPOLINE_SIZE), h.slot, 8)
    ensures
      var after := Hooked(m, h, handler);
      && (Apart(h.original, |h.originalBytes|, h.slot, 8) ==>
            Mapped(after, h.slot, 8) && FromLittleEndian(Read(after, h.slot, 8)) == h.trampoline)
      && forall x :: h.original + 14 <= x < h.original + |h.originalBytes| ==> x in after && after[x] == 0x90
  {
    var n := |h.originalBytes|;
    var m1 := WithTrampoline(m, h.original, h.trampoline, n);
    var m2 := Write(m1, h.slot, LittleEndianPointer(h.trampoline));
    WrittenPointer(m1, h.slot, h.trampoline);
    if Apart(h.original, n, h.slot, 8) {
      ReadElsewhere(m2, h.original, Patch(handler, n), h.slot, 8);
    }
    PaddedPatch(m2, h.original, handler, n);
  }

  lemma PatchedWithStub(m: Memory, h: InstalledHook, handler: nat)
    requires handler < WORD64 && PATCH_SIZE <= |h.originalBytes| && h.original + |h.originalBytes| < WORD64
    requires Mapped(m, h.original, |h.originalBytes|)
    ensures CodeAt(Hooked(m, h, handler), h.original, Stub(handler))
  {
    var m1 := WithTrampoline(m, h.original, h.trampoline, |h.originalBytes|);
    var m2 := Write(m1, h.slot, LittleEndianPointer(h.trampoline));
    WrittenIsThere(m2, h.original, Patch(handler, |h.originalBytes|));
  }

  lemma PaddedPatch(m: Memory, original: nat, handler: nat, n: nat)
    requires handler < WORD64 && n >= 14 && Mapped(m, original, n)
    ensures
      var after := Write(m, original, Patch(handler, n));
      forall x :: original + 14 <= x < original + n ==> x in after && after[x] == 0x90
  {
    var after := Write(m, original, Patch(handler, n));
    forall x | original + 14 <= x < original + n ensures x in after && after[x] == 0x90 {
      assert x in m && InRange(x, original, n);
      assert Patch(handler, n)[x - original] == NOP;
    }
  }

  /** Memory after the slot is cleared (or not) and the trampoline released (or not). */
  predicate Abandoned(m: Memory, m': Memory, slot: nat, address: nat) {
    || m' == m || m' == Write(m, slot, NULL_POINTER)
    || m' == Release(m, address, TRAMPOLINE_SIZE)
    || m' == Release(Write(m, slot, NULL_POINTER), address, TRAMPOLINE_SIZE)
  }

  /** The record may name the modules that it came from; nothing else depends on them. */
  lemma Attributed(decode: Decoder, m: Memory, h: InstalledHook, handler: nat, source: nat, target: nat)
    requires handler < WORD64 && Describes(h, decode, m, h.original, h.slot)
    ensures
      var h' := h.(source := source, target := target);
      Describes(h', decode, m, h.original, h.slot) && Hooked(m, h', handler) == Hooked(m, h, handler)
  {
  }

  lemma AbandonKeeps(base: Memory, m: Memory, m': Memory, slot: nat, address: nat)
    requires Unmapped(base, address, TRAMPOLINE_SIZE) && Abandoned(m, m', slot, address)
    ensures forall x :: x in base && x in m ==> x in m' && (m'[x] == m[x] || InRange(x, slot, 8))
    ensures Keeps(base, m) ==> KeepsOutside(base, m', slot)
  {
  }

  lemma AfterRejection(
    base: Memory, m1: Memory, m3: Memory, m': Memory, original: nat, address: nat, n: nat, slot: nat,
    handler: nat, written: bool)
    requires PATCH_SIZE <= n <= DECODE_WINDOW && handler < WORD64 && Mapped(base, original, n)
    requires Keeps(base, m1) && Unmapped(base, address, TRAMPOLINE_SIZE)
    requires
      var m2 := Write(m1, slot, LittleEndianPointer(address));
      m3 == if written then Write(m2, original, Patch(handler, n)) else m2
    requires Abandoned(m3, m', slot, address)
    ensures !written ==> KeepsOutside(base, m', slot)
    ensures written ==> PatchedAt(base, m', original, handler, slot, n)
  {
    AbandonKeeps(base, m3, m', slot, address);
    if written && Apart(original, n, slot, 8) {
      forall x: int | original <= x < original + n ensures x in m' && m'[x] == Patch(handler, n)[x - original] {
        assert x in base && InRange(x, original, n);
      }
    }
  }
}
