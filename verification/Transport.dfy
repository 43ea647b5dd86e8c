/** The transport's remote part: two uninstrumented system calls and four variables of the hook image. */
module Transport {
  import opened Wrappers
  import opened Bytes
  import opened Forwarders
  import opened TargetMemory
  import opened Trampoline
  import opened HookManager

  // ---------------------------------------------------------------- setting up

  /** The bypass for `original` is made by the calls from number `n` on. */
  ghost predicate CanBypass(process: Process, e: Option<RemoteExport>, m: Memory, n: nat) {
    && e.Some? && e.value.address != 0 && process.Grants6(n)
    && Patchable(process.decode, m, e.value.address) && Fits(m, process.place(n + 1))
  }

  /** Memory with a bypass for `original` at `address`, if one can be made. */
  ghost function WithBypass(decode: Decoder, m: Memory, original: nat, address: nat): Memory {
    if exists k: nat :: Installed(decode, m, original, RemoteTrampoline(address, k)) then
      var k: nat :| Installed(decode, m, original, RemoteTrampoline(address, k));
      WithTrampoline(m, original, address, k)
    else m
  }

  lemma LeastPrefix(decode: Decoder, buffer: seq<byte>, n: nat, k: nat)
    requires n > 0 && k > 0 && IsPatchSize(decode, buffer, n) && IsPatchSize(decode, buffer, k)
    ensures n == k
  {
  }

  /** There is only one way to make it: the displaced prefix is the least one. */
  lemma OneBypass(decode: Decoder, m: Memory, original: nat, bypass: RemoteTrampoline)
    requires Installed(decode, m, original, bypass)
    ensures WithBypass(decode, m, original, bypass.address) ==
      WithTrampoline(m, original, bypass.address, bypass.patchSize)
  {
    var window := Read(m, original, DECODE_WINDOW);
    forall k: nat | Installed(decode, m, original, RemoteTrampoline(bypass.address, k))
      ensures k == bypass.patchSize
    {
      LeastPrefix(decode, window, k, bypass.patchSize);
    }
    assert Installed(decode, m, original, RemoteTrampoline(bypass.address, bypass.patchSize));
  }

  /** Memory after the bypass for what `e` names was made by the calls from number `n` on. */
  ghost function AfterBypass(process: Process, e: Option<RemoteExport>, m: Memory, n: nat): Memory {
    if e.None? then m else WithBypass(process.decode, m, e.value.address, process.place(n + 1))
  }

  /** `bypass` was made from what the export leads to. */
  ghost predicate BypassBuilt(
    decode: Decoder, e: Option<RemoteExport>, m: Memory, bypass: RemoteTrampoline, m': Memory)
  {
    && e.Some? && Installed(decode, m, e.value.address, bypass)
    && m' == WithTrampoline(m, e.value.address, bypass.address, bypass.patchSize)
  }

  predicate CanSet(refuses: nat -> bool, e: Option<RemoteExport>, m: Memory, n: nat) {
    e.Some? && e.value.address != 0 && !refuses(n) && Mapped(m, e.value.address, 8)
  }

  /** The variable that the export leads to was set to `value`. */
  ghost predicate ExportWritten(e: Option<RemoteExport>, value: nat, m: Memory, m': Memory) {
    e.Some? && e.value.address != 0 && m' == Write(m, e.value.address, LittleEndianPointer(value))
  }

  /** All fourteen calls succeed, and there are two functions to copy and two variables to set. */
  ghost predicate CanConfigure(process: Process, exports: Exports, ntdll: nat, image: nat, m: Memory, n: nat) {
    var m1 := AfterBypass(process, exports(ntdll, "NtSetEvent"), m, n);
    var m2 := AfterBypass(process, exports(ntdll, "NtReadVirtualMemory"), m1, n + 6);
    && CanBypass(process, exports(ntdll, "NtSetEvent"), m, n)
    && CanBypass(process, exports(ntdll, "NtReadVirtualMemory"), m1, n + 6)
    && CanSet(process.refuses, exports(image, "TransportNtSetEvent"), m2, n + 12)
    && CanSet(process.refuses, exports(image, "TransportNtReadVirtualMemory"), m2, n + 13)
  }

  /** Both system calls have a bypass, and the hook image's two variables lead to them, each to its own. */
  ghost predicate TransportBuilt(
    decode: Decoder, exports: Exports, ntdll: nat, image: nat, m: Memory, setEvent: RemoteTrampoline,
    readMemory: RemoteTrampoline, m': Memory)
  {
    exists m1: Memory, m2: Memory, m3: Memory ::
      && BypassBuilt(decode, exports(ntdll, "NtSetEvent"), m, setEvent, m1)
      && BypassBuilt(decode, exports(ntdll, "NtReadVirtualMemory"), m1, readMemory, m2)
      && ExportWritten(exports(image, "TransportNtSetEvent"), setEvent.address, m2, m3)
      && ExportWritten(exports(image, "TransportNtReadVirtualMemory"), readMemory.address, m3, m')
  }

  lemma BuiltInSteps(
    decode: Decoder, exports: Exports, ntdll: nat, image: nat, m: Memory, m1: Memory, m2: Memory, m3: Memory,
    m': Memory, setEvent: RemoteTrampoline, readMemory: RemoteTrampoline)
    requires BypassBuilt(decode, exports(ntdll, "NtSetEvent"), m, setEvent, m1)
    requires BypassBuilt(decode, exports(ntdll, "NtReadVirtualMemory"), m1, readMemory, m2)
    requires ExportWritten(exports(image, "TransportNtSetEvent"), setEvent.address, m2, m3)
    requires ExportWritten(exports(image, "TransportNtReadVirtualMemory"), readMemory.address, m3, m')
    ensures TransportBuilt(decode, exports, ntdll, image, m, setEvent, readMemory, m')
  {
  }

  /** A bypass starts with the bytes it replaces and jumps behind them. */
  lemma BypassIsCopy(
    decode: Decoder, e: Option<RemoteExport>, m: Memory, bypass: RemoteTrampoline, m': Memory)
    requires BypassBuilt(decode, e, m, bypass, m')
    ensures Mapped(m, e.value.address, bypass.patchSize) && e.value.address + bypass.patchSize < WORD64
    ensures
      CodeAt(
        m', bypass.address,
        Read(m, e.value.address, bypass.patchSize) + Stub(e.value.address + bypass.patchSize))
  {
    hide IsPatchSize;
    CopyIsThere(m, e.value.address, bypass.address, bypass.patchSize);
  }

  lemma CopyIsThere(m: Memory, original: nat, address: nat, n: nat)
    requires original + n < WORD64 && Mapped(m, original, n) && n <= DECODE_WINDOW
    ensures CodeAt(WithTrampoline(m, original, address, n), address, Read(m, original, n) + Stub(original + n))
  {
    hide Read, Stub;
    var code := Read(m, original, n) + Stub(original + n);
    WrittenIsThere(Reserve(m, address, TRAMPOLINE_SIZE), address, code);
  }

  predicate InVariable(x: int, e: Option<RemoteExport>) { e.Some? && InRange(x, e.value.address, 8) }

  /** Whatever happened, what was mapped still is, and only the two variables can have changed. */
  predicate KeptBut(m: Memory, m': Memory, exports: Exports, image: nat) {
    forall x ::
      x in m
      && !InVariable(x, exports(image, "TransportNtSetEvent"))
      && !InVariable(x, exports(image, "TransportNtReadVirtualMemory"))
      ==> x in m' && m'[x] == m[x]
  }

  /** A bypass made since memory was `m` lies where nothing was. */
  predicate OldOrFresh(m: Memory, before: Option<RemoteTrampoline>, now: Option<RemoteTrampoline>) {
    now == before || now.None? || Unmapped(m, now.value.address, TRAMPOLINE_SIZE)
  }

  // ---------------------------------------------------------------- taking down

  datatype Region = Region(start: nat, size: nat)

  /** What else the debugger put into the process: the mapped ring, the two bypasses, the hook image. */
  datatype Remote = Remote(
    ring: Option<Region>, setEvent: Option<RemoteTrampoline>, readMemory: Option<RemoteTrampoline>, image: Region)

  function Cleared(m: Memory, e: Option<RemoteExport>): Memory {
    if e.None? || e.value.address == 0 then m else Write(m, e.value.address, LittleEndianPointer(0))
  }

  function AllCleared(m: Memory, exports: Exports, image: nat): Memory {
    var m1 := Cleared(m, exports(image, "TransportRing"));
    var m2 := Cleared(m1, exports(image, "TransportWakeEvent"));
    Cleared(Cleared(m2, exports(image, "TransportNtSetEvent")), exports(image, "TransportNtReadVirtualMemory"))
  }

  predicate CanClear(m: Memory, e: Option<RemoteExport>) {
    e.Some? && e.value.address != 0 && Mapped(m, e.value.address, 8)
  }

  predicate CanClearAll(m: Memory, exports: Exports, image: nat) {
    && CanClear(m, exports(image, "TransportRing")) && CanClear(m, exports(image, "TransportWakeEvent"))
    && CanClear(m, exports(image, "TransportNtSetEvent"))
    && CanClear(m, exports(image, "TransportNtReadVirtualMemory"))
  }

  function WithoutRing(m: Memory, ring: Option<Region>): Memory {
    if ring.None? then m else Release(m, ring.value.start, ring.value.size)
  }

  function WithoutBypass(m: Memory, bypass: Option<RemoteTrampoline>): Memory {
    if bypass.None? then m else Release(m, bypass.value.address, TRAMPOLINE_SIZE)
  }

  /** The transport's variables cleared, then its memory given back. */
  function TransportDown(m: Memory, exports: Exports, r: Remote): Memory {
    WithoutBypass(
      WithoutBypass(WithoutRing(AllCleared(m, exports, r.image.start), r.ring), r.setEvent), r.readMemory)
  }

  lemma DownInSteps(m: Memory, m1: Memory, m2: Memory, m3: Memory, exports: Exports, r: Remote)
    requires m1 == AllCleared(m, exports, r.image.start) && m2 == WithoutRing(m1, r.ring)
    requires m3 == WithoutBypass(m2, r.setEvent)
    ensures WithoutBypass(m3, r.readMemory) == TransportDown(m, exports, r)
  {
  }

  /** And the hook image. */
  function TornDown(m: Memory, exports: Exports, r: Remote): Memory {
    Release(TransportDown(m, exports, r), r.image.start, r.image.size)
  }

  lemma TornDownIs(m: Memory, exports: Exports, r: Remote)
    ensures TornDown(m, exports, r) == Release(TransportDown(m, exports, r), r.image.start, r.image.size)
  {
  }

  /** `x` belongs to the debugger: it is in a region that it mapped, or in a variable that it set. */
  predicate Remotely(x: int, exports: Exports, r: Remote) {
    || InVariable(x, exports(r.image.start, "TransportRing"))
    || InVariable(x, exports(r.image.start, "TransportWakeEvent"))
    || InVariable(x, exports(r.image.start, "TransportNtSetEvent"))
    || InVariable(x, exports(r.image.start, "TransportNtReadVirtualMemory"))
    || (r.ring.Some? && InRange(x, r.ring.value.start, r.ring.value.size))
    || (r.setEvent.Some? && InRange(x, r.setEvent.value.address, TRAMPOLINE_SIZE))
    || (r.readMemory.Some? && InRange(x, r.readMemory.value.address, TRAMPOLINE_SIZE))
    || InRange(x, r.image.start, r.image.size)
  }

  lemma ClearedAt(m: Memory, e: Option<RemoteExport>, x: int)
    requires x in m && !InVariable(x, e)
    ensures x in Cleared(m, e) && Cleared(m, e)[x] == m[x]
  {
  }

  lemma AllClearedAt(m: Memory, exports: Exports, r: Remote, x: int)
    requires x in m && !Remotely(x, exports, r)
    ensures x in AllCleared(m, exports, r.image.start) && AllCleared(m, exports, r.image.start)[x] == m[x]
  {
    hide Cleared;
    var image := r.image.start;
    ClearedAt(m, exports(image, "TransportRing"), x);
    var m1 := Cleared(m, exports(image, "TransportRing"));
    ClearedAt(m1, exports(image, "TransportWakeEvent"), x);
    var m2 := Cleared(m1, exports(image, "TransportWakeEvent"));
    ClearedAt(m2, exports(image, "TransportNtSetEvent"), x);
    ClearedAt(Cleared(m2, exports(image, "TransportNtSetEvent")), exports(image, "TransportNtReadVirtualMemory"), x);
  }

  /** Tearing down leaves everything else as it is. */
  lemma TornDownAt(m: Memory, exports: Exports, r: Remote, x: int)
    requires x in m && !Remotely(x, exports, r)
    ensures x in TornDown(m, exports, r) && TornDown(m, exports, r)[x] == m[x]
  {
    hide AllCleared;
    AllClearedAt(m, exports, r, x);
  }

  /** Where the debugger had memory of its own, nothing is mapped afterwards. */
  lemma NothingIsLeft(m: Memory, exports: Exports, r: Remote, x: int)
    requires x in TornDown(m, exports, r)
    ensures x in m && !InRange(x, r.image.start, r.image.size)
    ensures x in TransportDown(m, exports, r)
  {
  }

  lemma TransportIsGone(m: Memory, exports: Exports, r: Remote, x: int)
    requires x in TransportDown(m, exports, r)
    ensures x in m
    ensures r.ring.Some? ==> !InRange(x, r.ring.value.start, r.ring.value.size)
    ensures r.setEvent.Some? ==> !InRange(x, r.setEvent.value.address, 1024)
    ensures r.readMemory.Some? ==> !InRange(x, r.readMemory.value.address, 1024)
  {
  }

  /** Outside what the transport gives back. */
  predicate StaysBehind(at: nat, r: Remote) {
    && (r.ring.Some? ==> Apart(at, 8, r.ring.value.start, r.ring.value.size))
    && (r.setEvent.Some? ==> Apart(at, 8, r.setEvent.value.address, 1024))
    && (r.readMemory.Some? ==> Apart(at, 8, r.readMemory.value.address, 1024))
  }

  lemma ClearedZero(m: Memory, e: Option<RemoteExport>, x: int)
    requires x in m
    ensures x in Cleared(m, e)
    ensures e.Some? && e.value.address != 0 && InRange(x, e.value.address, 8) ==> Cleared(m, e)[x] == 0
    ensures m[x] == 0 ==> Cleared(m, e)[x] == 0
  {
    NullPointer();
  }

  lemma NullPointer()
    ensures LittleEndianPointer(0) == [0, 0, 0, 0, 0, 0, 0, 0]
  {
    assert LittleEndian(0, 8) == [0] + LittleEndian(0, 7);
    assert LittleEndian(0, 7) == [0] + LittleEndian(0, 6);
    assert LittleEndian(0, 6) == [0] + LittleEndian(0, 5);
    assert LittleEndian(0, 5) == [0] + LittleEndian(0, 4);
    assert LittleEndian(0, 4) == [0] + LittleEndian(0, 3);
    assert LittleEndian(0, 3) == [0] + LittleEndian(0, 2);
    assert LittleEndian(0, 2) == [0] + LittleEndian(0, 1);
    assert LittleEndian(0, 1) == [0];
  }

  lemma AllClearedZero(m: Memory, exports: Exports, image: nat, name: string, x: int)
    requires name in {"TransportRing", "TransportWakeEvent", "TransportNtSetEvent", "TransportNtReadVirtualMemory"}
    requires exports(image, name).Some? && exports(image, name).value.address != 0
    requires x in m && InRange(x, exports(image, name).value.address, 8)
    ensures x in AllCleared(m, exports, image) && AllCleared(m, exports, image)[x] == 0
  {
    hide Cleared;
    var m1 := Cleared(m, exports(image, "TransportRing"));
    var m2 := Cleared(m1, exports(image, "TransportWakeEvent"));
    var m3 := Cleared(m2, exports(image, "TransportNtSetEvent"));
    ClearedZero(m, exports(image, "TransportRing"), x);
    ClearedZero(m1, exports(image, "TransportWakeEvent"), x);
    ClearedZero(m2, exports(image, "TransportNtSetEvent"), x);
    ClearedZero(m3, exports(image, "TransportNtReadVirtualMemory"), x);
  }

  lemma DownAt(m: Memory, exports: Exports, r: Remote, at: nat, x: int)
    requires StaysBehind(at, r) && InRange(x, at, 8) && x in AllCleared(m, exports, r.image.start)
    ensures x in TransportDown(m, exports, r)
    ensures TransportDown(m, exports, r)[x] == AllCleared(m, exports, r.image.start)[x]
  {
    hide AllCleared;
  }

  lemma EightZeros(bytes: seq<byte>)
    requires |bytes| == 8 && forall i :: 0 <= i < 8 ==> bytes[i] == 0
    ensures FromLittleEndian(bytes) == 0
  {
    NullPointer();
    assert bytes == LittleEndianPointer(0);
    PointerReadsBack(0);
  }

  /** Each of the four variables reads null once the transport is down. */
  lemma VariableIsNull(m: Memory, exports: Exports, r: Remote, name: string)
    requires name in {"TransportRing", "TransportWakeEvent", "TransportNtSetEvent", "TransportNtReadVirtualMemory"}
    requires
      var e := exports(r.image.start, name);
      && e.Some? && e.value.address != 0 && Mapped(m, e.value.address, 8) && StaysBehind(e.value.address, r)
    ensures
      var e, after := exports(r.image.start, name), TransportDown(m, exports, r);
      Mapped(after, e.value.address, 8) && FromLittleEndian(Read(after, e.value.address, 8)) == 0
  {
    hide AllCleared, TransportDown;
    var at, after := exports(r.image.start, name).value.address, TransportDown(m, exports, r);
    forall x | at <= x < at + 8 ensures x in after && after[x] == 0 {
      assert x in m;
      AllClearedZero(m, exports, r.image.start, name, x);
      DownAt(m, exports, r, at, x);
    }
    EightZeros(Read(after, at, 8));
  }
}
