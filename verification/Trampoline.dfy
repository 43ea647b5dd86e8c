/**
 A small machine: instructions are decoded from code memory and run on registers, stack pointer and data
 memory. The decoder and the effect of ordinary instructions are parameters; only the three instructions
 of the absolute jump are given a meaning. Code and data memory are kept apart.
 */
module Trampoline {
  import opened Bytes

  const PATCH_SIZE := 14
  const MAX_INSTRUCTION := 15

  /** What the decoder reports about the instruction at the start of a byte string. */
  datatype Decoded = Undecodable | Instruction(length: nat, ripRelative: bool, relative: bool) {
    /** The code copies only such instructions. */
    predicate Safe() { Instruction? && length > 0 && !ripRelative && !relative }
  }

  type Decoder = seq<byte> -> Decoded

  /** Registers other than rsp and rip, the stack pointer, and data memory. */
  datatype Context<!R> = Context(rsp: nat, registers: R, data: int -> byte)

  datatype Outcome<!R> = Falls(context: Context<R>) | Jumps(target: nat, context: Context<R>)

  /** A processor: how bytes decode, and what a position-independent instruction does. */
  datatype Cpu<!R> = Cpu(decode: Decoder, execute: (seq<byte>, Context<R>) -> Outcome<R>)

  function Store(data: int -> byte, address: int, bytes: seq<byte>): int -> byte {
    (x: int) => if address <= x < address + |bytes| then bytes[x - address] else data(x)
  }

  function Load(data: int -> byte, address: int, n: nat): (s: seq<byte>)
    ensures |s| == n
    ensures forall i :: 0 <= i < n ==> s[i] == data(address + i)
  {
    seq(n, i => data(address + i))
  }

  /** A 32-bit immediate, least significant byte first. */
  type Word32 = b: seq<byte> | |b| == 4 witness [0, 0, 0, 0]

  function PushImm(imm: Word32): seq<byte> { [0x68] + imm }
  function MovRspPlus4(imm: Word32): seq<byte> { [0xC7, 0x44, 0x24, 0x04] + imm }
  const RET: seq<byte> := [0xC3]

  /** The eight bytes pushed for a 32-bit immediate: the processor extends the sign. */
  function SignExtended(imm: Word32): (s: seq<byte>)
    ensures |s| == 8 && s[..4] == imm
  {
    imm + if imm[3] < 0x80 then [0, 0, 0, 0] else [0xFF, 0xFF, 0xFF, 0xFF]
  }

  function AfterPush<R>(c: Context<R>, imm: Word32): Context<R>
    requires c.rsp >= 8
  {
    Context(c.rsp - 8, c.registers, Store(c.data, c.rsp - 8, SignExtended(imm)))
  }

  function AfterMov<R>(c: Context<R>, imm: Word32): Context<R> {
    Context(c.rsp, c.registers, Store(c.data, c.rsp + 4, imm))
  }

  /** If `t` starts with the instruction that starts `s`, the decoder says the same of both. */
  predicate DecodesAlike(decode: Decoder, s: seq<byte>, t: seq<byte>) {
    var d := decode(s);
    d.Instruction? && d.length <= |s| && d.length <= |t| && t[..d.length] == s[..d.length] ==> decode(t) == d
  }

  /** The decoder looks no further than the instruction itself. */
  ghost predicate LocalDecoder(decode: Decoder) {
    && (forall s :: decode(s).Instruction? ==> decode(s).length <= |s| && decode(s).length <= MAX_INSTRUCTION)
    && (forall s, t :: DecodesAlike(decode, s, t))
  }

  /** The three instructions of the jump stub decode and behave as on the real processor. */
  ghost predicate KnowsStub<R(!new)>(cpu: Cpu<R>) {
    && (forall imm: Word32 ::
          && cpu.decode(PushImm(imm)) == Instruction(5, false, false)
          && cpu.decode(MovRspPlus4(imm)) == Instruction(8, false, false))
    && cpu.decode(RET) == Instruction(1, false, false)
    && (forall imm: Word32, c: Context<R> :: c.rsp >= 8 ==>
          cpu.execute(PushImm(imm), c) == Falls(AfterPush(c, imm)))
    && (forall imm: Word32, c: Context<R> :: cpu.execute(MovRspPlus4(imm), c) == Falls(AfterMov(c, imm)))
    && (forall c: Context<R> ::
          cpu.execute(RET, c) == Jumps(FromLittleEndian(Load(c.data, c.rsp, 8)), c.(rsp := c.rsp + 8)))
  }

  ghost predicate Processor<R(!new)>(cpu: Cpu<R>) { LocalDecoder(cpu.decode) && KnowsStub(cpu) }

  // ---------------------------------------------------------------- running code

  type Memory = map<int, byte>

  /** Code memory holds `bytes` from `address` on. */
  predicate CodeAt(code: Memory, address: int, bytes: seq<byte>) {
    forall x: int :: address <= x < address + |bytes| ==> x in code && code[x] == bytes[x - address]
  }

  lemma CodeByte(code: Memory, address: int, bytes: seq<byte>, i: nat)
    requires CodeAt(code, address, bytes) && i < |bytes|
    ensures address + i in code && code[address + i] == bytes[i]
  {
    var x := address + i;
    assert x in code;
  }

  lemma CodeSlice(code: Memory, address: int, bytes: seq<byte>, i: nat, j: nat)
    requires CodeAt(code, address, bytes) && i <= j <= |bytes|
    ensures CodeAt(code, address + i, bytes[i..j])
  {
    var start, slice := address + i, bytes[i..j];
    forall x: int | start <= x < start + |slice| ensures x in code && code[x] == slice[x - start] {
      assert slice[x - start] == bytes[x - address];
    }
  }

  /** Of two strings at one address the shorter starts the longer. */
  lemma CodePrefix(code: Memory, address: int, a: seq<byte>, b: seq<byte>)
    requires CodeAt(code, address, a) && CodeAt(code, address, b) && |a| <= |b|
    ensures b[..|a|] == a
  {
    forall i | 0 <= i < |a| ensures b[i] == a[i] {
      CodeByte(code, address, a, i);
      CodeByte(code, address, b, i);
    }
  }

  datatype Machine<!R> = Machine(rip: int, context: Context<R>)

  ghost predicate Effect<R>(o: Outcome<R>, s: Machine<R>, n: nat, s': Machine<R>) {
    match o
    case Falls(c) => s'.rip == s.rip + n && s'.context == c
    case Jumps(target, c) => s'.rip == target && s'.context == c
  }

  /** The processor takes one step over an instruction lying in code memory. */
  ghost predicate Steps<R(!new)>(cpu: Cpu<R>, code: Memory, s: Machine<R>, s': Machine<R>) {
    exists bytes: seq<byte> ::
      && CodeAt(code, s.rip, bytes)
      && cpu.decode(bytes).Safe() && cpu.decode(bytes).length == |bytes|
      && Effect(cpu.execute(bytes, s.context), s, |bytes|, s')
  }

  ghost predicate IsPath<R(!new)>(cpu: Cpu<R>, code: Memory, path: seq<Machine<R>>) {
    && path != []
    && forall i :: 0 <= i < |path| - 1 ==> Steps(cpu, code, path[i], path[i + 1])
  }

  /** Some number of steps lead from `s` to `s'`. */
  ghost predicate Reaches<R(!new)>(cpu: Cpu<R>, code: Memory, s: Machine<R>, s': Machine<R>) {
    exists path :: IsPath(cpu, code, path) && path[0] == s && path[|path| - 1] == s'
  }

  lemma ReachesItself<R(!new)>(cpu: Cpu<R>, code: Memory, s: Machine<R>)
    ensures Reaches(cpu, code, s, s)
  {
    assert IsPath(cpu, code, [s]);
  }

  lemma ReachesOneMore<R(!new)>(cpu: Cpu<R>, code: Memory, a: Machine<R>, b: Machine<R>, c: Machine<R>)
    requires Reaches(cpu, code, a, b) && Steps(cpu, code, b, c)
    ensures Reaches(cpu, code, a, c)
  {
    var path :| IsPath(cpu, code, path) && path[0] == a && path[|path| - 1] == b;
    assert IsPath(cpu, code, path + [c]);
  }

  /** Decoding is deterministic, so stepping is. */
  lemma StepsIsDeterministic<R(!new)>(cpu: Cpu<R>, code: Memory, s: Machine<R>, a: Machine<R>, b: Machine<R>)
    requires Processor(cpu) && Steps(cpu, code, s, a) && Steps(cpu, code, s, b)
    ensures a == b
  {
    var x: seq<byte> :| CodeAt(code, s.rip, x) && cpu.decode(x).Safe() && cpu.decode(x).length == |x|
      && Effect(cpu.execute(x, s.context), s, |x|, a);
    var y: seq<byte> :| CodeAt(code, s.rip, y) && cpu.decode(y).Safe() && cpu.decode(y).length == |y|
      && Effect(cpu.execute(y, s.context), s, |y|, b);
    assert DecodesAlike(cpu.decode, x, y) && DecodesAlike(cpu.decode, y, x);
    assert x[..|x|] == x && y[..|y|] == y;
    if |x| <= |y| {
      CodePrefix(code, s.rip, x, y);
    } else {
      CodePrefix(code, s.rip, y, x);
    }
    assert |x| == |y| && x == y;
  }

  // ---------------------------------------------------------------- the absolute jump

  function Low(target: nat): Word32 { LittleEndian(target, 8)[..4] }
  function High(target: nat): Word32 { LittleEndian(target, 8)[4..] }

  /** push low; mov [rsp+4], high; ret */
  function Stub(target: nat): (s: seq<byte>)
    requires target < WORD64
    ensures |s| == PATCH_SIZE
  {
    PushImm(Low(target)) + MovRspPlus4(High(target)) + RET
  }

  /** Two contexts a caller cannot tell apart: below the stack pointer anything goes. */
  ghost predicate SameButDeadZone<R(!new)>(a: Context<R>, b: Context<R>) {
    && a.rsp == b.rsp && a.registers == b.registers
    && forall x: int :: !(a.rsp - 8 <= x < a.rsp) ==> a.data(x) == b.data(x)
  }

  /** What ret finds on the stack: the high half was stored over whatever sign extension had put there. */
  lemma StubTarget<R>(target: nat, c: Context<R>)
    requires target < WORD64 && c.rsp >= 8
    ensures
      var c2 := AfterMov(AfterPush(c, Low(target)), High(target));
      c2.rsp == c.rsp - 8 && FromLittleEndian(Load(c2.data, c2.rsp, 8)) == target
  {
    LoadHalves(c.data, c.rsp - 8, SignExtended(Low(target)), High(target));
    assert Low(target) + High(target) == LittleEndian(target, 8);
    RadixValues();
    LittleEndianRoundTrip(target, 8);
  }

  lemma LoadHalves(data: int -> byte, at: int, word: seq<byte>, high: seq<byte>)
    requires |word| == 8 && |high| == 4
    ensures Load(Store(Store(data, at, word), at + 4, high), at, 8) == word[..4] + high
  {
    var l := Load(Store(Store(data, at, word), at + 4, high), at, 8);
    forall i | 0 <= i < 8 ensures l[i] == (word[..4] + high)[i] { }
  }

  lemma LittleEndianSteps(v: nat, width: nat)
    ensures LittleEndian(v, width + 4)
      == [v % 256, v / 256 % 256, v / 256 / 256 % 256, v / 256 / 256 / 256 % 256]
         + LittleEndian(v / 256 / 256 / 256 / 256, width)
  {
    var w := v / 256;
    var x := w / 256;
    assert LittleEndian(v, width + 4) == [v % 256] + LittleEndian(w, width + 3);
    assert LittleEndian(w, width + 3) == [w % 256] + LittleEndian(x, width + 2);
    assert LittleEndian(x, width + 2) == [x % 256] + LittleEndian(x / 256, width + 1);
    assert LittleEndian(x / 256, width + 1) == [x / 256 % 256] + LittleEndian(x / 256 / 256, width);
  }

  lemma DivideByBytes(v: nat)
    ensures v / WORD32 == v / 256 / 256 / 256 / 256
    ensures
      var r := v % WORD32;
      && r % 256 == v % 256 && r / 256 % 256 == v / 256 % 256
      && r / 256 / 256 % 256 == v / 256 / 256 % 256 && r / 256 / 256 / 256 % 256 == v / 256 / 256 / 256 % 256
  {
  }

  /** The two halves of an address as the code computes them, by mask and by shift. */
  lemma LowAndHigh(target: nat)
    ensures Low(target) == LittleEndian(target % WORD32, 4)
    ensures High(target) == LittleEndian(target / WORD32, 4)
  {
    LittleEndianSteps(target, 4);
    LittleEndianSteps(target % WORD32, 0);
    DivideByBytes(target);
  }

  lemma StubCode(code: Memory, at: int, target: nat)
    requires target < WORD64 && CodeAt(code, at, Stub(target))
    ensures CodeAt(code, at, PushImm(Low(target)))
    ensures CodeAt(code, at + 5, MovRspPlus4(High(target)))
    ensures CodeAt(code, at + 13, RET)
  {
    var stub := Stub(target);
    assert stub[0..5] == PushImm(Low(target));
    assert stub[5..13] == MovRspPlus4(High(target));
    assert stub[13..14] == RET;
    CodeSlice(code, at, stub, 0, 5);
    CodeSlice(code, at, stub, 5, 13);
    CodeSlice(code, at, stub, 13, 14);
  }

  lemma PushStep<R(!new)>(cpu: Cpu<R>, code: Memory, at: int, imm: Word32, c: Context<R>)
    requires KnowsStub(cpu) && c.rsp >= 8 && CodeAt(code, at, PushImm(imm))
    ensures Steps(cpu, code, Machine(at, c), Machine(at + 5, AfterPush(c, imm)))
  {
    assert cpu.decode(PushImm(imm)).Safe();
  }

  lemma MovStep<R(!new)>(cpu: Cpu<R>, code: Memory, at: int, imm: Word32, c: Context<R>)
    requires KnowsStub(cpu) && CodeAt(code, at, MovRspPlus4(imm))
    ensures Steps(cpu, code, Machine(at, c), Machine(at + 8, AfterMov(c, imm)))
  {
    assert cpu.decode(MovRspPlus4(imm)).Safe();
  }

  lemma RetStep<R(!new)>(cpu: Cpu<R>, code: Memory, at: int, c: Context<R>)
    requires KnowsStub(cpu) && CodeAt(code, at, RET)
    ensures Steps(
      cpu, code, Machine(at, c), Machine(FromLittleEndian(Load(c.data, c.rsp, 8)), c.(rsp := c.rsp + 8)))
  {
    assert cpu.decode(RET).Safe();
  }

  /** The context after the stub, from the context before it. */
  function AfterStub<R>(c: Context<R>, target: nat): Context<R>
    requires target < WORD64 && c.rsp >= 8
  {
    AfterMov(AfterPush(c, Low(target)), High(target)).(rsp := c.rsp)
  }

  lemma StubTouchesDeadZoneOnly<R(!new)>(c: Context<R>, target: nat)
    requires target < WORD64 && c.rsp >= 8
    ensures SameButDeadZone(c, AfterStub(c, target))
  {
  }

  lemma StubSteps<R(!new)>(cpu: Cpu<R>, code: Memory, at: int, target: nat, c: Context<R>)
    returns (m1: Machine<R>, m2: Machine<R>)
    requires KnowsStub(cpu) && c.rsp >= 8 && target < WORD64 && CodeAt(code, at, Stub(target))
    ensures Steps(cpu, code, Machine(at, c), m1) && Steps(cpu, code, m1, m2)
    ensures Steps(cpu, code, m2, Machine(target, AfterStub(c, target)))
  {
    var c1 := AfterPush(c, Low(target));
    var c2 := AfterMov(c1, High(target));
    m1, m2 := Machine(at + 5, c1), Machine(at + 13, c2);
    StubCode(code, at, target);
    StubTarget(target, c);
    PushStep(cpu, code, at, Low(target), c);
    MovStep(cpu, code, at + 5, High(target), c1);
    RetStep(cpu, code, at + 13, c2);
  }

  /** Whoever reaches the stub reaches its target, with everything but the dead zone intact. */
  lemma StubJumps<R(!new)>(cpu: Cpu<R>, code: Memory, start: Machine<R>, at: int, target: nat, c: Context<R>)
    requires KnowsStub(cpu) && c.rsp >= 8 && target < WORD64 && CodeAt(code, at, Stub(target))
    requires Reaches(cpu, code, start, Machine(at, c))
    ensures Reaches(cpu, code, start, Machine(target, AfterStub(c, target)))
    ensures SameButDeadZone(c, AfterStub(c, target))
  {
    var m1, m2 := StubSteps(cpu, code, at, target, c);
    ReachesOneMore(cpu, code, start, Machine(at, c), m1);
    ReachesOneMore(cpu, code, start, m1, m2);
    ReachesOneMore(cpu, code, start, m2, Machine(target, AfterStub(c, target)));
    StubTouchesDeadZoneOnly(c, target);
  }

  // ---------------------------------------------------------------- whole-instruction prefixes

  /** Decoding `code` from its start, safe instruction by safe instruction, reaches offset `k`. */
  ghost predicate SafeBoundary(decode: Decoder, code: seq<byte>, k: nat)
    decreases k
  {
    || k == 0
    || (k <= |code| && exists j: nat :: j < k && SafeBoundary(decode, code, j) && SafeInstruction(decode, code, j, k))
  }

  predicate SafeInstruction(decode: Decoder, code: seq<byte>, j: nat, k: nat) {
    j < k <= |code| && decode(code[j..]).Safe() && decode(code[j..]).length == k - j
  }

  /** Boundaries form one chain: whatever lies past a boundary lies past the instruction that starts there. */
  lemma {:induction false} BoundaryChain(decode: Decoder, code: seq<byte>, t: nat, k: nat)
    requires SafeBoundary(decode, code, t) && SafeBoundary(decode, code, k) && t < k
    ensures decode(code[t..]).Safe() && t + decode(code[t..]).length <= k
    decreases k, t
  {
    var j: nat :| j < k && SafeBoundary(decode, code, j) && SafeInstruction(decode, code, j, k);
    if t < j { BoundaryChain(decode, code, t, j); }
    if j < t { BoundaryChain(decode, code, j, t); }
  }

  /** Only the bytes in front of a boundary matter for it. */
  lemma {:induction false} BoundaryIsLocal(decode: Decoder, code: seq<byte>, other: seq<byte>, k: nat)
    requires LocalDecoder(decode) && SafeBoundary(decode, code, k)
    requires k <= |code| && k <= |other| && code[..k] == other[..k]
    ensures SafeBoundary(decode, other, k)
    decreases k
  {
    if k > 0 {
      var j: nat :| j < k && SafeBoundary(decode, code, j) && SafeInstruction(decode, code, j, k);
      assert code[..j] == code[..k][..j] == other[..k][..j] == other[..j];
      BoundaryIsLocal(decode, code, other, j);
      assert code[j..][..k - j] == code[..k][j..] == other[..k][j..] == other[j..][..k - j];
      assert DecodesAlike(decode, code[j..], other[j..]);
    }
  }

  /** How a straight run of the first `k` bytes ends: past the last one, or by a jump from inside. */
  datatype Ending<!R> = Fell(context: Context<R>) | Left(target: nat, context: Context<R>)

  ghost function Straight<R>(cpu: Cpu<R>, code: seq<byte>, k: nat, c: Context<R>): Ending<R>
    requires SafeBoundary(cpu.decode, code, k)
    decreases k
  {
    if k == 0 then Fell(c)
    else
      var j: nat :| j < k && SafeBoundary(cpu.decode, code, j) && SafeInstruction(cpu.decode, code, j, k);
      match Straight(cpu, code, j, c)
      case Left(target, c1) => Left(target, c1)
      case Fell(c1) =>
        match cpu.execute(code[j..k], c1)
        case Falls(c2) => Fell(c2)
        case Jumps(target, c2) => Left(target, c2)
  }

  function Arrival<R>(at: int, k: nat, e: Ending<R>): Machine<R> {
    match e
    case Fell(c) => Machine(at + k, c)
    case Left(target, c) => Machine(target, c)
  }

  lemma OneMore<R(!new)>(
    cpu: Cpu<R>, code: Memory, at: int, bytes: seq<byte>, j: nat, k: nat, c: Context<R>, s': Machine<R>)
    requires LocalDecoder(cpu.decode) && SafeInstruction(cpu.decode, bytes, j, k)
    requires CodeAt(code, at, bytes)
    requires Effect(cpu.execute(bytes[j..k], c), Machine(at + j, c), k - j, s')
    ensures Steps(cpu, code, Machine(at + j, c), s')
  {
    var i := bytes[j..k];
    CodeSlice(code, at, bytes, j, k);
    assert bytes[j..][..k - j] == i == i[..k - j];
    assert DecodesAlike(cpu.decode, bytes[j..], i);
  }

  /** The bytes do what they do wherever they lie. */
  lemma {:induction false} StraightRuns<R(!new)>(
    cpu: Cpu<R>, code: Memory, at: int, bytes: seq<byte>, k: nat, c: Context<R>)
    requires LocalDecoder(cpu.decode) && SafeBoundary(cpu.decode, bytes, k)
    requires CodeAt(code, at, bytes)
    ensures Reaches(cpu, code, Machine(at, c), Arrival(at, k, Straight(cpu, bytes, k, c)))
    decreases k
  {
    if k == 0 {
      ReachesItself(cpu, code, Machine(at, c));
    } else {
      var j: nat :| j < k && SafeBoundary(cpu.decode, bytes, j) && SafeInstruction(cpu.decode, bytes, j, k)
        && Straight(cpu, bytes, k, c) ==
             match Straight(cpu, bytes, j, c)
             case Left(target, c1) => Left(target, c1)
             case Fell(c1) =>
               match cpu.execute(bytes[j..k], c1)
               case Falls(c2) => Fell(c2)
               case Jumps(target, c2) => Left(target, c2);
      StraightRuns(cpu, code, at, bytes, j, c);
      if Straight(cpu, bytes, j, c).Fell? {
        var c1 := Straight(cpu, bytes, j, c).context;
        var arrival := Arrival(at, k, Straight(cpu, bytes, k, c));
        OneMore(cpu, code, at, bytes, j, k, c1, arrival);
        ReachesOneMore(cpu, code, Machine(at, c), Machine(at + j, c1), arrival);
      }
    }
  }

  /** Running the copied bytes in the trampoline: falling through them arrives at the jump stub. */
  lemma TrampolinePrefix<R(!new)>(
    cpu: Cpu<R>, code: Memory, trampoline: int, bytes: seq<byte>, stub: seq<byte>, c: Context<R>)
    returns (m: Machine<R>)
    requires LocalDecoder(cpu.decode) && SafeBoundary(cpu.decode, bytes, |bytes|)
    requires CodeAt(code, trampoline, bytes + stub)
    ensures m == Arrival(trampoline, |bytes|, Straight(cpu, bytes, |bytes|, c))
    ensures Reaches(cpu, code, Machine(trampoline, c), m)
    ensures Straight(cpu, bytes, |bytes|, c).Fell? ==> CodeAt(code, m.rip, stub)
  {
    CodeParts(code, trampoline, bytes, stub);
    StraightRuns(cpu, code, trampoline, bytes, |bytes|, c);
    m := Arrival(trampoline, |bytes|, Straight(cpu, bytes, |bytes|, c));
  }

  lemma StubJumpsFrom<R(!new)>(cpu: Cpu<R>, code: Memory, start: Machine<R>, m: Machine<R>, target: nat)
    returns (here: Machine<R>)
    requires KnowsStub(cpu) && m.context.rsp >= 8 && target < WORD64 && CodeAt(code, m.rip, Stub(target))
    requires Reaches(cpu, code, start, m)
    ensures Reaches(cpu, code, start, here)
    ensures here.rip == target && SameButDeadZone(m.context, here.context)
  {
    StubJumps(cpu, code, start, m.rip, target, m.context);
    here := Machine(target, AfterStub(m.context, target));
  }

  /**
   The trampoline means what the bytes it displaced mean. `before` holds the original function, `after` the
   trampoline with its jump `back` behind the displaced bytes. From any context both leave the displaced
   bytes for the same place, past their end or by the same jump, with contexts that agree outside the eight
   bytes under the stack pointer.
   */
  lemma TrampolineSimulates<R(!new)>(
    cpu: Cpu<R>, before: Memory, after: Memory, original: nat, back: nat, trampoline: int, bytes: seq<byte>,
    c: Context<R>)
    returns (there: Machine<R>, here: Machine<R>)
    requires Processor(cpu) && back == original + |bytes| < WORD64
    requires SafeBoundary(cpu.decode, bytes, |bytes|)
    requires CodeAt(before, original, bytes)
    requires CodeAt(after, trampoline, bytes + Stub(back))
    requires
      var e := Straight(cpu, bytes, |bytes|, c);
      e.Fell? ==> e.context.rsp >= 8
    ensures Reaches(cpu, before, Machine(original, c), there)
    ensures Reaches(cpu, after, Machine(trampoline, c), here)
    ensures there.rip == here.rip && SameButDeadZone(there.context, here.context)
    ensures there == Arrival(original, |bytes|, Straight(cpu, bytes, |bytes|, c))
  {
    StraightRuns(cpu, before, original, bytes, |bytes|, c);
    there := Arrival(original, |bytes|, Straight(cpu, bytes, |bytes|, c));
    here := TrampolinePrefix(cpu, after, trampoline, bytes, Stub(back), c);
    if Straight(cpu, bytes, |bytes|, c).Fell? {
      here := StubJumpsFrom(cpu, after, Machine(trampoline, c), here, back);
    }
  }

  lemma CodeParts(code: Memory, address: int, x: seq<byte>, y: seq<byte>)
    requires CodeAt(code, address, x + y)
    ensures CodeAt(code, address, x)
    ensures CodeAt(code, address + |x|, y)
  {
    CodeSlice(code, address, x + y, 0, |x|);
    CodeSlice(code, address, x + y, |x|, |x| + |y|);
    assert (x + y)[0..|x|] == x && (x + y)[|x|..|x| + |y|] == y;
  }

  /** A call of the patched function arrives at the handler with its registers, stack pointer and arguments. */
  lemma PatchReachesHandler<R(!new)>(cpu: Cpu<R>, after: Memory, original: nat, handler: nat, c: Context<R>)
    returns (c': Context<R>)
    requires Processor(cpu) && handler < WORD64 && c.rsp >= 8
    requires CodeAt(after, original, Stub(handler))
    ensures Reaches(cpu, after, Machine(original, c), Machine(handler, c'))
    ensures SameButDeadZone(c, c')
  {
    ReachesItself(cpu, after, Machine(original, c));
    StubJumps(cpu, after, Machine(original, c), original, handler, c);
    c' := AfterStub(c, handler);
  }
}
