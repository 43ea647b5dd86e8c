/** Histories in which hooks go on and come off in any order, seen at the bytes of the program's code. */
module HookLog {
  import opened Bytes
  import opened TargetMemory
  import opened Trampoline
  import opened HookManager
  import opened HookRestoration

  datatype Change = On(hook: InstalledHook) | Off(hook: InstalledHook)

  /** `states[i]` is memory after the first `i` changes. */
  datatype Log = Log(states: seq<Memory>, changes: seq<Change>) {
    function Last(): Memory
      requires states != []
    {
      states[|states| - 1]
    }
  }

  /** The code there is, and after how many changes each byte of it was mapped. */
  type Births = map<int, nat>

  /** The code that there was already after `i` changes. */
  function Alive(born: Births, i: nat): (code: set<int>)
    ensures forall x :: x in code <==> x in born && born[x] <= i
  {
    set x | x in born.Keys && born[x] <= i
  }

  /** What every removal that gets that far does to code: the saved bytes are back. */
  function Rewritten(m: Memory, h: InstalledHook): Memory { Write(m, h.original, h.originalBytes) }

  /** One change, while the program runs without writing to `code`. A removal may have failed later on. */
  ghost predicate Changes(decode: Decoder, code: set<int>, m: Memory, c: Change, m': Memory) {
    match c
    case On(h) => exists mid: Memory, handler: nat :: PutsOn(decode, code, m, h, m', mid, handler)
    case Off(h) => SameOn(code, Rewritten(m, h), m')
  }

  ghost predicate PutsOn(
    decode: Decoder, code: set<int>, m: Memory, h: InstalledHook, m': Memory, mid: Memory, handler: nat)
  {
    && handler < WORD64 && SameOn(code, m, mid)
    && Describes(h, decode, mid, h.original, h.slot) && SameOn(code, Hooked(mid, h, handler), m')
  }

  predicate SlotElsewhere(code: set<int>, h: InstalledHook) { forall x :: x in code ==> !InSlot(x, h) }

  ghost predicate ChangeOk(decode: Decoder, born: Births, log: Log, i: nat)
    requires |log.states| == |log.changes| + 1 && i < |log.changes|
  {
    && Changes(decode, Alive(born, i), log.states[i], log.changes[i], log.states[i + 1])
    && SlotElsewhere(Alive(born, i), log.changes[i].hook)
  }

  /** The log is true of all code there is, from the time it was mapped. */
  ghost predicate Mixed(decode: Decoder, born: Births, log: Log) {
    && |log.states| == |log.changes| + 1
    && (forall x :: x in born ==> born[x] <= |log.changes| && x in log.states[born[x]])
    && forall i :: 0 <= i < |log.changes| ==> ChangeOk(decode, born, log, i)
  }

  predicate Over(c: Change, x: int) { InPatch(x, c.hook) }

  function Saved(h: InstalledHook, x: int): byte
    requires InPatch(x, h)
  {
    h.originalBytes[x - h.original]
  }

  lemma PutAt(
    decode: Decoder, code: set<int>, m: Memory, h: InstalledHook, m': Memory, mid: Memory, handler: nat, x: int)
    requires PutsOn(decode, code, m, h, m', mid, handler) && x in code && !InSlot(x, h)
    ensures x in m && x in m' && !InRange(x, h.trampoline, TRAMPOLINE_SIZE)
    ensures if InPatch(x, h) then Saved(h, x) == m[x] else m'[x] == m[x]
  {
    RecordedAt(decode, mid, h, x);
    HookedAt(mid, h, handler, x);
  }

  /** One change, seen at one byte of code. */
  lemma ChangeAt(decode: Decoder, born: Births, log: Log, i: nat, x: int)
    requires Mixed(decode, born, log) && i < |log.changes| && x in born && born[x] <= i
    ensures |log.states| == |log.changes| + 1 && x in log.states[i] && x in log.states[i + 1]
    ensures
      var m, c, m' := log.states[i], log.changes[i], log.states[i + 1];
      && !InSlot(x, c.hook) && (c.On? ==> !InRange(x, c.hook.trampoline, TRAMPOLINE_SIZE))
      && if !Over(c, x) then m'[x] == m[x]
         else if c.On? then Saved(c.hook, x) == m[x]
         else m'[x] == Saved(c.hook, x)
  {
    var c := log.changes[i];
    assert ChangeOk(decode, born, log, i);
    if c.On? {
      var mid: Memory, handler: nat :|
        PutsOn(decode, Alive(born, i), log.states[i], c.hook, log.states[i + 1], mid, handler);
      PutAt(decode, Alive(born, i), log.states[i], c.hook, log.states[i + 1], mid, handler, x);
    }
  }

  lemma BornIn(decode: Decoder, born: Births, log: Log, x: int)
    requires Mixed(decode, born, log) && x in born
    ensures |log.states| == |log.changes| + 1 && born[x] <= |log.changes| && x in log.states[born[x]]
  {
  }

  lemma {:induction false} StaysThrough(decode: Decoder, born: Births, log: Log, i: nat, j: nat, x: int)
    requires Mixed(decode, born, log) && x in born && born[x] <= i <= j <= |log.changes|
    requires forall k :: i <= k < j ==> !Over(log.changes[k], x)
    ensures |log.states| == |log.changes| + 1
    ensures x in log.states[i] && x in log.states[j] && log.states[j][x] == log.states[i][x]
    decreases j - i
  {
    hide Mixed;
    BornIn(decode, born, log, x);
    if i < j {
      ChangeAt(decode, born, log, j - 1, x);
      StaysThrough(decode, born, log, i, j - 1, x);
    } else if i > born[x] {
      ChangeAt(decode, born, log, i - 1, x);
    }
  }

  /** The byte as it was when it was mapped. */
  function First(log: Log, born: Births, x: int): byte
    requires x in born && born[x] < |log.states| && x in log.states[born[x]]
  {
    log.states[born[x]][x]
  }

  lemma MappedThroughout(decode: Decoder, born: Births, log: Log, x: int)
    requires Mixed(decode, born, log) && x in born
    ensures |log.states| == |log.changes| + 1 && born[x] <= |log.changes| && x in log.states[born[x]]
    ensures x in log.Last()
  {
    BornIn(decode, born, log, x);
    StaysThrough(decode, born, log, |log.changes|, |log.changes|, x);
  }

  // ---------------------------------------------------------------- exactly when a byte comes back

  /** The last change over `x` is change `k`. */
  predicate LastChange(log: Log, k: nat, x: int) {
    && k < |log.changes| && Over(log.changes[k], x)
    && forall j :: k < j < |log.changes| ==> !Over(log.changes[j], x)
  }

  predicate NeverOver(log: Log, b: nat, x: int) { forall j :: b <= j < |log.changes| ==> !Over(log.changes[j], x) }

  /** Change `k` takes off what change `i` put on. */
  predicate TakesOff(log: Log, k: nat, i: nat) {
    && k < |log.changes| && i < |log.changes|
    && log.changes[i].On? && log.changes[k] == Off(log.changes[i].hook)
  }

  lemma NeverChanged(decode: Decoder, born: Births, log: Log, x: int)
    requires Mixed(decode, born, log) && x in born && NeverOver(log, born[x], x)
    ensures born[x] < |log.states| && x in log.states[born[x]] && x in log.Last()
    ensures log.Last()[x] == First(log, born, x)
  {
    BornIn(decode, born, log, x);
    StaysThrough(decode, born, log, born[x], |log.changes|, x);
  }

  lemma RemovedLast(decode: Decoder, born: Births, log: Log, k: nat, x: int)
    requires Mixed(decode, born, log) && x in born && born[x] <= k
    requires LastChange(log, k, x) && log.changes[k].Off?
    ensures Over(log.changes[k], x)
    ensures log.states != [] && x in log.Last() && log.Last()[x] == Saved(log.changes[k].hook, x)
  {
    hide Mixed;
    ChangeAt(decode, born, log, k, x);
    StaysThrough(decode, born, log, k + 1, |log.changes|, x);
  }

  /**
   Installations and removals mixed at will. A byte whose last change is a removal is as when it was mapped
   exactly if it was so when that hook went on; a byte that no change has been over since is so anyway.
   */
  lemma MixedRestoresIff(decode: Decoder, born: Births, log: Log, k: nat, i: nat, x: int)
    requires Mixed(decode, born, log) && x in born
    ensures born[x] < |log.states| && x in log.states[born[x]] && x in log.Last()
    ensures LastChange(log, k, x) && TakesOff(log, k, i) && born[x] <= k && born[x] <= i ==>
      && x in log.states[i]
      && (log.Last()[x] == First(log, born, x) <==> log.states[i][x] == First(log, born, x))
    ensures NeverOver(log, born[x], x) ==> log.Last()[x] == First(log, born, x)
  {
    hide Mixed, NeverOver, LastChange;
    MappedThroughout(decode, born, log, x);
    if LastChange(log, k, x) && TakesOff(log, k, i) && born[x] <= k && born[x] <= i {
      RemovedLast(decode, born, log, k, x);
      ChangeAt(decode, born, log, i, x);
    }
    if NeverOver(log, born[x], x) {
      NeverChanged(decode, born, log, x);
    }
  }

  // ---------------------------------------------------------------- last on, first off

  /**
   The hooks over `x` that went on from change `b` on and are on after `n`, oldest first, when each removal
   takes the newest.
   */
  function Open(changes: seq<Change>, b: nat, n: nat, x: int): seq<InstalledHook>
    requires n <= |changes|
    decreases n
  {
    if n <= b then []
    else
      var before, c := Open(changes, b, n - 1, x), changes[n - 1];
      if !Over(c, x) then before
      else if c.On? then before + [c.hook]
      else if before != [] then before[..|before| - 1] else []
  }

  /** Every removal over `x` takes off the newest hook over `x`. */
  predicate Nested(changes: seq<Change>, b: nat, n: nat, x: int)
    requires n <= |changes|
    decreases n
  {
    n <= b ||
    (&& Nested(changes, b, n - 1, x)
     && var before, c := Open(changes, b, n - 1, x), changes[n - 1];
        c.Off? && Over(c, x) ==> before != [] && before[|before| - 1] == c.hook)
  }

  /** The oldest hook that is on has saved the byte as it was at first. */
  lemma {:induction false} OldestSaved(decode: Decoder, born: Births, log: Log, n: nat, x: int)
    requires Mixed(decode, born, log) && x in born && born[x] <= n <= |log.changes|
    requires Nested(log.changes, born[x], n, x)
    ensures born[x] < |log.states| && x in log.states[born[x]] && n < |log.states| && x in log.states[n]
    ensures
      var open := Open(log.changes, born[x], n, x);
      if open == [] then log.states[n][x] == First(log, born, x)
      else InPatch(x, open[0]) && Saved(open[0], x) == First(log, born, x)
    decreases n
  {
    hide Mixed;
    BornIn(decode, born, log, x);
    if n > born[x] {
      OldestSaved(decode, born, log, n - 1, x);
      ChangeAt(decode, born, log, n - 1, x);
    }
  }

  /** Taken off in the reverse order, hooks leave the code as it was, however they overlap. */
  lemma NestedRestores(decode: Decoder, born: Births, log: Log, x: int)
    requires Mixed(decode, born, log) && x in born
    requires Nested(log.changes, born[x], |log.changes|, x) && Open(log.changes, born[x], |log.changes|, x) == []
    ensures born[x] < |log.states| && x in log.states[born[x]] && x in log.Last()
    ensures log.Last()[x] == First(log, born, x)
  {
    hide Mixed;
    BornIn(decode, born, log, x);
    OldestSaved(decode, born, log, |log.changes|, x);
  }

  // ---------------------------------------------------------------- never two at a time

  /** The hooks that went on from change `b` on and are on after `n`. */
  function StillOn(changes: seq<Change>, b: nat, n: nat): set<InstalledHook>
    requires n <= |changes|
    decreases n
  {
    if n <= b then {}
    else
      var before, c := StillOn(changes, b, n - 1), changes[n - 1];
      if c.On? then before + {c.hook} else before - {c.hook}
  }

  /** From change `b` on, only hooks that have gone on since are taken off at `x`. */
  predicate HonestAt(changes: seq<Change>, b: nat, x: int) {
    forall k :: b <= k < |changes| && changes[k].Off? && Over(changes[k], x) ==>
      changes[k].hook in StillOn(changes, b, k)
  }

  predicate AtMostOne(hooks: set<InstalledHook>, x: int) {
    forall g, h :: g in hooks && h in hooks && InPatch(x, g) && InPatch(x, h) ==> g == h
  }

  /** There are never two hooks over `x` at a time. */
  predicate Solo(changes: seq<Change>, b: nat, x: int) {
    forall k :: b <= k <= |changes| ==> AtMostOne(StillOn(changes, b, k), x)
  }

  predicate NoneOver(hooks: set<InstalledHook>, x: int) { forall h :: h in hooks ==> !InPatch(x, h) }

  lemma {:induction false} SoloSaved(decode: Decoder, born: Births, log: Log, n: nat, x: int)
    requires Mixed(decode, born, log) && x in born && born[x] <= n <= |log.changes|
    requires HonestAt(log.changes, born[x], x) && Solo(log.changes, born[x], x)
    ensures born[x] < |log.states| && x in log.states[born[x]] && n < |log.states| && x in log.states[n]
    ensures forall h :: h in StillOn(log.changes, born[x], n) && InPatch(x, h) ==>
      Saved(h, x) == First(log, born, x)
    ensures NoneOver(StillOn(log.changes, born[x], n), x) ==> log.states[n][x] == First(log, born, x)
    decreases n
  {
    hide Mixed, Solo, HonestAt, AtMostOne, NoneOver;
    BornIn(decode, born, log, x);
    if n > born[x] {
      SoloSaved(decode, born, log, n - 1, x);
      ChangeAt(decode, born, log, n - 1, x);
      SoloAt(log.changes, born[x], n - 1, x);
      SoloStep(log.changes, born[x], n - 1, x, log.states[n - 1][x], log.states[n][x], First(log, born, x));
    }
  }

  lemma SoloAt(changes: seq<Change>, b: nat, k: nat, x: int)
    requires Solo(changes, b, x) && b <= k < |changes|
    ensures AtMostOne(StillOn(changes, b, k), x) && AtMostOne(StillOn(changes, b, k + 1), x)
  {
  }

  lemma SoloStep(changes: seq<Change>, b: nat, k: nat, x: int, before: byte, after: byte, first: byte)
    requires b <= k < |changes| && HonestAt(changes, b, x)
    requires AtMostOne(StillOn(changes, b, k), x) && AtMostOne(StillOn(changes, b, k + 1), x)
    requires forall h :: h in StillOn(changes, b, k) && InPatch(x, h) ==> Saved(h, x) == first
    requires NoneOver(StillOn(changes, b, k), x) ==> before == first
    requires
      var c := changes[k];
      if !Over(c, x) then after == before
      else if c.On? then Saved(c.hook, x) == before
      else after == Saved(c.hook, x)
    ensures forall h :: h in StillOn(changes, b, k + 1) && InPatch(x, h) ==> Saved(h, x) == first
    ensures NoneOver(StillOn(changes, b, k + 1), x) ==> after == first
  {
    var c, was, now := changes[k], StillOn(changes, b, k), StillOn(changes, b, k + 1);
    if c.On? {
      assert c.hook in now && now == was + {c.hook};
      if Over(c, x) && c.hook !in was {
        forall h | h in was ensures !InPatch(x, h) {
          assert h in now;
        }
      }
    } else {
      assert now == was - {c.hook};
    }
  }

  /** Hooks that never overlap at any one time may come off in any order. */
  lemma SoloRestores(decode: Decoder, born: Births, log: Log, x: int)
    requires Mixed(decode, born, log) && x in born
    requires HonestAt(log.changes, born[x], x) && Solo(log.changes, born[x], x)
    requires NoneOver(StillOn(log.changes, born[x], |log.changes|), x)
    ensures born[x] < |log.states| && x in log.states[born[x]] && x in log.Last()
    ensures log.Last()[x] == First(log, born, x)
  {
    hide Mixed, Solo, HonestAt, NoneOver;
    BornIn(decode, born, log, x);
    SoloSaved(decode, born, log, |log.changes|, x);
  }

  /** In either case the byte has come back. */
  predicate Closed(changes: seq<Change>, b: nat, x: int) {
    || (Nested(changes, b, |changes|, x) && Open(changes, b, |changes|, x) == [])
    || (HonestAt(changes, b, x) && Solo(changes, b, x) && NoneOver(StillOn(changes, b, |changes|), x))
  }

  lemma ClosedRestores(decode: Decoder, born: Births, log: Log, x: int)
    requires Mixed(decode, born, log) && x in born && Closed(log.changes, born[x], x)
    ensures born[x] < |log.states| && x in log.states[born[x]] && x in log.Last()
    ensures log.Last()[x] == First(log, born, x)
  {
    hide Mixed, Solo, HonestAt;
    if Nested(log.changes, born[x], |log.changes|, x) && Open(log.changes, born[x], |log.changes|, x) == [] {
      NestedRestores(decode, born, log, x);
    } else {
      SoloRestores(decode, born, log, x);
    }
  }
}
