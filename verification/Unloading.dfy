/** What unloading a module does to memory: its hooks come off oldest first, the others stay on. */
module Unloading {
  import opened TargetMemory
  import opened Trampoline
  import opened HookManager
  import opened HookRestoration
  import opened HookLog

  /** The module that goes is the one the hook was put into, or the one that led there. */
  predicate Dropped(h: InstalledHook, base: nat) { h.target == base || h.source == base }

  /** A hook in the module itself is only detached: its code is gone. */
  predicate Undone(h: InstalledHook, base: nat) { h.target != base && h.source == base }

  function GivenBack(m: Memory, h: InstalledHook, base: nat): Memory {
    if h.target == base then Detached(m, h) else if h.source == base then Unhooked(m, h) else m
  }

  /** The hooks given back in the order they went on. */
  function GivenBackAll(m: Memory, hooks: seq<InstalledHook>, base: nat): Memory {
    if hooks == [] then m else GivenBackAll(GivenBack(m, hooks[0], base), hooks[1..], base)
  }

  /** The record is complete and all that giving the hook back writes to is still there. */
  predicate CanGiveBack(m: Memory, h: InstalledHook, base: nat) {
    && (Dropped(h, base) ==> Mapped(m, h.slot, 8))
    && (Undone(h, base) ==> Removable(h) && Mapped(m, h.original, |h.originalBytes|))
  }

  /** Every hook can be given back when its turn comes. */
  predicate AllCanGiveBack(m: Memory, hooks: seq<InstalledHook>, base: nat) {
    hooks == [] ||
    (CanGiveBack(m, hooks[0], base) && AllCanGiveBack(GivenBack(m, hooks[0], base), hooks[1..], base))
  }

  /** Giving `h` back can change this byte. */
  predicate Touches(h: InstalledHook, base: nat, x: int) {
    Dropped(h, base) &&
    (InSlot(x, h) || InRange(x, h.trampoline, TRAMPOLINE_SIZE) || (Undone(h, base) && InPatch(x, h)))
  }

  predicate AnyTouches(hooks: seq<InstalledHook>, base: nat, x: int) {
    exists h :: h in hooks && Touches(h, base, x)
  }

  /** Whatever fails, bytes that no dropped hook holds are as they were. */
  predicate Contained(m: Memory, m': Memory, hooks: seq<InstalledHook>, base: nat) {
    forall x :: x in m && !AnyTouches(hooks, base, x) ==> x in m' && m'[x] == m[x]
  }

  predicate ContainedStep(m: Memory, m': Memory, h: InstalledHook, base: nat) {
    forall x :: x in m && !Touches(h, base, x) ==> x in m' && m'[x] == m[x]
  }

  lemma ContainedGrows(m: Memory, m1: Memory, m2: Memory, hooks: seq<InstalledHook>, h: InstalledHook, base: nat)
    requires Contained(m, m1, hooks, base) && h in hooks && ContainedStep(m1, m2, h, base)
    ensures Contained(m, m2, hooks, base)
  {
  }

  // ---------------------------------------------------------------- the erasing loop

  /** The loop has come to `rest`; `clean` says that every call so far succeeded. */
  ghost predicate Unloads(
    before: Memory, hooks: seq<InstalledHook>, base: nat, now: Memory, rest: seq<InstalledHook>, clean: bool,
    granted: bool)
  {
    && Contained(before, now, hooks, base) && (forall h :: h in rest ==> h in hooks)
    && (clean ==> GivenBackAll(before, hooks, base) == GivenBackAll(now, rest, base))
    && (clean ==> (AllCanGiveBack(before, hooks, base) <==> AllCanGiveBack(now, rest, base)))
    && (!clean && granted ==> !AllCanGiveBack(before, hooks, base))
  }

  lemma UnloadStart(before: Memory, hooks: seq<InstalledHook>, base: nat, granted: bool)
    ensures Unloads(before, hooks, base, before, hooks, true, granted)
  {
  }

  /** One hook looked at. */
  lemma UnloadStep(
    before: Memory, hooks: seq<InstalledHook>, base: nat, now: Memory, rest: seq<InstalledHook>, clean: bool,
    granted: bool, next: Memory, ok: bool)
    requires rest != [] && Unloads(before, hooks, base, now, rest, clean, granted)
    requires ok ==> CanGiveBack(now, rest[0], base) && next == GivenBack(now, rest[0], base)
    requires granted && !ok ==> !CanGiveBack(now, rest[0], base)
    requires ContainedStep(now, next, rest[0], base)
    ensures Unloads(before, hooks, base, next, rest[1..], clean && ok, granted)
  {
    ContainedGrows(before, now, next, hooks, rest[0], base);
  }

  lemma UnloadDone(
    before: Memory, hooks: seq<InstalledHook>, base: nat, now: Memory, rest: seq<InstalledHook>, clean: bool,
    granted: bool)
    requires Unloads(before, hooks, base, now, rest, clean, granted) && rest == []
    ensures clean ==> now == GivenBackAll(before, hooks, base)
    ensures granted ==> (clean <==> AllCanGiveBack(before, hooks, base))
    ensures Contained(before, now, hooks, base)
  {
  }

  /** If all calls succeed, no trampoline of the unloaded module's hooks is left. */
  lemma {:induction false} NoneGivenBackIsLeft(m: Memory, hooks: seq<InstalledHook>, base: nat, x: int)
    requires x in GivenBackAll(m, hooks, base)
    ensures x in m
    ensures forall h :: h in hooks && (h.target == base || h.source == base) ==> !InRange(x, h.trampoline, 1024)
    decreases |hooks|
  {
    if hooks != [] {
      NoneGivenBackIsLeft(GivenBack(m, hooks[0], base), hooks[1..], base, x);
      RemovalIs(m, hooks[0], x);
    }
  }

  // ---------------------------------------------------------------- whatever fails

  /** The saved bytes of `undone` written back, one hook after the other. */
  function AllRewritten(m: Memory, undone: seq<InstalledHook>): (r: Memory)
    ensures r.Keys == m.Keys
  {
    if undone == [] then m
    else Rewritten(AllRewritten(m, undone[..|undone| - 1]), undone[|undone| - 1])
  }

  /** Outside its slot and its trampoline, giving back `h` wrote its saved bytes back, or nothing. */
  predicate GivesBack(m: Memory, m': Memory, h: InstalledHook, undone: bool) {
    forall x :: x in m && !InSlot(x, h) && !InRange(x, h.trampoline, TRAMPOLINE_SIZE) ==>
      x in m' && m'[x] == if undone && InPatch(x, h) then Saved(h, x) else m[x]
  }

  predicate Elsewhere(hooks: seq<InstalledHook>, x: int) {
    forall h :: h in hooks ==> !InSlot(x, h) && !InRange(x, h.trampoline, TRAMPOLINE_SIZE)
  }

  /** Outside slots and trampolines, `m'` is `m` with the hooks of `undone` rewritten. */
  predicate RewrittenBy(m: Memory, m': Memory, hooks: seq<InstalledHook>, undone: seq<InstalledHook>) {
    forall x :: x in m && Elsewhere(hooks, x) ==> x in m' && m'[x] == AllRewritten(m, undone)[x]
  }

  /** `undone` are some of the first `n` hooks, in order. */
  predicate Chosen(hooks: seq<InstalledHook>, n: nat, undone: seq<InstalledHook>)
    requires n <= |hooks|
  {
    if n == 0 then undone == []
    else
      || Chosen(hooks, n - 1, undone)
      || (undone != [] && undone[|undone| - 1] == hooks[n - 1] && Chosen(hooks, n - 1, undone[..|undone| - 1]))
  }

  /** The loop has looked at `n` hooks: those in `undone` are undone, and all that should be if all went well. */
  predicate Undoing(
    before: Memory, hooks: seq<InstalledHook>, base: nat, now: Memory, n: nat, undone: seq<InstalledHook>,
    clean: bool)
  {
    && n <= |hooks| && Chosen(hooks, n, undone) && RewrittenBy(before, now, hooks, undone)
    && (forall h :: h in undone ==> h in hooks && Undone(h, base))
    && (clean ==> forall i :: 0 <= i < n && Undone(hooks[i], base) ==> hooks[i] in undone)
  }

  lemma UndoingStart(before: Memory, hooks: seq<InstalledHook>, base: nat)
    ensures Undoing(before, hooks, base, before, 0, [], true)
  {
  }

  lemma UndoingStep(
    before: Memory, hooks: seq<InstalledHook>, base: nat, now: Memory, n: nat, undone: seq<InstalledHook>,
    clean: bool, next: Memory, ok: bool, given: bool)
    requires Undoing(before, hooks, base, now, n, undone, clean) && n < |hooks|
    requires GivesBack(now, next, hooks[n], given)
    requires (given ==> Undone(hooks[n], base)) && (ok && Undone(hooks[n], base) ==> given)
    ensures
      Undoing(before, hooks, base, next, n + 1, if given then undone + [hooks[n]] else undone, clean && ok)
  {
    var more := if given then undone + [hooks[n]] else undone;
    if given {
      assert more[..|more| - 1] == undone;
    }
    assert hooks[n] in hooks;
  }

  lemma UndoingDone(
    before: Memory, hooks: seq<InstalledHook>, base: nat, now: Memory, undone: seq<InstalledHook>, clean: bool)
    requires Undoing(before, hooks, base, now, |hooks|, undone, clean)
    ensures Chosen(hooks, |hooks|, undone) && RewrittenBy(before, now, hooks, undone)
    ensures forall h :: h in undone ==> h in hooks && Undone(h, base)
    ensures clean ==> forall h :: h in hooks && Undone(h, base) ==> h in undone
  {
  }

  // ---------------------------------------------------------------- which bytes come back

  lemma GivenBackAt(m: Memory, h: InstalledHook, base: nat, x: int)
    requires x in m && !InRange(x, h.trampoline, TRAMPOLINE_SIZE) && !InSlot(x, h)
    ensures x in GivenBack(m, h, base)
    ensures GivenBack(m, h, base)[x] ==
      if Undone(h, base) && InPatch(x, h) then h.originalBytes[x - h.original] else m[x]
  {
    if Undone(h, base) {
      UnhookedAt(m, h, x);
    }
  }

  /** The newest hook that is undone and whose patch holds `x` is hook `k`. */
  predicate NewestUndone(hooks: seq<InstalledHook>, base: nat, k: nat, x: int) {
    && k < |hooks| && Undone(hooks[k], base) && InPatch(x, hooks[k])
    && forall j :: k < j < |hooks| ==> !(Undone(hooks[j], base) && InPatch(x, hooks[j]))
  }

  predicate OutsideSlots(hooks: seq<InstalledHook>, x: int) {
    forall j :: 0 <= j < |hooks| ==> !InSlot(x, hooks[j])
  }

  lemma {:induction false} NoneUndoneAt(m: Memory, hooks: seq<InstalledHook>, base: nat, x: int)
    requires x in m && OutsideTrampolines(hooks, x) && OutsideSlots(hooks, x)
    requires forall j :: 0 <= j < |hooks| ==> !(Undone(hooks[j], base) && InPatch(x, hooks[j]))
    ensures x in GivenBackAll(m, hooks, base) && GivenBackAll(m, hooks, base)[x] == m[x]
    decreases |hooks|
  {
    if hooks != [] {
      GivenBackAt(m, hooks[0], base, x);
      NoneUndoneAt(GivenBack(m, hooks[0], base), hooks[1..], base, x);
    }
  }

  lemma {:induction false} NewestUndoneAt(m: Memory, hooks: seq<InstalledHook>, base: nat, k: nat, x: int)
    requires x in m && OutsideTrampolines(hooks, x) && OutsideSlots(hooks, x) && NewestUndone(hooks, base, k, x)
    ensures x in GivenBackAll(m, hooks, base)
    ensures GivenBackAll(m, hooks, base)[x] == hooks[k].originalBytes[x - hooks[k].original]
    decreases |hooks|
  {
    GivenBackAt(m, hooks[0], base, x);
    if k == 0 {
      NoneUndoneAt(GivenBack(m, hooks[0], base), hooks[1..], base, x);
    } else {
      NewestUndoneAt(GivenBack(m, hooks[0], base), hooks[1..], base, k - 1, x);
    }
  }

  /**
   Unloading a module with patches in code that stays: a byte of it comes back exactly if the newest hook
   undone there went on while that byte was as at first, that is, over no older patch that had changed it.
   Where no hook is undone, the byte stays as it is.
   */
  lemma UnloadRestoresIff(
    decode: Decoder, code: set<int>, states: seq<Memory>, hooks: seq<InstalledHook>, m: Memory, base: nat, k: nat,
    x: int)
    requires History(decode, code, states, hooks) && x in code && x in m && OutsideSlots(hooks, x)
    ensures NewestUndone(hooks, base, k, x) ==>
      var r := GivenBackAll(m, hooks, base);
      && x in r && x in states[0] && x in states[k]
      && (r[x] == states[0][x] <==> states[k][x] == states[0][x])
    ensures (forall j :: 0 <= j < |hooks| ==> !(Undone(hooks[j], base) && InPatch(x, hooks[j]))) ==>
      x in GivenBackAll(m, hooks, base) && GivenBackAll(m, hooks, base)[x] == m[x]
  {
    OrderIsOutside(decode, code, states, hooks, hooks, x);
    if NewestUndone(hooks, base, k, x) {
      CodeStaysMapped(decode, code, states, hooks, x, k);
      NewestUndoneAt(m, hooks, base, k, x);
      InstallAt(decode, code, states[k], hooks[k], states[k + 1], x);
    }
    if forall j :: 0 <= j < |hooks| ==> !(Undone(hooks[j], base) && InPatch(x, hooks[j])) {
      NoneUndoneAt(m, hooks, base, x);
    }
  }

  /** With patches apart the code that stays is restored where a hook was undone. */
  lemma UnloadRestoresApart(
    decode: Decoder, code: set<int>, states: seq<Memory>, hooks: seq<InstalledHook>, m: Memory, base: nat, k: nat,
    x: int)
    requires History(decode, code, states, hooks) && AllApart(hooks) && x in code && x in m
    requires k < |hooks| && Undone(hooks[k], base) && InPatch(x, hooks[k])
    ensures x in GivenBackAll(m, hooks, base) && x in states[0]
    ensures GivenBackAll(m, hooks, base)[x] == states[0][x]
  {
    forall j | 0 <= j < |hooks| ensures !InSlot(x, hooks[j]) {
      assert PatchAndSlotApart(hooks[k], hooks[j]);
    }
    forall j | k < j < |hooks| ensures !InPatch(x, hooks[j]) {
      assert PatchesApart(hooks[k], hooks[j]);
    }
    CodeStaysMapped(decode, code, states, hooks, x, k);
    SavedAt(decode, code, states, hooks, x, k);
    OrderIsOutside(decode, code, states, hooks, hooks, x);
    NewestUndoneAt(m, hooks, base, k, x);
  }
}
