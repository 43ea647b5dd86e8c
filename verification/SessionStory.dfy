/** The log of a session: which hooks went on and came off, and what that says of every byte of code. */
module SessionStory {
  import opened Bytes
  import opened TargetMemory
  import opened Trampoline
  import opened HookManager
  import opened HookRestoration
  import opened HookLog
  import opened Unloading
  import opened Forwarders
  import opened Session

  /**
   The log, the code there is now, the hooks whose records went with a module while they were on, and all
   hooks that ever went on.
   */
  datatype Story = Story(log: Log, born: Births, lost: set<InstalledHook>, known: set<InstalledHook>)

  // ---------------------------------------------------------------- memory

  function Then(log: Log, c: Change, m: Memory): Log { Log(log.states + [m], log.changes + [c]) }

  /** The log tells how memory came to be as it is, as far as code goes. */
  ghost predicate Tracks(decode: Decoder, born: Births, log: Log, m: Memory) {
    Mixed(decode, born, log) && SameOn(born.Keys, log.Last(), m)
  }

  lemma RunTracks(decode: Decoder, born: Births, log: Log, m: Memory, m': Memory)
    requires Tracks(decode, born, log, m) && SameOn(born.Keys, m, m')
    ensures Tracks(decode, born, log, m')
  {
  }

  lemma TrackedIsMapped(decode: Decoder, born: Births, log: Log, m: Memory)
    requires Tracks(decode, born, log, m)
    ensures |log.states| == |log.changes| + 1 && forall x :: x in born ==> x in m && born[x] <= |log.changes|
    ensures Alive(born, |log.changes|) == born.Keys
  {
  }

  lemma AliveNow(born: Births, n: nat)
    requires forall x :: x in born ==> born[x] <= n
    ensures Alive(born, n) == born.Keys
  {
    forall x ensures x in Alive(born, n) <==> x in born.Keys {
      assert x in born.Keys <==> x in born;
    }
  }

  lemma ChangeTracks(decode: Decoder, born: Births, log: Log, c: Change, m': Memory)
    requires Mixed(decode, born, log) && Changes(decode, born.Keys, log.Last(), c, m')
    requires SlotElsewhere(born.Keys, c.hook)
    ensures Mixed(decode, born, Then(log, c, m')) && Then(log, c, m').Last() == m'
  {
    hide Changes, SlotElsewhere;
    var after := Then(log, c, m');
    AliveNow(born, |log.changes|);
    forall i | 0 <= i < |after.changes| ensures ChangeOk(decode, born, after, i) {
      if i < |log.changes| {
        assert ChangeOk(decode, born, log, i);
      }
    }
  }

  lemma PutChanges(decode: Decoder, code: set<int>, m: Memory, n: Memory, h: InstalledHook, m': Memory)
    requires SameOn(code, m, n) && Put(decode, n, h, m')
    ensures Changes(decode, code, m, On(h), m')
  {
    var handler: nat :| handler < WORD64 && m' == Hooked(n, h, handler);
    forall x | x in code ensures x in m' {
      assert x in n;
    }
    assert PutsOn(decode, code, m, h, m', n, handler);
  }

  lemma OnTracks(decode: Decoder, born: Births, log: Log, m: Memory, h: InstalledHook, m': Memory)
    requires Tracks(decode, born, log, m) && Put(decode, m, h, m') && SlotElsewhere(born.Keys, h)
    ensures Tracks(decode, born, Then(log, On(h), m'), m')
    ensures forall x :: x in born ==> !InRange(x, h.trampoline, TRAMPOLINE_SIZE)
  {
    hide Put, Describes;
    PutChanges(decode, born.Keys, log.Last(), m, h, m');
    ChangeTracks(decode, born, log, On(h), m');
    var after := Then(log, On(h), m');
    forall x | x in born ensures x in m' && !InRange(x, h.trampoline, TRAMPOLINE_SIZE) {
      ChangeAt(decode, born, after, |log.changes|, x);
    }
  }

  lemma OffTracks(decode: Decoder, born: Births, log: Log, m: Memory, h: InstalledHook)
    requires Tracks(decode, born, log, m) && SlotElsewhere(born.Keys, h)
    ensures Tracks(decode, born, Then(log, Off(h), Rewritten(m, h)), Rewritten(m, h))
  {
    ChangeTracks(decode, born, log, Off(h), Rewritten(m, h));
  }

  // ---------------------------------------------------------------- code comes and goes

  /** Code that was there keeps its birth; other code is born now. */
  function Reborn(born: Births, code: set<int>, n: nat): (r: Births)
    ensures r.Keys == code
  {
    map x | x in code :: if x in born then born[x] else n
  }

  /** Memory right now stands in for the last state of the log. */
  function Updated(log: Log, m: Memory): Log
    requires log.states != []
  {
    Log(log.states[..|log.states| - 1] + [m], log.changes)
  }

  lemma FewerChanges(decode: Decoder, code: set<int>, code': set<int>, m: Memory, c: Change, n: Memory, n': Memory)
    requires Changes(decode, code, m, c, n) && code' <= code && SameOn(code', n, n')
    ensures Changes(decode, code', m, c, n')
  {
    hide Describes, Hooked;
    if c.On? {
      var mid: Memory, handler: nat :| PutsOn(decode, code, m, c.hook, n, mid, handler);
      assert PutsOn(decode, code', m, c.hook, n', mid, handler);
    }
  }

  lemma RebirthOk(
    decode: Decoder, born: Births, log: Log, m: Memory, m': Memory, code: set<int>, i: nat)
    requires Tracks(decode, born, log, m) && SameOn(born.Keys * code, m, m') && i < |log.changes|
    ensures |log.states| == |log.changes| + 1
    ensures ChangeOk(decode, Reborn(born, code, |log.changes|), Updated(log, m'), i)
  {
    hide Changes;
    var born', log' := Reborn(born, code, |log.changes|), Updated(log, m');
    assert ChangeOk(decode, born, log, i);
    assert Alive(born', i) <= Alive(born, i) && Alive(born', i) <= born.Keys * code;
    forall x | x in Alive(born', i)
      ensures x in log.states[i + 1] && x in log'.states[i + 1] && log.states[i + 1][x] == log'.states[i + 1][x]
    {
      ChangeAt(decode, born, log, i, x);
    }
    FewerChanges(
      decode, Alive(born, i), Alive(born', i), log.states[i], log.changes[i], log.states[i + 1],
      log'.states[i + 1]);
  }

  lemma RebirthTracks(decode: Decoder, born: Births, log: Log, m: Memory, m': Memory, code: set<int>)
    requires Tracks(decode, born, log, m) && SameOn(born.Keys * code, m, m')
    requires forall x :: x in code ==> x in m'
    ensures |log.states| == |log.changes| + 1
    ensures Tracks(decode, Reborn(born, code, |log.changes|), Updated(log, m'), m')
    ensures
      var born', log' := Reborn(born, code, |log.changes|), Updated(log, m');
      forall x :: x in born && x in code ==>
        && born[x] < |log.states| && x in log.states[born[x]] && born'[x] == born[x]
        && x in log'.states[born[x]] && First(log', born', x) == First(log, born, x)
  {
    hide ChangeOk;
    var n := |log.changes|;
    var born', log' := Reborn(born, code, n), Updated(log, m');
    forall i | 0 <= i < n ensures ChangeOk(decode, born', log', i) {
      RebirthOk(decode, born, log, m, m', code, i);
    }
    forall x | x in born' ensures born'[x] <= n && x in log'.states[born'[x]] {
    }
  }

  // ---------------------------------------------------------------- which hooks are on

  lemma {:induction false} StillOnPrefix(changes: seq<Change>, more: seq<Change>, b: nat, n: nat)
    requires n <= |changes| && changes <= more
    ensures StillOn(more, b, n) == StillOn(changes, b, n)
    decreases n
  {
    if n > 0 {
      StillOnPrefix(changes, more, b, n - 1);
    }
  }

  lemma {:induction false} NestedPrefix(changes: seq<Change>, more: seq<Change>, b: nat, n: nat, x: int)
    requires n <= |changes| && changes <= more
    ensures Open(more, b, n, x) == Open(changes, b, n, x) && Nested(more, b, n, x) == Nested(changes, b, n, x)
    decreases n
  {
    if n > 0 {
      NestedPrefix(changes, more, b, n - 1, x);
    }
  }

  /** The hooks that went on from change `b` on and are on now. */
  function OnSince(changes: seq<Change>, b: nat): set<InstalledHook> { StillOn(changes, b, |changes|) }

  function AllOn(changes: seq<Change>): set<InstalledHook> { OnSince(changes, 0) }

  lemma OneMore(changes: seq<Change>, c: Change, b: nat)
    requires b <= |changes|
    ensures OnSince(changes + [c], b) ==
      if c.On? then OnSince(changes, b) + {c.hook} else OnSince(changes, b) - {c.hook}
  {
    StillOnPrefix(changes, changes + [c], b, |changes|);
  }

  /** What is known of one byte: nothing of a hook is there but its patch, and that went on since it was mapped. */
  predicate KnownAt(changes: seq<Change>, hooks: seq<InstalledHook>, b: nat, x: int) {
    && Elsewhere(hooks, x) && HonestAt(changes, b, x)
    && forall h :: h in hooks && InPatch(x, h) ==> h in OnSince(changes, b)
  }

  lemma HonestOneMore(changes: seq<Change>, c: Change, b: nat, x: int)
    requires b <= |changes| && HonestAt(changes, b, x)
    requires c.Off? && Over(c, x) ==> c.hook in OnSince(changes, b)
    ensures HonestAt(changes + [c], b, x)
  {
    var more := changes + [c];
    forall k | b <= k < |more| && more[k].Off? && Over(more[k], x) ensures more[k].hook in StillOn(more, b, k) {
      StillOnPrefix(changes, more, b, k);
      assert k < |changes| ==> more[k] == changes[k];
    }
  }

  /** The recorded hooks are on, and what else is on was lost when its module went. */
  predicate Accounts(changes: seq<Change>, hooks: seq<InstalledHook>, lost: set<InstalledHook>) {
    && (forall h :: h in hooks ==> h in AllOn(changes))
    && forall h :: h in AllOn(changes) ==> h in hooks || h in lost
  }

  /** The recorded hooks over `x`, oldest first. */
  function Covering(hooks: seq<InstalledHook>, x: int): seq<InstalledHook> {
    if hooks == [] then []
    else
      var h := hooks[|hooks| - 1];
      Covering(hooks[..|hooks| - 1], x) + if InPatch(x, h) then [h] else []
  }

  /** Hooks have come off in the reverse order so far, and just the recorded ones are left. */
  predicate InOrderAt(changes: seq<Change>, hooks: seq<InstalledHook>, b: nat, x: int) {
    Nested(changes, b, |changes|, x) && Open(changes, b, |changes|, x) == Covering(hooks, x)
  }

  predicate InOrder(changes: seq<Change>, hooks: seq<InstalledHook>, born: Births) {
    forall x :: x in born ==> InOrderAt(changes, hooks, born[x], x)
  }

  predicate AllKnown(changes: seq<Change>, hooks: seq<InstalledHook>, born: Births) {
    forall x :: x in born ==> KnownAt(changes, hooks, born[x], x)
  }

  predicate Listed(changes: seq<Change>, hooks: seq<InstalledHook>, known: set<InstalledHook>) {
    (forall c :: c in changes ==> c.hook in known) && (forall h :: h in hooks ==> h in known)
  }

  /** What a session knows of memory; if `ordered`, nothing came off out of turn. */
  ghost predicate Told(decode: Decoder, s: Story, ordered: bool, m: Memory, hooks: seq<InstalledHook>) {
    && Tracks(decode, s.born, s.log, m)
    && Accounts(s.log.changes, hooks, s.lost) && Listed(s.log.changes, hooks, s.known)
    && AllKnown(s.log.changes, hooks, s.born) && (ordered ==> InOrder(s.log.changes, hooks, s.born))
  }

  lemma ToldIsMapped(decode: Decoder, s: Story, ordered: bool, m: Memory, hooks: seq<InstalledHook>)
    requires Told(decode, s, ordered, m, hooks)
    ensures |s.log.states| == |s.log.changes| + 1
    ensures forall x :: x in s.born ==> x in m && s.born[x] <= |s.log.changes|
  {
    TrackedIsMapped(decode, s.born, s.log, m);
  }

  lemma NothingTold(decode: Decoder, code: set<int>, m: Memory)
    requires forall x :: x in code ==> x in m
    ensures Told(decode, Story(Log([m], []), Reborn(map[], code, 0), {}, {}), true, m, [])
  {
  }

  // ---------------------------------------------------------------- the program runs

  /** Nothing of any hook is at `x`. */
  predicate Unused(hooks: seq<InstalledHook>, x: int) {
    Elsewhere(hooks, x) && forall h :: h in hooks ==> !InPatch(x, h)
  }

  function Run(s: Story, m: Memory, code: set<int>): Story
    requires s.log.states != []
  {
    s.(log := Updated(s.log, m), born := Reborn(s.born, code, |s.log.changes|))
  }

  lemma {:induction false} UnusedIsUncovered(hooks: seq<InstalledHook>, x: int)
    requires forall h :: h in hooks ==> !InPatch(x, h)
    ensures Covering(hooks, x) == []
  {
    if hooks != [] {
      UnusedIsUncovered(hooks[..|hooks| - 1], x);
    }
  }

  lemma BornNow(changes: seq<Change>, hooks: seq<InstalledHook>, x: int)
    requires Unused(hooks, x)
    ensures KnownAt(changes, hooks, |changes|, x) && InOrderAt(changes, hooks, |changes|, x)
  {
    UnusedIsUncovered(hooks, x);
  }

  /** The program runs, and code may come and go: new code where no hook is. */
  lemma RunTold(
    decode: Decoder, s: Story, ordered: bool, m: Memory, hooks: seq<InstalledHook>, m': Memory, code: set<int>)
    requires Told(decode, s, ordered, m, hooks) && SameOn(s.born.Keys * code, m, m')
    requires forall x :: x in code ==> x in m' && (x in s.born || Unused(hooks, x))
    ensures s.log.states != [] && Told(decode, Run(s, m', code), ordered, m', hooks)
    ensures
      var s' := Run(s, m', code);
      forall x :: x in s.born && x in code ==>
        && s.born[x] < |s.log.states| && x in s.log.states[s.born[x]] && s'.born[x] == s.born[x]
        && s'.born[x] < |s'.log.states| && x in s'.log.states[s'.born[x]]
        && First(s'.log, s'.born, x) == First(s.log, s.born, x)
  {
    hide Tracks, KnownAt, InOrderAt, Accounts, Listed, Unused;
    TrackedIsMapped(decode, s.born, s.log, m);
    RebirthTracks(decode, s.born, s.log, m, m', code);
    var born' := Reborn(s.born, code, |s.log.changes|);
    forall x | x in born'
      ensures KnownAt(s.log.changes, hooks, born'[x], x)
      ensures ordered ==> InOrderAt(s.log.changes, hooks, born'[x], x)
    {
      if x !in s.born {
        BornNow(s.log.changes, hooks, x);
      }
    }
  }

  lemma LessOrdered(
    decode: Decoder, s: Story, ordered: bool, ordered': bool, m: Memory, hooks: seq<InstalledHook>)
    requires Told(decode, s, ordered, m, hooks) && (ordered' ==> ordered)
    ensures Told(decode, s, ordered', m, hooks)
  {
  }

  // ---------------------------------------------------------------- a hook goes on

  lemma OnKnownAt(changes: seq<Change>, hooks: seq<InstalledHook>, h: InstalledHook, b: nat, x: int)
    requires KnownAt(changes, hooks, b, x) && b <= |changes|
    requires !InSlot(x, h) && !InRange(x, h.trampoline, TRAMPOLINE_SIZE)
    ensures KnownAt(changes + [On(h)], hooks + [h], b, x)
  {
    OneMore(changes, On(h), b);
    HonestOneMore(changes, On(h), b, x);
  }

  lemma OnInOrderAt(changes: seq<Change>, hooks: seq<InstalledHook>, h: InstalledHook, b: nat, x: int)
    requires InOrderAt(changes, hooks, b, x) && b <= |changes|
    ensures InOrderAt(changes + [On(h)], hooks + [h], b, x)
  {
    NestedPrefix(changes, changes + [On(h)], b, |changes|, x);
    assert (hooks + [h])[..|hooks|] == hooks;
  }

  lemma HookTold(
    decode: Decoder, s: Story, ordered: bool, m: Memory, hooks: seq<InstalledHook>, h: InstalledHook, m': Memory)
    returns (s': Story)
    requires Told(decode, s, ordered, m, hooks)
    requires Put(decode, m, h, m') && SlotElsewhere(s.born.Keys, h)
    ensures s' == s.(log := Then(s.log, On(h), m'), known := s.known + {h})
    ensures Told(decode, s', ordered, m', hooks + [h])
  {
    hide Put, Tracks, KnownAt, InOrderAt;
    s' := s.(log := Then(s.log, On(h), m'), known := s.known + {h});
    TrackedIsMapped(decode, s.born, s.log, m);
    OnTracks(decode, s.born, s.log, m, h, m');
    OneMore(s.log.changes, On(h), 0);
    forall x | x in s.born
      ensures KnownAt(s'.log.changes, hooks + [h], s.born[x], x)
      ensures ordered ==> InOrderAt(s'.log.changes, hooks + [h], s.born[x], x)
    {
      OnKnownAt(s.log.changes, hooks, h, s.born[x], x);
      if ordered {
        OnInOrderAt(s.log.changes, hooks, h, s.born[x], x);
      }
    }
  }

  // ---------------------------------------------------------------- hooks come off

  function Offs(undone: seq<InstalledHook>): (r: seq<Change>)
    ensures |r| == |undone|
  {
    if undone == [] then [] else Offs(undone[..|undone| - 1]) + [Off(undone[|undone| - 1])]
  }

  lemma OffsLast(changes: seq<Change>, undone: seq<InstalledHook>)
    requires undone != []
    ensures
      changes + Offs(undone) == (changes + Offs(undone[..|undone| - 1])) + [Off(undone[|undone| - 1])]
  {
    Regroup(changes, Offs(undone[..|undone| - 1]), Off(undone[|undone| - 1]));
  }

  lemma Regroup(a: seq<Change>, b: seq<Change>, c: Change)
    ensures a + (b + [c]) == (a + b) + [c]
  {
  }

  lemma OffsNone(changes: seq<Change>)
    ensures changes + Offs([]) == changes
  {
  }

  predicate NoTwice(hooks: seq<InstalledHook>) { forall i, j :: 0 <= i < j < |hooks| ==> hooks[i] != hooks[j] }

  function AsSet(hooks: seq<InstalledHook>): set<InstalledHook> { set h | h in hooks }

  lemma LastOne(undone: seq<InstalledHook>)
    requires undone != [] && NoTwice(undone)
    ensures
      var front, h := undone[..|undone| - 1], undone[|undone| - 1];
      NoTwice(front) && h !in front && undone == front + [h] && AsSet(undone) == AsSet(front) + {h}
  {
    var front, h := undone[..|undone| - 1], undone[|undone| - 1];
    assert undone == front + [h];
  }

  /** The removals of an unload, in the order they happened. */
  lemma {:induction false} OffsTrack(decode: Decoder, born: Births, log: Log, m: Memory, undone: seq<InstalledHook>)
    returns (log': Log)
    requires Tracks(decode, born, log, m) && forall h :: h in undone ==> SlotElsewhere(born.Keys, h)
    ensures Tracks(decode, born, log', AllRewritten(m, undone)) && log'.changes == log.changes + Offs(undone)
    ensures |log.states| == |log.changes| + 1 && log.states <= log'.states
    decreases |undone|
  {
    hide Tracks, SlotElsewhere;
    TrackedIsMapped(decode, born, log, m);
    if undone == [] {
      log' := log;
    } else {
      var front, h := undone[..|undone| - 1], undone[|undone| - 1];
      var before := OffsTrack(decode, born, log, m, front);
      assert h in undone;
      OffTracks(decode, born, before, AllRewritten(m, front), h);
      log' := Then(before, Off(h), Rewritten(AllRewritten(m, front), h));
    }
  }

  lemma {:induction false} OffsOn(changes: seq<Change>, undone: seq<InstalledHook>, b: nat)
    requires b <= |changes| && NoTwice(undone)
    ensures OnSince(changes + Offs(undone), b) == OnSince(changes, b) - AsSet(undone)
    decreases |undone|
  {
    hide OnSince, Offs, NoTwice;
    if undone == [] {
      OffsNone(changes);
    } else {
      var front, h := undone[..|undone| - 1], undone[|undone| - 1];
      LastOne(undone);
      OffsOn(changes, front, b);
      OneMore(changes + Offs(front), Off(h), b);
      OffsLast(changes, undone);
    }
  }

  lemma {:induction false} OffsHonest(changes: seq<Change>, undone: seq<InstalledHook>, b: nat, x: int)
    requires b <= |changes| && NoTwice(undone) && HonestAt(changes, b, x)
    requires forall h :: h in undone && InPatch(x, h) ==> h in OnSince(changes, b)
    ensures HonestAt(changes + Offs(undone), b, x)
    decreases |undone|
  {
    hide OnSince, HonestAt, Offs, NoTwice;
    if undone == [] {
      OffsNone(changes);
    } else {
      var front, h := undone[..|undone| - 1], undone[|undone| - 1];
      LastOne(undone);
      assert forall g :: g in front ==> g in undone;
      OffsHonest(changes, front, b, x);
      OffsOn(changes, front, b);
      assert h in undone && h !in AsSet(front);
      HonestOneMore(changes + Offs(front), Off(h), b, x);
      OffsLast(changes, undone);
    }
  }

  /** Removals elsewhere change nothing at `x`. */
  lemma {:induction false} OffsMiss(changes: seq<Change>, undone: seq<InstalledHook>, b: nat, x: int)
    requires forall h :: h in undone ==> !InPatch(x, h)
    ensures
      var more := changes + Offs(undone);
      && Nested(more, b, |more|, x) == Nested(changes, b, |changes|, x)
      && Open(more, b, |more|, x) == Open(changes, b, |changes|, x)
    decreases |undone|
  {
    if undone == [] {
      OffsNone(changes);
    } else {
      var front, h := undone[..|undone| - 1], undone[|undone| - 1];
      assert undone == front + [h] && h in undone;
      OffsMiss(changes, front, b, x);
      OffMiss(changes + Offs(front), h, b, x);
      OffsLast(changes, undone);
    }
  }

  lemma OffMiss(changes: seq<Change>, h: InstalledHook, b: nat, x: int)
    requires !InPatch(x, h)
    ensures
      var more := changes + [Off(h)];
      && Nested(more, b, |more|, x) == Nested(changes, b, |changes|, x)
      && Open(more, b, |more|, x) == Open(changes, b, |changes|, x)
  {
    var more := changes + [Off(h)];
    NestedPrefix(changes, more, b, |changes|, x);
    if |more| <= b {
      NestedBefore(changes, b, |changes|, x);
    }
  }

  lemma NestedBefore(changes: seq<Change>, b: nat, n: nat, x: int)
    requires n <= |changes| && n <= b
    ensures Nested(changes, b, n, x) && Open(changes, b, n, x) == []
  {
  }

  lemma OffHit(changes: seq<Change>, h: InstalledHook, b: nat, x: int)
    requires InPatch(x, h) && b <= |changes| && Nested(changes, b, |changes|, x)
    requires
      var open := Open(changes, b, |changes|, x);
      open != [] && open[|open| - 1] == h
    ensures
      var more, open := changes + [Off(h)], Open(changes, b, |changes|, x);
      Nested(more, b, |more|, x) && Open(more, b, |more|, x) == open[..|open| - 1]
  {
    NestedPrefix(changes, changes + [Off(h)], b, |changes|, x);
  }

  /** If just one of them is over `x`, and it is the only hook over `x`, nothing is over `x` afterwards. */
  lemma {:induction false} OffsHit(changes: seq<Change>, undone: seq<InstalledHook>, h: InstalledHook, b: nat, x: int)
    requires NoTwice(undone) && h in undone && InPatch(x, h) && b <= |changes|
    requires forall g :: g in undone && InPatch(x, g) ==> g == h
    requires Nested(changes, b, |changes|, x) && Open(changes, b, |changes|, x) == [h]
    ensures
      var more := changes + Offs(undone);
      Nested(more, b, |more|, x) && Open(more, b, |more|, x) == []
    decreases |undone|
  {
    hide Offs, Nested, Open, NoTwice;
    var front, last := undone[..|undone| - 1], undone[|undone| - 1];
    LastOne(undone);
    assert last in undone && forall g :: g in front ==> g in undone;
    if last == h {
      OffsMiss(changes, front, b, x);
      OffHit(changes + Offs(front), h, b, x);
    } else {
      OffsHit(changes, front, h, b, x);
      OffMiss(changes + Offs(front), last, b, x);
    }
    OffsLast(changes, undone);
  }

  // ---------------------------------------------------------------- an unload

  lemma DifferentOnes(modules: Modules, hooks: seq<InstalledHook>)
    requires HooksOk(modules, hooks)
    ensures NoTwice(hooks)
  {
    forall i, j | 0 <= i < j < |hooks| ensures hooks[i] != hooks[j] {
      assert Different(hooks[i], hooks[j]);
    }
  }

  lemma {:induction false} ChosenOnce(hooks: seq<InstalledHook>, n: nat, undone: seq<InstalledHook>)
    requires n <= |hooks| && NoTwice(hooks) && Chosen(hooks, n, undone)
    ensures NoTwice(undone) && forall h :: h in undone ==> h in hooks[..n]
    decreases n
  {
    if n > 0 {
      if Chosen(hooks, n - 1, undone) {
        ChosenOnce(hooks, n - 1, undone);
        assert hooks[..n - 1] <= hooks[..n];
      } else {
        var front := undone[..|undone| - 1];
        ChosenOnce(hooks, n - 1, front);
        assert hooks[..n] == hooks[..n - 1] + [hooks[n - 1]];
        assert undone == front + [hooks[n - 1]];
        forall i, j | 0 <= i < j < |undone| ensures undone[i] != undone[j] {
          if j == |front| {
            assert front[i] in front;
            var k :| 0 <= k < n - 1 && hooks[k] == front[i];
          }
        }
      }
    }
  }

  function DroppedOnes(hooks: seq<InstalledHook>, base: nat): set<InstalledHook> {
    set h | h in hooks && Dropped(h, base)
  }

  lemma KnownIsElsewhere(changes: seq<Change>, hooks: seq<InstalledHook>, born: Births)
    requires AllKnown(changes, hooks, born)
    ensures forall h :: h in hooks ==> SlotElsewhere(born.Keys, h)
    ensures forall x :: x in born ==> Elsewhere(hooks, x)
  {
    forall x | x in born ensures Elsewhere(hooks, x) {
      assert KnownAt(changes, hooks, born[x], x);
    }
  }

  lemma RewrittenAgrees(
    code: set<int>, m: Memory, hooks: seq<InstalledHook>, undone: seq<InstalledHook>, m': Memory)
    requires RewrittenBy(m, m', hooks, undone) && forall x :: x in code ==> x in m && Elsewhere(hooks, x)
    ensures SameOn(code, AllRewritten(m, undone), m')
  {
  }

  /** No two hooks over a byte of code, and those over one that are dropped are undone. */
  predicate Calm(
    hooks: seq<InstalledHook>, base: nat, undone: seq<InstalledHook>, born: Births)
  {
    && (forall x, g, h :: x in born && g in hooks && h in hooks && InPatch(x, g) && InPatch(x, h) ==> g == h)
    && forall x, h :: x in born && h in hooks && Dropped(h, base) && InPatch(x, h) ==> h in undone
  }

  lemma {:induction false} OnlyCovering(hooks: seq<InstalledHook>, h: InstalledHook, x: int)
    requires NoTwice(hooks) && h in hooks && InPatch(x, h)
    requires forall g :: g in hooks && InPatch(x, g) ==> g == h
    ensures Covering(hooks, x) == [h]
  {
    var front, last := hooks[..|hooks| - 1], hooks[|hooks| - 1];
    LastOne(hooks);
    assert last in hooks && forall g :: g in front ==> g in hooks;
    if last == h {
      forall g | g in front ensures !InPatch(x, g) {
        assert g in hooks;
      }
      UnusedIsUncovered(front, x);
    } else {
      OnlyCovering(front, h, x);
    }
  }

  /** A calm unload leaves just the recorded hooks over `x`. */
  lemma CalmInOrderAt(
    changes: seq<Change>, hooks: seq<InstalledHook>, rest: seq<InstalledHook>, base: nat,
    undone: seq<InstalledHook>, born: Births, x: int)
    requires x in born && born[x] <= |changes| && InOrderAt(changes, hooks, born[x], x)
    requires Calm(hooks, base, undone, born) && NoTwice(hooks) && NoTwice(undone) && NoTwice(rest)
    requires forall h :: h in undone ==> h in hooks && Undone(h, base)
    requires forall h :: h in rest <==> h in hooks && !Dropped(h, base)
    ensures InOrderAt(changes + Offs(undone), rest, born[x], x)
  {
    if h :| h in hooks && InPatch(x, h) {
      OnlyCovering(hooks, h, x);
      if Dropped(h, base) {
        OffsHit(changes, undone, h, born[x], x);
        UnusedIsUncovered(rest, x);
      } else {
        OffsMiss(changes, undone, born[x], x);
        OnlyCovering(rest, h, x);
      }
    } else {
      UnusedIsUncovered(hooks, x);
      UnusedIsUncovered(rest, x);
      OffsMiss(changes, undone, born[x], x);
    }
  }

  lemma UnloadKnownAt(
    changes: seq<Change>, hooks: seq<InstalledHook>, rest: seq<InstalledHook>, undone: seq<InstalledHook>, b: nat,
    x: int)
    requires b <= |changes| && KnownAt(changes, hooks, b, x) && NoTwice(undone)
    requires forall h :: h in undone ==> h in hooks
    requires forall h :: h in rest ==> h in hooks && h !in undone
    ensures KnownAt(changes + Offs(undone), rest, b, x)
  {
    OffsOn(changes, undone, b);
    OffsHonest(changes, undone, b, x);
  }

  lemma {:induction false} OffsAreListed(undone: seq<InstalledHook>)
    ensures forall c :: c in Offs(undone) ==> c.hook in undone
  {
    if undone != [] {
      OffsAreListed(undone[..|undone| - 1]);
    }
  }

  lemma UnloadAccounts(
    changes: seq<Change>, hooks: seq<InstalledHook>, rest: seq<InstalledHook>, base: nat,
    undone: seq<InstalledHook>, lost: set<InstalledHook>, known: set<InstalledHook>)
    requires Accounts(changes, hooks, lost) && Listed(changes, hooks, known) && NoTwice(undone)
    requires forall h :: h in undone ==> h in hooks && Undone(h, base)
    requires forall h :: h in rest <==> h in hooks && !Dropped(h, base)
    ensures Accounts(changes + Offs(undone), rest, lost + DroppedOnes(hooks, base))
    ensures Listed(changes + Offs(undone), rest, known)
  {
    hide OnSince;
    OffsOn(changes, undone, 0);
    OffsAreListed(undone);
  }

  /** An unload: the records of its hooks are gone, whether or not they came off. */
  lemma UnloadTold(
    decode: Decoder, s: Story, ordered: bool, m: Memory, hooks: seq<InstalledHook>, modules: Modules, base: nat,
    undone: seq<InstalledHook>, m': Memory)
    returns (s': Story)
    requires Told(decode, s, ordered, m, hooks) && HooksOk(modules, hooks)
    requires Chosen(hooks, |hooks|, undone) && RewrittenBy(m, m', hooks, undone)
    requires forall h :: h in undone ==> h in hooks && Undone(h, base)
    ensures s'.born == s.born && s'.known == s.known && s'.lost == s.lost + DroppedOnes(hooks, base)
    ensures s'.log.states != [] && s.log.states <= s'.log.states
    ensures
      Told(decode, s', ordered && Calm(hooks, base, undone, s.born), m', WithoutModule(hooks, base))
  {
    hide Tracks, KnownAt, InOrderAt, HooksOk, SlotElsewhere, Elsewhere, RewrittenBy, Calm, Accounts, Listed;
    hide WithoutModule;
    var rest, changes := WithoutModule(hooks, base), s.log.changes;
    TrackedIsMapped(decode, s.born, s.log, m);
    DifferentOnes(modules, hooks);
    ChosenOnce(hooks, |hooks|, undone);
    WithoutModuleOk(modules, hooks, base);
    DifferentOnes(modules - {base}, rest);
    KnownIsElsewhere(changes, hooks, s.born);
    RewrittenAgrees(s.born.Keys, m, hooks, undone, m');
    var log' := OffsTrack(decode, s.born, s.log, m, undone);
    RunTracks(decode, s.born, log', AllRewritten(m, undone), m');
    TrackedIsMapped(decode, s.born, log', m');
    UnloadAccounts(changes, hooks, rest, base, undone, s.lost, s.known);
    s' := s.(log := log', lost := s.lost + DroppedOnes(hooks, base));
    forall x | x in s.born
      ensures KnownAt(log'.changes, rest, s.born[x], x)
      ensures ordered && Calm(hooks, base, undone, s.born) ==> InOrderAt(log'.changes, rest, s.born[x], x)
    {
      UnloadKnownAt(changes, hooks, rest, undone, s.born[x], x);
      if ordered && Calm(hooks, base, undone, s.born) {
        CalmInOrderAt(changes, hooks, rest, base, undone, s.born, x);
      }
    }
  }

  // ---------------------------------------------------------------- the cleanup

  lemma UnhookedAgrees(code: set<int>, m: Memory, h: InstalledHook)
    requires forall x :: x in code ==> x in m && !InRange(x, h.trampoline, TRAMPOLINE_SIZE)
    requires SlotElsewhere(code, h)
    ensures SameOn(code, Rewritten(m, h), Unhooked(m, h))
  {
    forall x | x in code ensures x in Unhooked(m, h) && Rewritten(m, h)[x] == Unhooked(m, h)[x] {
      UnhookedAt(m, h, x);
    }
  }

  lemma LastOffKnownAt(changes: seq<Change>, hooks: seq<InstalledHook>, b: nat, x: int)
    requires KnownAt(changes, hooks, b, x) && b <= |changes| && hooks != [] && NoTwice(hooks)
    ensures KnownAt(changes + [Off(hooks[|hooks| - 1])], hooks[..|hooks| - 1], b, x)
  {
    LastOne(hooks);
    var h := hooks[|hooks| - 1];
    assert h in hooks;
    OneMore(changes, Off(h), b);
    HonestOneMore(changes, Off(h), b, x);
  }

  lemma LastOffInOrderAt(changes: seq<Change>, hooks: seq<InstalledHook>, b: nat, x: int)
    requires InOrderAt(changes, hooks, b, x) && b <= |changes| && hooks != []
    ensures InOrderAt(changes + [Off(hooks[|hooks| - 1])], hooks[..|hooks| - 1], b, x)
  {
    var h := hooks[|hooks| - 1];
    if InPatch(x, h) { OffHit(changes, h, b, x); } else { OffMiss(changes, h, b, x); }
  }

  lemma LastOffAccounts(
    changes: seq<Change>, hooks: seq<InstalledHook>, lost: set<InstalledHook>, known: set<InstalledHook>)
    requires Accounts(changes, hooks, lost) && Listed(changes, hooks, known) && hooks != [] && NoTwice(hooks)
    ensures Accounts(changes + [Off(hooks[|hooks| - 1])], hooks[..|hooks| - 1], lost)
    ensures Listed(changes + [Off(hooks[|hooks| - 1])], hooks[..|hooks| - 1], known)
  {
    hide OnSince;
    var front, h := hooks[..|hooks| - 1], hooks[|hooks| - 1];
    LastOne(hooks);
    OneMore(changes, Off(h), 0);
    assert forall g :: g in hooks <==> g in front || g == h;
  }

  lemma LastOffTold(decode: Decoder, s: Story, ordered: bool, m: Memory, hooks: seq<InstalledHook>)
    returns (s': Story)
    requires Told(decode, s, ordered, m, hooks) && hooks != [] && NoTwice(hooks)
    ensures s'.born == s.born && s'.known == s.known && s'.lost == s.lost
    ensures s'.log.states != [] && s.log.states <= s'.log.states
    ensures Told(decode, s', ordered, Unhooked(m, hooks[|hooks| - 1]), hooks[..|hooks| - 1])
  {
    hide Tracks, KnownAt, InOrderAt, SlotElsewhere, Accounts, Listed;
    var rest, h, changes := hooks[..|hooks| - 1], hooks[|hooks| - 1], s.log.changes;
    assert h in hooks;
    TrackedIsMapped(decode, s.born, s.log, m);
    KnownIsElsewhere(changes, hooks, s.born);
    forall x | x in s.born ensures !InRange(x, h.trampoline, TRAMPOLINE_SIZE) {
      assert Elsewhere(hooks, x);
    }
    OffTracks(decode, s.born, s.log, m, h);
    UnhookedAgrees(s.born.Keys, m, h);
    var log' := Then(s.log, Off(h), Rewritten(m, h));
    RunTracks(decode, s.born, log', Rewritten(m, h), Unhooked(m, h));
    LastOffAccounts(changes, hooks, s.lost, s.known);
    s' := s.(log := log');
    forall x | x in s.born
      ensures KnownAt(log'.changes, rest, s.born[x], x)
      ensures ordered ==> InOrderAt(log'.changes, rest, s.born[x], x)
    {
      LastOffKnownAt(changes, hooks, s.born[x], x);
      if ordered {
        LastOffInOrderAt(changes, hooks, s.born[x], x);
      }
    }
  }

  lemma {:induction false} BackwardsTold(
    decode: Decoder, s: Story, ordered: bool, m: Memory, hooks: seq<InstalledHook>, k: nat)
    returns (s': Story)
    requires k <= |hooks| && NoTwice(hooks) && Told(decode, s, ordered, m, hooks[..k])
    ensures s'.born == s.born && s'.known == s.known && s'.lost == s.lost
    ensures s'.log.states != [] && s.log.states <= s'.log.states
    ensures Told(decode, s', ordered, UnhookedBackwards(m, hooks, k), [])
    decreases k
  {
    hide Told, Unhooked;
    ToldIsMapped(decode, s, ordered, m, hooks[..k]);
    if k == 0 {
      assert hooks[..0] == [];
      s' := s;
    } else {
      assert hooks[..k][..k - 1] == hooks[..k - 1];
      var next := LastOffTold(decode, s, ordered, m, hooks[..k]);
      s' := BackwardsTold(decode, next, ordered, Unhooked(m, hooks[k - 1]), hooks, k - 1);
    }
  }

  /** Memory given back that is not code. */
  lemma SameTold(decode: Decoder, s: Story, ordered: bool, m: Memory, hooks: seq<InstalledHook>, m': Memory)
    requires Told(decode, s, ordered, m, hooks) && SameOn(s.born.Keys, m, m')
    ensures Told(decode, s, ordered, m', hooks)
  {
    hide Mixed, KnownAt, InOrderAt, Accounts, Listed;
    RunTracks(decode, s.born, s.log, m, m');
  }

  /** What the story says of the end: with no hook recorded any more, code is as when it was mapped. */
  lemma ToldRestores(decode: Decoder, s: Story, ordered: bool, m: Memory, x: int)
    requires Told(decode, s, ordered, m, []) && x in s.born
    requires ordered || Closed(s.log.changes, s.born[x], x)
    ensures s.born[x] < |s.log.states| && x in s.log.states[s.born[x]] && x in m
    ensures m[x] == First(s.log, s.born, x)
  {
    hide Mixed, Closed, KnownAt;
    if ordered {
      OrderedCloses(s.log.changes, s.born[x], x);
    }
    ClosedRestores(decode, s.born, s.log, x);
  }

  lemma OrderedCloses(changes: seq<Change>, b: nat, x: int)
    requires InOrderAt(changes, [], b, x)
    ensures Closed(changes, b, x)
  {
  }
}
