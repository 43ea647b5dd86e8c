/** A clean stop: what the debugger checks, what it then does, and what the program is left with. */
module CleanStop {
  import opened Bytes
  import opened TargetMemory
  import opened HookManager
  import opened HookRestoration
  import opened Session
  import opened Transport
  import opened Forwarders
  import Trampoline
  import Quiescence

  /** The debugger's records describe the instrumentation that is in the process. */
  ghost predicate Mirrors(s: Quiescence.State, imageBase: nat, imageSize: nat, hooks: seq<InstalledHook>) {
    && imageBase != 0 && s.installed && s.image == Quiescence.Range(imageBase, imageSize)
    && |s.sites| == |hooks|
    && forall i :: 0 <= i < |hooks| ==> s.sites[i] == SiteOf(hooks[i])
  }

  function SiteOf(h: InstalledHook): Quiescence.Site {
    Quiescence.Site(
      Quiescence.Range(h.original, |h.originalBytes|), Quiescence.Range(h.trampoline, TRAMPOLINE_SIZE))
  }

  /** Every thread is in the snapshot, and what is learnt about it, if anything, is where it runs. */
  ghost predicate Snapshot(s: Quiescence.State, processId: nat, entries: seq<ThreadEntry>) {
    forall t :: t in s.threads ==> exists e :: e in entries && Describing(s, processId, t, e)
  }

  predicate Describing(s: Quiescence.State, processId: nat, t: Quiescence.Tid, e: ThreadEntry)
    requires t in s.threads
  {
    && e.owner == processId && e.id == t
    && match e.access
       case Gone => false
       case Denied => true
       case NoContext => true
       case At(ip) => ip == Quiescence.Top(s.threads[t]).rip
  }

  lemma SameAddresses(s: Quiescence.State, imageBase: nat, imageSize: nat, hooks: seq<InstalledHook>, ip: int)
    requires Mirrors(s, imageBase, imageSize, hooks)
    ensures Quiescence.Watched(s, ip) <==> Instrumentation(imageBase, imageSize, hooks, ip)
  {
    forall i | 0 <= i < |hooks|
      ensures HookCovers(hooks[i], ip) <==> s.sites[i].patch.Has(ip) || s.sites[i].trampoline.Has(ip)
    {
      assert s.sites[i] == SiteOf(hooks[i]);
    }
  }

  /** What IsCleanupQuiescent establishes about the process. */
  lemma PassedCheck(
    s: Quiescence.State, processId: nat, entries: seq<ThreadEntry>, imageBase: nat, imageSize: nat,
    hooks: seq<InstalledHook>)
    requires Mirrors(s, imageBase, imageSize, hooks) && Snapshot(s, processId, entries) && s.active == 0
    requires forall e :: e in entries && e.owner == processId ==> Harmless(imageBase, imageSize, hooks, e.access)
    ensures Quiescence.CheckPasses(s)
  {
    forall t | t in s.threads ensures !Quiescence.Watched(s, Quiescence.Top(s.threads[t]).rip) {
      var e :| e in entries && Describing(s, processId, t, e);
      SameAddresses(s, imageBase, imageSize, hooks, Quiescence.Top(s.threads[t]).rip);
    }
  }

  /** The hook image and the two bypasses are where the debugger has them. */
  ghost predicate MirrorsRemote(s: Quiescence.State, remote: Remote) {
    && s.image == Quiescence.Range(remote.image.start, remote.image.size)
    && remote.setEvent.Some? && remote.readMemory.Some?
    && s.bypasses ==
         [ Quiescence.Range(remote.setEvent.value.address, TRAMPOLINE_SIZE),
           Quiescence.Range(remote.readMemory.value.address, TRAMPOLINE_SIZE)]
  }

  /** Where the debugger's code was. */
  predicate Gone(remote: Remote, hooks: seq<InstalledHook>, x: int) {
    || InRange(x, remote.image.start, remote.image.size)
    || (remote.setEvent.Some? && InRange(x, remote.setEvent.value.address, TRAMPOLINE_SIZE))
    || (remote.readMemory.Some? && InRange(x, remote.readMemory.value.address, TRAMPOLINE_SIZE))
    || exists i :: 0 <= i < |hooks| && InRange(x, hooks[i].trampoline, TRAMPOLINE_SIZE)
  }

  lemma GoneIsFreed(
    s: Quiescence.State, imageBase: nat, imageSize: nat, hooks: seq<InstalledHook>, remote: Remote, x: int)
    requires Mirrors(s, imageBase, imageSize, hooks) && MirrorsRemote(s, remote) && Gone(remote, hooks, x)
    ensures Quiescence.InFreed(s, x)
  {
    if i :| 0 <= i < |hooks| && InRange(x, hooks[i].trampoline, TRAMPOLINE_SIZE) {
      assert s.sites[i] == SiteOf(hooks[i]) && s.sites[i].trampoline.Has(x);
    }
    if InRange(x, remote.setEvent.value.address, TRAMPOLINE_SIZE) {
      assert s.bypasses[0].Has(x);
    }
    if InRange(x, remote.readMemory.value.address, TRAMPOLINE_SIZE) {
      assert s.bypasses[1].Has(x);
    }
  }

  /** Giving back the transport and the hook image leaves restored code restored. */
  lemma TearDownKeepsCode(
    code: set<int>, hooks: seq<InstalledHook>, m: Trampoline.Memory, m': Trampoline.Memory, exports: Exports,
    remote: Remote)
    requires Restored(code, hooks, m, m') && forall x :: x in code ==> !Remotely(x, exports, remote)
    ensures Restored(code, hooks, m, TornDown(m', exports, remote))
  {
    var r := TornDown(m', exports, remote);
    forall x | x in code ensures x in m && x in r && (r[x] == m[x] || (r[x] == 0 && InSomeSlot(x, hooks))) {
      TornDownAt(m', exports, remote, x);
    }
  }

  /**
   The end of a clean stop. The process ran from before the first hook to where it is now stopped, the check
   passes, and hooks, transport and hook image are taken out. Then the code is what it was, no activation was
   caught inside a restored function, and in every later state no thread is at, or will return to, an address
   where the debugger's code was.
   */
  lemma CleanStopIsSafe(
    init: Quiescence.State, before: seq<Quiescence.Step>, stopped: Quiescence.State,
    after: seq<Quiescence.Step>, later: Quiescence.State,
    processId: nat, entries: seq<ThreadEntry>, imageBase: nat, imageSize: nat, hooks: seq<InstalledHook>,
    decode: Trampoline.Decoder, code: set<int>, states: seq<Trampoline.Memory>, memory: Trampoline.Memory,
    exports: Exports, remote: Remote)
    requires Quiescence.Init(init) && Quiescence.Run(init, before, stopped)
    requires Mirrors(stopped, imageBase, imageSize, hooks) && MirrorsRemote(stopped, remote)
    requires Snapshot(stopped, processId, entries) && stopped.active == 0
    requires forall e :: e in entries && e.owner == processId ==> Harmless(imageBase, imageSize, hooks, e.access)
    requires History(decode, code, states, hooks) && SameOn(code, states[|hooks|], memory)
    requires forall x :: x in code ==> !Remotely(x, exports, remote)
    requires
      Quiescence.CheckPasses(stopped) ==>
        Quiescence.Run(Quiescence.Next(stopped, Quiescence.Remove), after, later)
    ensures Quiescence.AllUninstrumented(later)
    ensures forall t :: t in later.threads ==> NoFrameAtGone(remote, hooks, later.threads[t])
    ensures forall t :: t in stopped.threads ==> Quiescence.NoFrameInPatches(stopped, stopped.threads[t])
    ensures Restored(code, hooks, states[0], UnhookedBackwards(memory, hooks, |hooks|))
    ensures
      Restored(code, hooks, states[0], TornDown(UnhookedBackwards(memory, hooks, |hooks|), exports, remote))
  {
    hide TornDown, Restored, Remotely, Quiescence.Run, Harmless;
    PassedCheck(stopped, processId, entries, imageBase, imageSize, hooks);
    Quiescence.SafeRemoval(init, before, stopped, after, later);
    Quiescence.FreedStays(Quiescence.Next(stopped, Quiescence.Remove), after, later);
    forall t | t in later.threads ensures NoFrameAtGone(remote, hooks, later.threads[t]) {
      NothingGoneOnStack(stopped, later, imageBase, imageSize, hooks, remote, later.threads[t]);
    }
    CleanupRestores(decode, code, states, hooks, memory);
    TearDownKeepsCode(code, hooks, states[0], UnhookedBackwards(memory, hooks, |hooks|), exports, remote);
  }

  predicate NoFrameAtGone(remote: Remote, hooks: seq<InstalledHook>, k: Quiescence.Stack) {
    forall i :: 0 <= i < |k| ==> !Gone(remote, hooks, k[i].rip)
  }

  lemma NothingGoneOnStack(
    stopped: Quiescence.State, later: Quiescence.State, imageBase: nat, imageSize: nat,
    hooks: seq<InstalledHook>, remote: Remote, k: Quiescence.Stack)
    requires Mirrors(stopped, imageBase, imageSize, hooks) && MirrorsRemote(stopped, remote)
    requires later.image == stopped.image && later.sites == stopped.sites && later.bypasses == stopped.bypasses
    requires Quiescence.Uninstrumented(later, k)
    ensures NoFrameAtGone(remote, hooks, k)
  {
    forall i | 0 <= i < |k| ensures !Gone(remote, hooks, k[i].rip) {
      if Gone(remote, hooks, k[i].rip) {
        GoneIsFreed(stopped, imageBase, imageSize, hooks, remote, k[i].rip);
        assert false;
      }
    }
  }

  /** Each hook the session records extends the history that cleanup undoes. */
  lemma PutExtendsHistory(
    decode: Trampoline.Decoder, code: set<int>, states: seq<Trampoline.Memory>, hooks: seq<InstalledHook>,
    m: Trampoline.Memory, h: InstalledHook, m': Trampoline.Memory)
    requires History(decode, code, states, hooks)
    requires SameOn(code, states[|hooks|], m) && Put(decode, m, h, m')
    ensures History(decode, code, states + [m'], hooks + [h])
  {
    var handler: nat :| handler < WORD64 && m' == Hooked(m, h, handler);
    assert InstallsAt(decode, code, states[|hooks|], h, m', m, handler);
    var states', hooks' := states + [m'], hooks + [h];
    forall i | 0 <= i < |hooks'| ensures Installs(decode, code, states'[i], hooks'[i], states'[i + 1]) {
      if i < |hooks| {
        assert Installs(decode, code, states[i], hooks[i], states[i + 1]);
      }
    }
  }
}
