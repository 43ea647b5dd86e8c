/** Module names spelled out letter by letter, and what forwarders written in any case lead to. */
module ModuleNames {
  import opened Wrappers
  import opened Forwarders

  const CAPITALS := "ABCDEFGHIJKLMNOPQRSTUVWXYZ"
  const SMALL := "abcdefghijklmnopqrstuvwxyz"

  // ---------------------------------------------------------------- lower case

  /** `d` is `c`, or its small letter if `c` is a capital. */
  predicate LowerOf(c: char, d: char) {
    if c in CAPITALS then exists k :: 0 <= k < 26 && SameLetter(c, d, k) else d == c
  }

  predicate SameLetter(c: char, d: char, k: nat)
    requires k < 26
  {
    CAPITALS[k] == c && SMALL[k] == d
  }

  predicate InLowerCase(name: string, lower: string) {
    |lower| == |name| && forall i :: 0 <= i < |name| ==> LowerOf(name[i], lower[i])
  }

  lemma LetterCodes(k: nat)
    requires k < 26
    ensures CAPITALS[k] as int == 'A' as int + k && SMALL[k] as int == 'a' as int + k
  {
  }

  lemma CapitalsAreTheLetters(c: char)
    ensures c in CAPITALS <==> 'A' <= c <= 'Z'
  {
    if c in CAPITALS {
      var k :| 0 <= k < 26 && CAPITALS[k] == c;
      LetterCodes(k);
    }
    if 'A' <= c <= 'Z' {
      LetterCodes(c as int - 'A' as int);
    }
  }

  lemma LowerIsToLower(c: char, d: char)
    ensures LowerOf(c, d) <==> d == ToLower(c)
  {
    CapitalsAreTheLetters(c);
    if c in CAPITALS {
      LetterCodes(c as int - 'A' as int);
      assert d == ToLower(c) ==> SameLetter(c, d, c as int - 'A' as int);
      if k: nat :| k < 26 && SameLetter(c, d, k) {
        LetterCodes(k);
      }
    }
  }

  lemma LetterByLetter(name: string, lower: string)
    requires |lower| == |name| && forall i :: 0 <= i < |name| ==> lower[i] == ToLower(name[i])
    ensures InLowerCase(name, lower)
  {
    forall i | 0 <= i < |name| ensures LowerOf(name[i], lower[i]) {
      LowerIsToLower(name[i], lower[i]);
    }
  }

  // ---------------------------------------------------------------- file names

  /** `file` is the part of `path` behind its last backslash or slash, or all of it if it has none. */
  predicate IsFileName(path: string, file: string) {
    && |file| <= |path| && path[|path| - |file|..] == file && '\\' !in file && '/' !in file
    && (|file| < |path| ==> path[|path| - |file| - 1] == '\\' || path[|path| - |file| - 1] == '/')
  }

  lemma StartsAlike(path: string, file: string)
    requires IsFileName(path, file)
    ensures |NormalizeModuleName(path)| == |file|
  {
    NormalizeTakesFileName(path);
    var start, start' := |path| - |NormalizeModuleName(path)|, |path| - |file|;
    assert forall i :: start' <= i < |path| ==> path[i] == file[i - start'];
  }

  /** The name of a module is its file name in lower case. */
  lemma NormalizeSpelled(path: string, file: string, lower: string)
    requires IsFileName(path, file)
    ensures NormalizeModuleName(path) == lower <==> InLowerCase(file, lower)
  {
    StartsAlike(path, file);
    NormalizeTakesFileName(path);
    var name, start := NormalizeModuleName(path), |path| - |file|;
    hide InLowerCase, NormalizeModuleName;
    forall i | 0 <= i < |file| ensures name[i] == ToLower(file[i]) {
      assert path[start + i] == file[i];
    }
    LetterByLetter(file, name);
    if InLowerCase(file, lower) {
      SameLowerCase(file, lower, name);
    }
  }

  lemma SameLowerCase(file: string, lower: string, name: string)
    requires InLowerCase(file, lower) && |name| == |file|
    requires forall i :: 0 <= i < |file| ==> name[i] == ToLower(file[i])
    ensures lower == name
  {
    forall i | 0 <= i < |file| ensures lower[i] == name[i] {
      LowerIsToLower(file[i], lower[i]);
    }
  }

  /** A module is recorded by the name of its file, and by the one read from its image if the path ends in none. */
  lemma RecordedSpelled(
    path: string, file: string, lower: string, remoteName: string, remoteFile: string, remoteLower: string)
    requires IsFileName(path, file) && InLowerCase(file, lower)
    requires IsFileName(remoteName, remoteFile) && InLowerCase(remoteFile, remoteLower)
    ensures RecordedName(path, remoteName) == if file != "" then lower else remoteLower
  {
    NormalizeSpelled(path, file, lower);
    NormalizeSpelled(remoteName, remoteFile, remoteLower);
  }

  lemma NtdllInCapitals()
    ensures InLowerCase("NTDLL", "ntdll") && InLowerCase("NTDLL.DLL", "ntdll.dll")
  {
    hide InLowerCase;
    LetterByLetter("NTDLL", "ntdll");
    LetterByLetter("NTDLL.DLL", "ntdll.dll");
  }

  /** So the system library is known as the name that the transport waits for, however its path is written. */
  lemma NtdllIsRecorded(remoteName: string)
    ensures RecordedName("C:\\Windows\\System32\\NTDLL.DLL", remoteName) == "ntdll.dll"
  {
    var path, file := "C:\\Windows\\System32\\NTDLL.DLL", "NTDLL.DLL";
    assert path[|path| - |file|..] == file;
    NtdllInCapitals();
    NormalizeSpelled(path, file, "ntdll.dll");
  }

  // ---------------------------------------------------------------- forwarders

  /** A library name with ".dll" behind it if it has no extension. */
  function WithDll(lower: string): string { if '.' in lower then lower else lower + ".dll" }

  /** `text` names a library and, behind its last dot, an export that is not an ordinal. */
  predicate Forwards(text: string, library: string, name: string) {
    text == library + "." + name && library != "" && name != "" && name[0] != '#' && '.' !in name
  }

  /** A forwarder leads to the library in lower case, with an extension, and to the export as it is written. */
  lemma ForwarderLeads(text: string, library: string, name: string, file: string, lower: string)
    requires Forwards(text, library, name) && IsFileName(library, file) && InLowerCase(file, lower)
    ensures ParseForwarder(text) == Goes(Node(WithDll(lower), name))
  {
    ForwarderNames(library, name);
    NormalizeSpelled(library, file, lower);
  }

  /** A text that names no library and export in this way is not followed. */
  lemma ForwarderIsDead(text: string)
    ensures ParseForwarder(text).Dead? || ParseForwarder(text).Goes?
    ensures ParseForwarder(text).Dead? <==> !exists library, name :: Forwards(text, library, name)
  {
    if library, name :| Forwards(text, library, name) {
      ForwarderNames(library, name);
    }
    if ParseForwarder(text).Goes? {
      var k := LastOf(text, ".").value;
      assert text == text[..k] + "." + text[k + 1..];
      assert forall i :: k < i < |text| ==> text[i] in "." || text[i] != '.';
      assert '.' in ".";
      assert Forwards(text, text[..k], text[k + 1..]);
    }
  }

  /** A name as modules are recorded by, with an extension. */
  predicate Recorded(name: string) { '.' in name && IsFileName(name, name) && InLowerCase(name, name) }

  lemma RecordedIsQualified(name: string)
    requires Recorded(name)
    ensures Qualified(name) == name
  {
    NormalizeSpelled(name, name, name);
  }

  /** The hook's own module answers with an address, with nothing, or with a forwarder. */
  lemma HookedExport(modules: Modules, exports: Exports, d: HookDefinition, source: nat)
    requires Generations(modules) && Recorded(d.moduleName) && IsNewest(modules, d.moduleName, source)
    ensures exports(source, d.exportName).None? ==> HookResolution(modules, exports, d) == Error
    ensures
      var e := exports(source, d.exportName);
      e.Some? && e.value.address != 0 ==>
        HookResolution(modules, exports, d) == Resolved(e.value.address, source)
  {
    RecordedIsQualified(d.moduleName);
    NewestIsUnique(modules, d.moduleName, source);
    var hops, x := HopsOf(modules, exports), Node(d.moduleName, d.exportName);
    WalkOnce(hops, x, MAX_HOPS, {}, hops(x));
  }

  /** The hook's own module forwards it to the library `lower`, whatever the case the forwarder is written in. */
  ghost predicate ForwardsTo(
    modules: Modules, exports: Exports, d: HookDefinition, source: nat, lower: string, name: string)
  {
    && IsNewest(modules, d.moduleName, source)
    && exists text, library, file :: ForwarderOf(exports, d, source, text, library, file, lower, name)
  }

  predicate ForwarderOf(
    exports: Exports, d: HookDefinition, source: nat, text: string, library: string, file: string, lower: string,
    name: string)
  {
    && exports(source, d.exportName) == Some(RemoteExport(0, text))
    && Forwards(text, library, name) && IsFileName(library, file) && InLowerCase(file, lower)
  }

  /** Then the hook goes where that export is, if the library of that name is loaded and has it. */
  lemma ForwardedHook(
    modules: Modules, exports: Exports, d: HookDefinition, source: nat, lower: string, name: string)
    requires Generations(modules) && Recorded(d.moduleName) && ForwardsTo(modules, exports, d, source, lower, name)
    requires d.moduleName + "!" + d.exportName != WithDll(lower) + "!" + name
    ensures (forall b :: b in modules ==> modules[b].name != WithDll(lower)) ==>
      HookResolution(modules, exports, d) == Pending
    ensures forall b :: IsNewest(modules, WithDll(lower), b) && exports(b, name).None? ==>
      HookResolution(modules, exports, d) == Error
    ensures forall b :: IsNewest(modules, WithDll(lower), b) && exports(b, name).Some? ==>
      var address := exports(b, name).value.address;
      address != 0 ==> HookResolution(modules, exports, d) == Resolved(address, b)
  {
    hide Forwards, InLowerCase, IsFileName, WithDll, Walk;
    FirstLookup(modules, exports, d, source, lower, name);
    var hops, x, y := HopsOf(modules, exports), Node(d.moduleName, d.exportName), Node(WithDll(lower), name);
    TwoLookups(hops, x, y, MAX_HOPS);
    forall b: nat | IsNewest(modules, WithDll(lower), b) ensures Newest(modules, WithDll(lower)) == Some(b) {
      NewestIsUnique(modules, WithDll(lower), b);
    }
  }

  lemma FirstLookup(
    modules: Modules, exports: Exports, d: HookDefinition, source: nat, lower: string, name: string)
    requires Generations(modules) && Recorded(d.moduleName) && ForwardsTo(modules, exports, d, source, lower, name)
    ensures HookResolution(modules, exports, d)
         == Walk(HopsOf(modules, exports), Node(d.moduleName, d.exportName), MAX_HOPS, {})
    ensures HopsOf(modules, exports)(Node(d.moduleName, d.exportName)) == Goes(Node(WithDll(lower), name))
  {
    var text, library, file :| ForwarderOf(exports, d, source, text, library, file, lower, name);
    RecordedIsQualified(d.moduleName);
    NewestIsUnique(modules, d.moduleName, source);
    ForwarderLeads(text, library, name, file, lower);
  }

  lemma TwoLookups(hops: Hops, x: Node, y: Node, n: nat)
    requires n >= 2 && hops(x) == Goes(y) && Identity(x) != Identity(y)
    ensures
      match hops(y)
      case NotLoaded => Walk(hops, x, n, {}) == Pending
      case Dead => Walk(hops, x, n, {}) == Error
      case Found(address, target) => Walk(hops, x, n, {}) == Resolved(address, target)
      case Goes(_) => true
  {
    assert Walk(hops, x, n, {}) == Walk(hops, y, n - 1, {} + {Identity(x)});
  }

  /** The ordinary case of it: a function of the system library behind a forwarder in capitals. */
  lemma HeapAllocIsFound(
    modules: Modules, exports: Exports, d: HookDefinition, kernel: nat, ntdll: nat, e: RemoteExport)
    requires Generations(modules) && d.moduleName == "kernel32.dll" && d.exportName == "HeapAlloc"
    requires IsNewest(modules, "kernel32.dll", kernel) && IsNewest(modules, "ntdll.dll", ntdll)
    requires exports(kernel, "HeapAlloc") == Some(RemoteExport(0, "NTDLL.RtlAllocateHeap"))
    requires exports(ntdll, "RtlAllocateHeap") == Some(e) && e.address != 0
    ensures HookResolution(modules, exports, d) == Resolved(e.address, ntdll)
  {
    hide InLowerCase, IsFileName, Recorded, HookResolution;
    NtdllInCapitals();
    HeapAllocNames();
    assert ForwarderOf(exports, d, kernel, "NTDLL.RtlAllocateHeap", "NTDLL", "NTDLL", "ntdll", "RtlAllocateHeap");
    KernelIsRecorded();
    ForwardedHook(modules, exports, d, kernel, "ntdll", "RtlAllocateHeap");
  }

  lemma HeapAllocNames()
    ensures Forwards("NTDLL.RtlAllocateHeap", "NTDLL", "RtlAllocateHeap") && IsFileName("NTDLL", "NTDLL")
    ensures WithDll("ntdll") == "ntdll.dll"
    ensures "kernel32.dll" + "!" + "HeapAlloc" != "ntdll.dll" + "!" + "RtlAllocateHeap"
  {
    assert "NTDLL.RtlAllocateHeap" == "NTDLL" + "." + "RtlAllocateHeap";
    assert ("kernel32.dll" + "!" + "HeapAlloc")[0] == 'k' && ("ntdll.dll" + "!" + "RtlAllocateHeap")[0] == 'n';
  }

  lemma KernelIsRecorded()
    ensures Recorded("kernel32.dll")
  {
    var name := "kernel32.dll";
    assert name[8] == '.';
    LetterByLetter(name, name);
  }

  // ---------------------------------------------------------------- eight lookups

  /** An export at the end of `k` forwarders is found exactly if that makes at most eight lookups. */
  lemma EightLookups(
    modules: Modules, exports: Exports, d: HookDefinition, k: nat, address: nat, target: nat)
    requires Recorded(d.moduleName) && Newest(modules, d.moduleName).Some?
    requires PlainChain(HopsOf(modules, exports), Node(d.moduleName, d.exportName), 8)
    requires EndsAt(HopsOf(modules, exports), Node(d.moduleName, d.exportName), k, Found(address, target))
    ensures HookResolution(modules, exports, d) == if k < 8 then Resolved(address, target) else Error
  {
    RecordedIsQualified(d.moduleName);
    var hops, x := HopsOf(modules, exports), Node(d.moduleName, d.exportName);
    WalkIsFollow(hops, x, MAX_HOPS, {});
    if k < 8 {
      FollowReaches(hops, x, MAX_HOPS, Found(address, target), k);
    } else {
      FollowSkips(hops, x, k, MAX_HOPS);
    }
  }
}
