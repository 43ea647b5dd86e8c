/** Mapping a DLL image by hand: section copies and base relocations, in place in a buffer of bytes. */
module Relocation {
  import opened Bytes
  import opened Wrappers
  import EventBuilder

  const BLOCK_HEADER := 8
  const DIR64 := 10
  const POINTER_SIZE := 8

  predicate IsRangeWithin(offset: nat, length: nat, bufferSize: nat) {
    offset <= bufferSize && length <= bufferSize - offset
  }

  // ---------------------------------------------------------------- sections

  datatype Section = Section(address: nat, raw: nat, size: nat)

  predicate SectionFits(s: Section, fileSize: nat, imageSize: nat) {
    IsRangeWithin(s.raw, s.size, fileSize) && IsRangeWithin(s.address, s.size, imageSize)
  }

  predicate AllSectionsFit(sections: seq<Section>, n: nat, fileSize: nat, imageSize: nat)
    requires n <= |sections|
  {
    forall i :: 0 <= i < n ==> SectionFits(sections[i], fileSize, imageSize)
  }

  /** The image with the first `n` sections copied in, in order. */
  function WithSections(image: seq<byte>, file: seq<byte>, sections: seq<Section>, n: nat): (r: seq<byte>)
    requires n <= |sections| && AllSectionsFit(sections, n, |file|, |image|)
    ensures |r| == |image|
  {
    if n == 0 then image
    else Copied(WithSections(image, file, sections, n - 1), file, sections[n - 1])
  }

  function Copied(image: seq<byte>, file: seq<byte>, s: Section): (r: seq<byte>)
    requires SectionFits(s, |file|, |image|)
    ensures |r| == |image|
  {
    Overwrite(image, s.address, file[s.raw..s.raw + s.size])
  }

  method CopySection(image: array<byte>, file: seq<byte>, s: Section) returns (ok: bool)
    modifies image
    ensures ok <==> SectionFits(s, |file|, image.Length)
    ensures ok ==> image[..] == Copied(old(image[..]), file, s)
    ensures !ok ==> image[..] == old(image[..])
  {
    if !IsRangeWithin(s.raw, s.size, |file|) || !IsRangeWithin(s.address, s.size, image.Length) {
      return false;
    }
    EventBuilder.CustomMemCpy(image, s.address, file[s.raw..s.raw + s.size]);
    return true;
  }

  method CopySections(image: array<byte>, file: seq<byte>, sections: seq<Section>) returns (ok: bool)
    modifies image
    ensures ok <==> forall i :: 0 <= i < |sections| ==>
      && sections[i].raw + sections[i].size <= |file|
      && sections[i].address + sections[i].size <= image.Length
    ensures ok ==> AllSectionsFit(sections, |sections|, |file|, image.Length)
    ensures ok ==> image[..] == WithSections(old(image[..]), file, sections, |sections|)
  {
    hide Copied, SectionFits;
    ghost var original := image[..];
    for i := 0 to |sections|
      invariant AllSectionsFit(sections, i, |file|, image.Length)
      invariant forall k :: 0 <= k < i ==>
        && sections[k].raw + sections[k].size <= |file|
        && sections[k].address + sections[k].size <= image.Length
      invariant image[..] == WithSections(original, file, sections, i)
    {
      ok := CopySection(image, file, sections[i]);
      FitMeans(sections[i], |file|, image.Length);
      if !ok {
        return;
      }
      NextSection(original, file, sections, i);
    }
    return true;
  }

  /** The subtraction in the check is how it avoids an overflow of the sum. */
  lemma FitMeans(s: Section, fileSize: nat, imageSize: nat)
    ensures SectionFits(s, fileSize, imageSize) <==>
      s.raw + s.size <= fileSize && s.address + s.size <= imageSize
  {
  }

  lemma NextSection(image: seq<byte>, file: seq<byte>, sections: seq<Section>, i: nat)
    requires i < |sections| && AllSectionsFit(sections, i, |file|, |image|)
    requires SectionFits(sections[i], |file|, |image|)
    ensures AllSectionsFit(sections, i + 1, |file|, |image|)
    ensures
      WithSections(image, file, sections, i + 1)
      == Copied(WithSections(image, file, sections, i), file, sections[i])
  {
  }

  predicate InSection(x: int, s: Section) { s.address <= x < s.address + s.size }

  /** No section past the first `k` of the first `n` covers `x`. */
  predicate NotCovered(x: int, sections: seq<Section>, k: nat, n: nat)
    requires n <= |sections|
  {
    forall i :: k <= i < n ==> !InSection(x, sections[i])
  }

  /** Bytes that no section covers stay as they are. */
  lemma {:induction false} UncoveredByte(image: seq<byte>, file: seq<byte>, sections: seq<Section>, n: nat, x: nat)
    requires n <= |sections| && AllSectionsFit(sections, n, |file|, |image|)
    requires x < |image| && NotCovered(x, sections, 0, n)
    ensures WithSections(image, file, sections, n)[x] == image[x]
    decreases n
  {
    if n > 0 {
      UncoveredByte(image, file, sections, n - 1, x);
      CopyElsewhere(WithSections(image, file, sections, n - 1), file, sections[n - 1], x);
    }
  }

  /** A byte comes from the last section that covers it. */
  lemma {:induction false} SectionByte(
    image: seq<byte>, file: seq<byte>, sections: seq<Section>, k: nat, n: nat, s: Section, x: nat)
    requires 0 < k <= n <= |sections| && AllSectionsFit(sections, n, |file|, |image|)
    requires s == sections[k - 1] && SectionFits(s, |file|, |image|)
    requires x < |image| && InSection(x, s) && NotCovered(x, sections, k, n)
    ensures WithSections(image, file, sections, n)[x] == file[s.raw + (x - s.address)]
    decreases n
  {
    var before := WithSections(image, file, sections, n - 1);
    if n == k {
      LastCopyShows(before, file, s, x);
    } else {
      SectionByte(image, file, sections, k, n - 1, s, x);
      CopyElsewhere(before, file, sections[n - 1], x);
    }
  }

  lemma CopyElsewhere(image: seq<byte>, file: seq<byte>, s: Section, x: nat)
    requires SectionFits(s, |file|, |image|) && x < |image| && !InSection(x, s)
    ensures Copied(image, file, s)[x] == image[x]
  {
  }

  lemma LastCopyShows(image: seq<byte>, file: seq<byte>, s: Section, x: nat)
    requires SectionFits(s, |file|, |image|) && InSection(x, s)
    ensures Copied(image, file, s)[x] == file[s.raw + (x - s.address)]
  {
  }

  // ---------------------------------------------------------------- the relocation directory

  function ReadU16(s: seq<byte>, i: nat): (v: nat)
    requires i + 2 <= |s|
    ensures v < 65536
  {
    s[i] as int + 256 * (s[i + 1] as int)
  }

  function ReadU32(s: seq<byte>, i: nat): (v: nat)
    requires i + 4 <= |s|
    ensures v < WORD32
  {
    s[i] as int + 256 * (s[i + 1] as int) + 65536 * (s[i + 2] as int) + 0x100_0000 * (s[i + 3] as int)
  }

  /** `Wild` is a write outside the image: what follows is not modelled. */
  datatype Verdict = Done | Invalid | Wild

  /** What a directory asks for: the targets up to the first entry that stops the walk, if any. */
  datatype Parse = Parse(targets: seq<nat>, verdict: Verdict)

  /** A sum of two words in 32-bit arithmetic. */
  function Wrap32(sum: nat): nat
    requires sum < 2 * WORD32
  {
    if sum >= WORD32 then sum - WORD32 else sum
  }

  function ParseEntries(
    s: seq<byte>, address: nat, at: nat, count: nat, size: nat, found: seq<nat>): Parse
    requires address < WORD32 && at + 2 * count <= |s|
    decreases count
  {
    if count == 0 then Parse(found, Done)
    else
      var entry := ReadU16(s, at);
      if entry / 4096 != DIR64 then ParseEntries(s, address, at + 2, count - 1, size, found)
      else
        // The check adds in 32 bits, the write does not.
        var target := address + entry % 4096;
        if !IsRangeWithin(Wrap32(target), POINTER_SIZE, size) then Parse(found, Invalid)
        else if target >= WORD32 then Parse(found, Wild)
        else ParseEntries(s, address, at + 2, count - 1, size, found + [target])
  }

  function ParseBlocks(s: seq<byte>, p: nat, end: nat, found: seq<nat>): Parse
    requires end <= |s|
    decreases |s| - p
  {
    if p + BLOCK_HEADER > end || ReadU32(s, p) == 0 then Parse(found, Done)
    else
      var size := ReadU32(s, p + 4);
      if size < BLOCK_HEADER || p + size > end then Parse(found, Invalid)
      else
        var block := ParseEntries(s, ReadU32(s, p), p + BLOCK_HEADER, (size - BLOCK_HEADER) / 2, |s|, found);
        if block.verdict.Done? then ParseBlocks(s, p + size, end, block.targets) else block
  }

  // ---------------------------------------------------------------- what relocating means

  predicate AllFit(targets: seq<nat>, size: nat) {
    forall i :: 0 <= i < |targets| ==> targets[i] + POINTER_SIZE <= size
  }

  /** A pointer-sized word in memory order, and what a relocation does to one. */
  type Word = w: seq<byte> | |w| == POINTER_SIZE witness [0, 0, 0, 0, 0, 0, 0, 0]
  type Mover = Word -> Word

  /** Addition modulo 2^64. */
  function Plus(w: Word, delta: Word64): Word { LittleEndian(Wrap64(ValueOf(w) + delta), POINTER_SIZE) }

  function ValueOf(w: Word): Word64 {
    RadixValues();
    FromLittleEndianRoundTrip(w);
    FromLittleEndian(w)
  }

  function Wrap64(sum: nat): Word64
    requires sum < 2 * WORD64
  {
    if sum >= WORD64 then sum - WORD64 else sum
  }

  /** The opposite distance. */
  function Negated(delta: Word64): Word64 { if delta == 0 then 0 else WORD64 - delta }

  function Adder(delta: Word64): Mover { (w: Word) => Plus(w, delta) }

  /** The word at `t` moved. */
  function AddAt(s: seq<byte>, t: nat, move: Mover): (r: seq<byte>)
    requires t + POINTER_SIZE <= |s|
    ensures |r| == |s|
  {
    Overwrite(s, t, move(s[t..t + POINTER_SIZE]))
  }

  /** The words at all targets moved, one after the other. */
  function Relocated(s: seq<byte>, targets: seq<nat>, move: Mover): (r: seq<byte>)
    requires AllFit(targets, |s|)
    ensures |r| == |s|
  {
    if targets == [] then s
    else AddAt(Relocated(s, targets[..|targets| - 1], move), targets[|targets| - 1], move)
  }

  /** The directory does not relocate itself. */
  predicate AllOutside(targets: seq<nat>, start: nat, end: nat) {
    forall i :: 0 <= i < |targets| ==> targets[i] + POINTER_SIZE <= start || end <= targets[i]
  }

  lemma {:induction false} EntriesExtend(
    s: seq<byte>, address: nat, at: nat, count: nat, size: nat, found: seq<nat>)
    requires address < WORD32 && at + 2 * count <= |s| && AllFit(found, size)
    ensures
      var p := ParseEntries(s, address, at, count, size, found);
      found <= p.targets && AllFit(p.targets, size)
    decreases count
  {
    if count > 0 {
      var entry := ReadU16(s, at);
      var target := address + entry % 4096;
      if entry / 4096 != DIR64 {
        EntriesExtend(s, address, at + 2, count - 1, size, found);
      } else if IsRangeWithin(Wrap32(target), POINTER_SIZE, size) && target < WORD32 {
        EntriesExtend(s, address, at + 2, count - 1, size, found + [target]);
      }
    }
  }

  lemma {:induction false} BlocksExtend(s: seq<byte>, p: nat, end: nat, found: seq<nat>)
    requires end <= |s| && AllFit(found, |s|)
    ensures
      var r := ParseBlocks(s, p, end, found);
      found <= r.targets && AllFit(r.targets, |s|)
    decreases |s| - p
  {
    if p + BLOCK_HEADER <= end && ReadU32(s, p) != 0 {
      var size := ReadU32(s, p + 4);
      if size >= BLOCK_HEADER && p + size <= end {
        var count := (size - BLOCK_HEADER) / 2;
        EntriesExtend(s, ReadU32(s, p), p + BLOCK_HEADER, count, |s|, found);
        var block := ParseEntries(s, ReadU32(s, p), p + BLOCK_HEADER, count, |s|, found);
        if block.verdict.Done? {
          BlocksExtend(s, p + size, end, block.targets);
        }
      }
    }
  }

  lemma {:induction false} OutsideIsUntouched(s: seq<byte>, targets: seq<nat>, move: Mover, start: nat, end: nat)
    requires AllFit(targets, |s|) && AllOutside(targets, start, end) && start <= end <= |s|
    ensures Relocated(s, targets, move)[start..end] == s[start..end]
    decreases |targets|
  {
    if targets != [] {
      var rest, t := targets[..|targets| - 1], targets[|targets| - 1];
      OutsideIsUntouched(s, rest, move, start, end);
      SliceElsewhere(Relocated(s, rest, move), t, move, start, end);
    }
  }

  lemma SliceElsewhere(s: seq<byte>, t: nat, move: Mover, start: nat, end: nat)
    requires t + POINTER_SIZE <= |s| && start <= end <= |s| && (t + POINTER_SIZE <= start || end <= t)
    ensures AddAt(s, t, move)[start..end] == s[start..end]
  {
  }

  lemma RelocatedOneMore(s: seq<byte>, targets: seq<nat>, t: nat, move: Mover)
    requires AllFit(targets, |s|) && t + POINTER_SIZE <= |s|
    ensures AllFit(targets + [t], |s|)
    ensures Relocated(s, targets + [t], move) == AddAt(Relocated(s, targets, move), t, move)
  {
    assert (targets + [t])[..|targets|] == targets;
  }

  lemma SameWords(s: seq<byte>, s': seq<byte>, start: nat, end: nat, i: nat)
    requires start <= i && start <= end <= |s| == |s'| && s[start..end] == s'[start..end]
    ensures i + 2 <= end ==> ReadU16(s, i) == ReadU16(s', i)
    ensures i + 4 <= end ==> ReadU32(s, i) == ReadU32(s', i)
  {
    forall x | start <= x < end ensures s[x] == s'[x] {
      assert s[x] == s[start..end][x - start] == s'[start..end][x - start] == s'[x];
    }
  }

  /** The image so far is the original with the targets found so far relocated. */
  ghost predicate Progress(o: seq<byte>, now: seq<byte>, found: seq<nat>, move: Mover) {
    AllFit(found, |o|) && now == Relocated(o, found, move)
  }

  /** While the targets found lie outside the directory, it still reads as it did. */
  lemma DirectoryReads(
    o: seq<byte>, now: seq<byte>, found: seq<nat>, goal: seq<nat>, move: Mover, start: nat, end: nat, i: nat)
    requires Progress(o, now, found, move) && found <= goal && AllOutside(goal, start, end)
    requires start <= i <= end <= |o| == |now|
    ensures i + 2 <= end ==> ReadU16(now, i) == ReadU16(o, i)
    ensures i + 4 <= end ==> ReadU32(now, i) == ReadU32(o, i)
  {
    forall k | 0 <= k < |found| ensures found[k] + POINTER_SIZE <= start || end <= found[k] {
      assert found[k] == goal[k];
    }
    OutsideIsUntouched(o, found, move, start, end);
    SameWords(now, o, start, end, i);
  }

  // ---------------------------------------------------------------- the walk, over the image as it changes

  /** The image a walk leaves and how it ended. */
  datatype Walk = Walk(image: seq<byte>, verdict: Verdict)

  function Target(s: seq<byte>, p: nat, at: nat): nat
    requires p + BLOCK_HEADER <= |s| && at + 2 <= |s|
  {
    ReadU32(s, p) + ReadU16(s, at) % 4096
  }

  function IsPointer(s: seq<byte>, at: nat): bool
    requires at + 2 <= |s|
  {
    ReadU16(s, at) / 4096 == DIR64
  }

  /** One entry of the block at `p`. The page address is read anew, and the check adds in 32 bits. */
  function AfterEntry(s: seq<byte>, p: nat, at: nat, move: Mover): (w: Walk)
    requires p + BLOCK_HEADER <= |s| && at + 2 <= |s|
    ensures |w.image| == |s|
  {
    var target := Target(s, p, at);
    if !IsPointer(s, at) then Walk(s, Done)
    else if !IsRangeWithin(Wrap32(target), POINTER_SIZE, |s|) then Walk(s, Invalid)
    else if target >= WORD32 then Walk(s, Wild)
    else Walk(AddAt(s, target, move), Done)
  }

  function WalkEntries(s: seq<byte>, p: nat, i: nat, count: nat, move: Mover): (w: Walk)
    requires i <= count && p + BLOCK_HEADER + 2 * count <= |s|
    ensures |w.image| == |s|
    decreases count - i
  {
    if i == count then Walk(s, Done)
    else
      var w := AfterEntry(s, p, p + BLOCK_HEADER + 2 * i, move);
      if w.verdict.Done? then WalkEntries(w.image, p, i + 1, count, move) else w
  }

  /** The walk from block `p` on. A block's size is read again behind its entries, which may have changed it. */
  function WalkBlocks(s: seq<byte>, p: nat, end: nat, move: Mover): (w: Walk)
    requires end <= |s|
    ensures |w.image| == |s|
    decreases
      if p <= end then end - p else 0,
      if p + BLOCK_HEADER <= end && ReadU32(s, p + 4) >= BLOCK_HEADER then 1 else 0
  {
    if p + BLOCK_HEADER > end || ReadU32(s, p) == 0 then Walk(s, Done)
    else
      var size := ReadU32(s, p + 4);
      if size < BLOCK_HEADER || p + size > end then Walk(s, Invalid)
      else
        var w := WalkEntries(s, p, 0, (size - BLOCK_HEADER) / 2, move);
        if w.verdict.Done? then WalkBlocks(w.image, p + ReadU32(w.image, p + 4), end, move) else w
  }

  /** Add `delta` to the 64-bit word at `t`. */
  method AddPointer(image: array<byte>, t: nat, delta: Word64)
    requires t + POINTER_SIZE <= image.Length
    modifies image
    ensures image[..] == AddAt(old(image[..]), t, Adder(delta))
  {
    var word := image[t..t + POINTER_SIZE];
    assert word == image[..][t..t + POINTER_SIZE];
    EventBuilder.CustomMemCpy(image, t, LittleEndian(Wrap64(ValueOf(word) + delta), POINTER_SIZE));
  }

  /** One entry handled: skipped, stopped at, or its target relocated. */
  predicate Handled(
    entry: nat, address: nat, before: seq<byte>, after: seq<byte>, move: Mover, verdict: Verdict, target: nat)
    requires entry < 65536 && address < WORD32
  {
    if entry / 4096 != DIR64 then verdict == Done && after == before
    else
      && target == address + entry % 4096
      && match verdict
         case Invalid => !IsRangeWithin(Wrap32(target), POINTER_SIZE, |before|) && after == before
         case Wild =>
           IsRangeWithin(Wrap32(target), POINTER_SIZE, |before|) && target >= WORD32 && after == before
         case Done =>
           && target + POINTER_SIZE <= |before| && target < WORD32
           && after == AddAt(before, target, move)
  }

  method RelocateEntry(image: array<byte>, p: nat, at: nat, delta: Word64) returns (verdict: Verdict, target: nat)
    requires p + BLOCK_HEADER <= image.Length && at + 2 <= image.Length
    modifies image
    ensures
      var before := old(image[..]);
      Handled(ReadU16(before, at), ReadU32(before, p), before, image[..], Adder(delta), verdict, target)
  {
    target := 0;
    var entry := ReadU16(image[..], at);
    var kind, offset := entry / 4096, entry % 4096;
    if kind != DIR64 {
      return Done, target;
    }
    var address := ReadU32(image[..], p);
    target := address + offset;
    if !IsRangeWithin(Wrap32(address + offset), POINTER_SIZE, image.Length) {
      return Invalid, target;
    }
    if target >= WORD32 {
      return Wild, target;
    }
    AddPointer(image, target, delta);
    return Done, target;
  }

  lemma HandledIsStep(
    before: seq<byte>, p: nat, at: nat, after: seq<byte>, move: Mover, verdict: Verdict, target: nat)
    requires p + BLOCK_HEADER <= |before| && at + 2 <= |before|
    requires Handled(ReadU16(before, at), ReadU32(before, p), before, after, move, verdict, target)
    ensures AfterEntry(before, p, at, move) == Walk(after, verdict)
  {
  }

  method RelocateEntries(image: array<byte>, p: nat, count: nat, delta: Word64) returns (verdict: Verdict)
    requires p + BLOCK_HEADER + 2 * count <= image.Length
    modifies image
    ensures Walk(image[..], verdict) == WalkEntries(old(image[..]), p, 0, count, Adder(delta))
  {
    hide AfterEntry, Handled;
    ghost var goal := WalkEntries(image[..], p, 0, count, Adder(delta));
    for i := 0 to count
      invariant goal == WalkEntries(image[..], p, i, count, Adder(delta))
    {
      ghost var before := image[..];
      var at := p + BLOCK_HEADER + 2 * i;
      var outcome, target := RelocateEntry(image, p, at, delta);
      HandledIsStep(before, p, at, image[..], Adder(delta), outcome, target);
      if outcome != Done {
        return outcome;
      }
    }
    return Done;
  }

  /** Walk the directory at `rva`, relocating in place. Whatever the bytes are, the walk ends. */
  method RelocateImage(image: array<byte>, rva: nat, size: nat, delta: Word64) returns (verdict: Verdict)
    modifies image
    ensures delta == 0 || size == 0 ==> verdict == Done && image[..] == old(image[..])
    ensures delta != 0 && size != 0 && !IsRangeWithin(rva, size, image.Length) ==>
      verdict == Invalid && image[..] == old(image[..])
    ensures delta != 0 && size != 0 && IsRangeWithin(rva, size, image.Length) ==>
      Walk(image[..], verdict) == WalkBlocks(old(image[..]), rva, rva + size, Adder(delta))
  {
    hide ReadU32, WalkEntries, Adder;
    if delta == 0 || size == 0 {
      return Done;
    }
    if !IsRangeWithin(rva, size, image.Length) {
      return Invalid;
    }
    var p, end := rva, rva + size;
    ghost var goal := WalkBlocks(image[..], rva, end, Adder(delta));
    while p + BLOCK_HEADER <= end && ReadU32(image[..], p) != 0
      invariant goal == WalkBlocks(image[..], p, end, Adder(delta))
      decreases if p <= end then end - p else 0,
                if p + BLOCK_HEADER <= end && ReadU32(image[..], p + 4) >= BLOCK_HEADER then 1 else 0
    {
      var sizeOfBlock := ReadU32(image[..], p + 4);
      if sizeOfBlock < BLOCK_HEADER || p + sizeOfBlock > end {
        return Invalid;
      }
      verdict := RelocateEntries(image, p, (sizeOfBlock - BLOCK_HEADER) / 2, delta);
      if verdict != Done {
        return;
      }
      p := p + ReadU32(image[..], p + 4);
    }
    return Done;
  }

  // ---------------------------------------------------------------- a directory that does not relocate itself

  /** An entry read from the image in progress is the entry of the original directory. */
  lemma EntryReads(
    o: seq<byte>, now: seq<byte>, p: nat, at: nat, count: nat, move: Mover, start: nat, end: nat, found: seq<nat>)
    requires count > 0 && start <= p && p + BLOCK_HEADER <= at && at + 2 * count <= end <= |o| == |now|
    requires Progress(o, now, found, move)
    requires AllOutside(ParseEntries(o, ReadU32(o, p), at, count, |o|, found).targets, start, end)
    ensures ReadU16(now, at) == ReadU16(o, at) && ReadU32(now, p) == ReadU32(o, p)
  {
    var goal := ParseEntries(o, ReadU32(o, p), at, count, |o|, found);
    EntriesExtend(o, ReadU32(o, p), at, count, |o|, found);
    DirectoryReads(o, now, found, goal.targets, move, start, end, p);
    DirectoryReads(o, now, found, goal.targets, move, start, end, at);
  }

  /** The walk is at block `p` of the original directory. */
  ghost predicate OnCourse(
    o: seq<byte>, now: seq<byte>, found: seq<nat>, move: Mover, p: nat, end: nat, goal: Parse)
    requires end <= |o|
  {
    Progress(o, now, found, move) && goal == ParseBlocks(o, p, end, found)
  }

  lemma CourseReads(
    o: seq<byte>, now: seq<byte>, found: seq<nat>, move: Mover, start: nat, p: nat, end: nat, goal: Parse)
    requires start <= p && p + BLOCK_HEADER <= end <= |o| == |now|
    requires OnCourse(o, now, found, move, p, end, goal) && AllOutside(goal.targets, start, end)
    ensures ReadU32(now, p) == ReadU32(o, p) && ReadU32(now, p + 4) == ReadU32(o, p + 4)
  {
    BlocksExtend(o, p, end, found);
    DirectoryReads(o, now, found, goal.targets, move, start, end, p);
    DirectoryReads(o, now, found, goal.targets, move, start, end, p + 4);
  }

  /** Then the entries are handled as they stood at first. */
  lemma {:induction false} EntriesAsParsed(
    o: seq<byte>, now: seq<byte>, p: nat, i: nat, count: nat, move: Mover, start: nat, end: nat, found: seq<nat>,
    goal: Parse)
    requires i <= count && start <= p && p + BLOCK_HEADER + 2 * count <= end <= |o| == |now|
    requires Progress(o, now, found, move)
    requires goal == ParseEntries(o, ReadU32(o, p), p + BLOCK_HEADER + 2 * i, count - i, |o|, found)
    requires AllOutside(goal.targets, start, end)
    ensures
      var w := WalkEntries(now, p, i, count, move);
      w.verdict == goal.verdict && Progress(o, w.image, goal.targets, move)
    decreases count - i
  {
    hide AfterEntry, AddAt, Relocated, AllOutside, Progress, ReadU16, ReadU32;
    if i < count {
      var at := p + BLOCK_HEADER + 2 * i;
      EntryReads(o, now, p, at, count - i, move, start, end, found);
      var w := AfterEntry(now, p, at, move);
      var found' := EntryAsParsed(o, now, p, at, count - i, move, found);
      if w.verdict.Done? {
        assert p + BLOCK_HEADER + 2 * (i + 1) == at + 2;
        EntriesAsParsed(o, w.image, p, i + 1, count, move, start, end, found', goal);
      }
    }
  }

  /** One entry that reads as it stood at first. */
  lemma EntryAsParsed(
    o: seq<byte>, now: seq<byte>, p: nat, at: nat, count: nat, move: Mover, found: seq<nat>)
    returns (found': seq<nat>)
    requires count > 0 && p + BLOCK_HEADER <= at && at + 2 * count <= |o| == |now|
    requires ReadU16(now, at) == ReadU16(o, at) && ReadU32(now, p) == ReadU32(o, p)
    requires Progress(o, now, found, move)
    ensures
      var w := AfterEntry(now, p, at, move);
      && Progress(o, w.image, found', move)
      && ParseEntries(o, ReadU32(o, p), at, count, |o|, found) ==
           if w.verdict.Done? then ParseEntries(o, ReadU32(o, p), at + 2, count - 1, |o|, found')
           else Parse(found', w.verdict)
  {
    hide AddAt, Relocated, ReadU16, ReadU32;
    found' := found;
    var target := Target(now, p, at);
    if IsPointer(now, at) && AfterEntry(now, p, at, move).verdict.Done? {
      RelocatedOneMore(o, found, target, move);
      found' := found + [target];
    }
  }

  lemma {:induction false} BlocksAsParsed(
    o: seq<byte>, now: seq<byte>, p: nat, move: Mover, start: nat, end: nat, found: seq<nat>, goal: Parse)
    requires start <= p && end <= |o| == |now|
    requires OnCourse(o, now, found, move, p, end, goal) && AllOutside(goal.targets, start, end)
    ensures
      var w := WalkBlocks(now, p, end, move);
      w.verdict == goal.verdict && Progress(o, w.image, goal.targets, move)
    decreases |o| - p
  {
    hide ReadU16, ReadU32, AddAt, WalkEntries, ParseEntries, AllOutside, Relocated;
    if p + BLOCK_HEADER <= end {
      CourseReads(o, now, found, move, start, p, end, goal);
      var size := ReadU32(o, p + 4);
      if ReadU32(o, p) != 0 && size >= BLOCK_HEADER && p + size <= end {
        var count := (size - BLOCK_HEADER) / 2;
        var block := ParseEntries(o, ReadU32(o, p), p + BLOCK_HEADER, count, |o|, found);
        BlockIsPrefix(o, p, end, found, goal, block);
        PrefixOutside(block.targets, goal.targets, start, end);
        EntriesAsParsed(o, now, p, 0, count, move, start, end, found, block);
        if block.verdict.Done? {
          var w := WalkEntries(now, p, 0, count, move);
          DirectoryReads(o, w.image, block.targets, goal.targets, move, start, end, p + 4);
          BlocksAsParsed(o, w.image, p + size, move, start, end, block.targets, goal);
        }
      }
    }
  }

  /** If no target lies in the directory, the walk does what the directory asked for. */
  lemma WalkIsParse(o: seq<byte>, start: nat, end: nat, move: Mover, goal: Parse)
    requires start <= end <= |o| && goal == ParseBlocks(o, start, end, [])
    requires AllOutside(goal.targets, start, end)
    ensures AllFit(goal.targets, |o|)
    ensures WalkBlocks(o, start, end, move) == Walk(Relocated(o, goal.targets, move), goal.verdict)
  {
    BlocksExtend(o, start, end, []);
    BlocksAsParsed(o, o, start, move, start, end, [], goal);
  }

  lemma PrefixOutside(found: seq<nat>, goal: seq<nat>, start: nat, end: nat)
    requires found <= goal && AllOutside(goal, start, end)
    ensures AllOutside(found, start, end)
  {
    forall k | 0 <= k < |found| ensures found[k] + POINTER_SIZE <= start || end <= found[k] {
      assert found[k] == goal[k];
    }
  }

  /** One block of the walk; its targets are among those of the whole directory. */
  lemma BlockIsPrefix(o: seq<byte>, p: nat, end: nat, found: seq<nat>, goal: Parse, block: Parse)
    requires p + BLOCK_HEADER <= end <= |o| && ReadU32(o, p) != 0 && AllFit(found, |o|)
    requires ReadU32(o, p + 4) >= BLOCK_HEADER && p + ReadU32(o, p + 4) <= end
    requires goal == ParseBlocks(o, p, end, found)
    requires block ==
      ParseEntries(o, ReadU32(o, p), p + BLOCK_HEADER, (ReadU32(o, p + 4) - BLOCK_HEADER) / 2, |o|, found)
    ensures block.targets <= goal.targets
    ensures goal == if block.verdict.Done? then ParseBlocks(o, p + ReadU32(o, p + 4), end, block.targets) else block
  {
    var count := (ReadU32(o, p + 4) - BLOCK_HEADER) / 2;
    EntriesExtend(o, ReadU32(o, p), p + BLOCK_HEADER, count, |o|, found);
    if block.verdict.Done? {
      BlocksExtend(o, p + ReadU32(o, p + 4), end, block.targets);
    }
  }

  // ---------------------------------------------------------------- what a relocated image is

  predicate Disjoint(targets: seq<nat>) {
    forall i, j :: 0 <= i < j < |targets| ==> WordsApart(targets[i], targets[j])
  }

  predicate WordsApart(t: nat, u: nat) { t + POINTER_SIZE <= u || u + POINTER_SIZE <= t }

  /** The word at each target is moved exactly once. */
  lemma {:induction false} RelocatedWord(s: seq<byte>, targets: seq<nat>, move: Mover, k: nat)
    requires AllFit(targets, |s|) && Disjoint(targets) && k < |targets|
    ensures
      var t := targets[k];
      Relocated(s, targets, move)[t..t + POINTER_SIZE]
      == move(s[t..t + POINTER_SIZE])
    decreases |targets|
  {
    var last, t := |targets| - 1, targets[k];
    var rest := targets[..last];
    var r := Relocated(s, rest, move);
    if k == last {
      forall i | 0 <= i < |rest| ensures rest[i] + POINTER_SIZE <= t || t + POINTER_SIZE <= rest[i] {
        assert WordsApart(targets[i], targets[last]);
      }
      OutsideIsUntouched(s, rest, move, t, t + POINTER_SIZE);
      AddedWord(r, t, move);
    } else {
      forall i, j | 0 <= i < j < |rest| ensures WordsApart(rest[i], rest[j]) {
        assert WordsApart(targets[i], targets[j]);
      }
      RelocatedWord(s, rest, move, k);
      assert WordsApart(targets[k], targets[last]);
      SliceElsewhere(r, targets[last], move, t, t + POINTER_SIZE);
    }
  }

  lemma AddedWord(s: seq<byte>, t: nat, move: Mover)
    requires t + POINTER_SIZE <= |s|
    ensures AddAt(s, t, move)[t..t + POINTER_SIZE] == move(s[t..t + POINTER_SIZE])
  {
  }

  /** Bytes that belong to no target stay as they are. */
  lemma RelocatedElsewhere(s: seq<byte>, targets: seq<nat>, move: Mover, x: nat)
    requires AllFit(targets, |s|) && x < |s| && AllOutside(targets, x, x + 1)
    ensures Relocated(s, targets, move)[x] == s[x]
  {
    OutsideIsUntouched(s, targets, move, x, x + 1);
    assert Relocated(s, targets, move)[x..x + 1][0] == s[x..x + 1][0];
  }

  lemma WordComesBack(s: seq<byte>, targets: seq<nat>, move: Mover, back: Mover, k: nat)
    requires AllFit(targets, |s|) && Disjoint(targets) && k < |targets|
    requires forall w: Word :: back(move(w)) == w
    ensures
      var t := targets[k];
      Relocated(Relocated(s, targets, move), targets, back)[t..t + POINTER_SIZE] == s[t..t + POINTER_SIZE]
  {
    RelocatedWord(s, targets, move, k);
    RelocatedWord(Relocated(s, targets, move), targets, back, k);
  }

  /** Moving every word back gives the image back. */
  lemma RelocatedBack(s: seq<byte>, targets: seq<nat>, move: Mover, back: Mover)
    requires AllFit(targets, |s|) && Disjoint(targets) && forall w: Word :: back(move(w)) == w
    ensures Relocated(Relocated(s, targets, move), targets, back) == s
  {
    forall x | 0 <= x < |s| ensures Relocated(Relocated(s, targets, move), targets, back)[x] == s[x] {
      ByteComesBack(s, targets, move, back, x);
    }
  }

  lemma ByteComesBack(s: seq<byte>, targets: seq<nat>, move: Mover, back: Mover, x: nat)
    requires AllFit(targets, |s|) && Disjoint(targets) && x < |s|
    requires forall w: Word :: back(move(w)) == w
    ensures Relocated(Relocated(s, targets, move), targets, back)[x] == s[x]
  {
    hide AddAt, Relocated, AllOutside, Disjoint;
    var r := Relocated(s, targets, move);
    if k :| 0 <= k < |targets| && targets[k] <= x < targets[k] + POINTER_SIZE {
      WordComesBack(s, targets, move, back, k);
      SameInWord(Relocated(r, targets, back), s, targets[k], x);
    } else {
      RelocatedElsewhere(s, targets, move, x);
      RelocatedElsewhere(r, targets, back, x);
    }
  }

  lemma SameInWord(s: seq<byte>, s': seq<byte>, t: nat, x: nat)
    requires |s| == |s'| && t <= x < t + POINTER_SIZE <= |s|
    requires s[t..t + POINTER_SIZE] == s'[t..t + POINTER_SIZE]
    ensures s[x] == s'[x]
  {
    assert s[x] == s[t..t + POINTER_SIZE][x - t];
  }

  /** The word after relocation is the word before plus the distance, modulo 2^64. */
  lemma PlusValue(w: Word, delta: Word64)
    ensures ValueOf(Plus(w, delta)) == Wrap64(ValueOf(w) + delta)
    ensures FromLittleEndian(Plus(w, delta)) == (FromLittleEndian(w) + delta) % WORD64
  {
    RadixValues();
    LittleEndianRoundTrip(Wrap64(ValueOf(w) + delta), POINTER_SIZE);
    WrapIsModulo(ValueOf(w) + delta);
  }

  lemma WrapBack(v: Word64, delta: Word64)
    ensures Wrap64(Wrap64(v + delta) + Negated(delta)) == v
  {
  }

  /** The opposite distance undoes it. */
  lemma PlusAndBack(w: Word, delta: Word64)
    ensures Plus(Plus(w, delta), Negated(delta)) == w
  {
    PlusValue(w, delta);
    WrapBack(ValueOf(w), delta);
    FromLittleEndianRoundTrip(w);
  }

  lemma WrapIsModulo(sum: nat)
    requires sum < 2 * WORD64
    ensures Wrap64(sum) == sum % WORD64
  {
  }

  lemma {:induction false} EntriesAreLocal(
    s: seq<byte>, s': seq<byte>, start: nat, end: nat, address: nat, at: nat, count: nat, found: seq<nat>)
    requires start <= at && at + 2 * count <= end <= |s| == |s'| && s[start..end] == s'[start..end]
    requires address < WORD32
    ensures ParseEntries(s, address, at, count, |s|, found) == ParseEntries(s', address, at, count, |s|, found)
    decreases count
  {
    if count > 0 {
      SameWords(s, s', start, end, at);
      EntriesAreLocal(s, s', start, end, address, at + 2, count - 1, found);
      if ReadU16(s, at) / 4096 == DIR64 {
        EntriesAreLocal(s, s', start, end, address, at + 2, count - 1, found + [address + ReadU16(s, at) % 4096]);
      }
    }
  }

  /** A walk depends on the directory's bytes only. */
  lemma {:induction false} BlocksAreLocal(
    s: seq<byte>, s': seq<byte>, start: nat, end: nat, p: nat, found: seq<nat>)
    requires start <= p && start <= end <= |s| == |s'| && s[start..end] == s'[start..end]
    ensures ParseBlocks(s, p, end, found) == ParseBlocks(s', p, end, found)
    decreases |s| - p
  {
    if p + BLOCK_HEADER <= end {
      SameWords(s, s', start, end, p);
      SameWords(s, s', start, end, p + 4);
      var size := ReadU32(s, p + 4);
      if ReadU32(s, p) != 0 && size >= BLOCK_HEADER && p + size <= end {
        var count := (size - BLOCK_HEADER) / 2;
        EntriesAreLocal(s, s', start, end, ReadU32(s, p), p + BLOCK_HEADER, count, found);
        var block := ParseEntries(s, ReadU32(s, p), p + BLOCK_HEADER, count, |s|, found);
        if block.verdict.Done? {
          BlocksAreLocal(s, s', start, end, p + size, block.targets);
        }
      }
    }
  }

  /** A relocated image still carries its directory. */
  lemma DirectorySurvives(o: seq<byte>, start: nat, end: nat, goal: Parse, move: Mover)
    requires start <= end <= |o| && goal == ParseBlocks(o, start, end, [])
    requires AllFit(goal.targets, |o|) && AllOutside(goal.targets, start, end)
    ensures ParseBlocks(Relocated(o, goal.targets, move), start, end, []) == goal
  {
    OutsideIsUntouched(o, goal.targets, move, start, end);
    BlocksAreLocal(Relocated(o, goal.targets, move), o, start, end, start, []);
  }

  lemma OppositeDistance(delta: Word64)
    ensures forall w: Word :: Adder(Negated(delta))(Adder(delta)(w)) == w
  {
    forall w: Word ensures Adder(Negated(delta))(Adder(delta)(w)) == w {
      PlusAndBack(w, delta);
    }
  }

  /** So walking a relocated image again by the opposite distance undoes the relocation. */
  lemma WalkingBackRestores(o: seq<byte>, start: nat, end: nat, goal: Parse, delta: Word64)
    requires start <= end <= |o| && goal == ParseBlocks(o, start, end, [])
    requires AllOutside(goal.targets, start, end) && Disjoint(goal.targets)
    ensures AllFit(goal.targets, |o|)
    ensures ParseBlocks(Relocated(o, goal.targets, Adder(delta)), start, end, []) == goal
    ensures
      Relocated(Relocated(o, goal.targets, Adder(delta)), goal.targets, Adder(Negated(delta))) == o
    ensures
      var w := WalkBlocks(o, start, end, Adder(delta));
      WalkBlocks(w.image, start, end, Adder(Negated(delta))) == Walk(o, w.verdict)
  {
    WalkIsParse(o, start, end, Adder(delta), goal);
    DirectorySurvives(o, start, end, goal, Adder(delta));
    WalkIsParse(Relocated(o, goal.targets, Adder(delta)), start, end, Adder(Negated(delta)), goal);
    OppositeDistance(delta);
    RelocatedBack(o, goal.targets, Adder(delta), Adder(Negated(delta)));
  }

  // ---------------------------------------------------------------- when the range check is fooled

  /** The target lies outside, but the 32-bit sum of the check falls inside. */
  predicate Fooled(out: Option<nat>, size: nat) {
    out.Some? && out.value >= WORD32 && out.value - WORD32 + POINTER_SIZE <= size
  }

  /** A dry run by sums that do not wrap: the image so far, and the first target outside it. */
  datatype Scan = Scan(image: seq<byte>, out: Option<nat>)

  function ScanEntries(s: seq<byte>, p: nat, i: nat, count: nat, move: Mover): (r: Scan)
    requires i <= count && p + BLOCK_HEADER + 2 * count <= |s|
    ensures |r.image| == |s|
    decreases count - i
  {
    if i == count then Scan(s, None)
    else
      var at := p + BLOCK_HEADER + 2 * i;
      var target := Target(s, p, at);
      if !IsPointer(s, at) then ScanEntries(s, p, i + 1, count, move)
      else if target + POINTER_SIZE > |s| then Scan(s, Some(target))
      else ScanEntries(AddAt(s, target, move), p, i + 1, count, move)
  }

  function ScanBlocks(s: seq<byte>, p: nat, end: nat, move: Mover): (r: Scan)
    requires end <= |s|
    ensures |r.image| == |s|
    decreases
      if p <= end then end - p else 0,
      if p + BLOCK_HEADER <= end && ReadU32(s, p + 4) >= BLOCK_HEADER then 1 else 0
  {
    if p + BLOCK_HEADER > end || ReadU32(s, p) == 0 then Scan(s, None)
    else
      var size := ReadU32(s, p + 4);
      if size < BLOCK_HEADER || p + size > end then Scan(s, None)
      else
        var r := ScanEntries(s, p, 0, (size - BLOCK_HEADER) / 2, move);
        if r.out.Some? then r else ScanBlocks(r.image, p + ReadU32(r.image, p + 4), end, move)
  }

  lemma {:induction false} EntriesEscape(s: seq<byte>, p: nat, i: nat, count: nat, move: Mover)
    requires i <= count && p + BLOCK_HEADER + 2 * count <= |s| < WORD32
    ensures
      var w, r := WalkEntries(s, p, i, count, move), ScanEntries(s, p, i, count, move);
      && w.image == r.image && (w.verdict.Done? <==> r.out.None?) && (w.verdict.Wild? <==> Fooled(r.out, |s|))
    decreases count - i
  {
    hide ReadU16, ReadU32, AddAt;
    if i < count {
      var at := p + BLOCK_HEADER + 2 * i;
      if !IsPointer(s, at) {
        EntriesEscape(s, p, i + 1, count, move);
      } else if Target(s, p, at) + POINTER_SIZE <= |s| {
        EntriesEscape(AddAt(s, Target(s, p, at), move), p, i + 1, count, move);
      }
    }
  }

  /**
   Whatever the image, its directory and the distance are: the walk writes outside the image exactly if the
   first target outside it, as the walk comes to read it, wraps back inside. An image's size is a 32-bit
   number.
   */
  lemma {:induction false} EscapesIffFooled(s: seq<byte>, p: nat, end: nat, move: Mover)
    requires end <= |s| < WORD32
    ensures WalkBlocks(s, p, end, move).verdict.Wild? <==> Fooled(ScanBlocks(s, p, end, move).out, |s|)
    ensures WalkBlocks(s, p, end, move).image == ScanBlocks(s, p, end, move).image
    decreases
      if p <= end then end - p else 0,
      if p + BLOCK_HEADER <= end && ReadU32(s, p + 4) >= BLOCK_HEADER then 1 else 0
  {
    hide ReadU16, ReadU32, AddAt, WalkEntries, ScanEntries;
    if p + BLOCK_HEADER <= end && ReadU32(s, p) != 0 {
      var size := ReadU32(s, p + 4);
      if size >= BLOCK_HEADER && p + size <= end {
        var count := (size - BLOCK_HEADER) / 2;
        EntriesEscape(s, p, 0, count, move);
        var w := WalkEntries(s, p, 0, count, move);
        if w.verdict.Done? {
          EscapesIffFooled(w.image, p + ReadU32(w.image, p + 4), end, move);
        }
      }
    }
  }

  // ---------------------------------------------------------------- the same, told from the directory at first

  /** The first entry of a block that asks for a word outside the image, by a sum that does not wrap. */
  function FirstOutOfEntries(s: seq<byte>, address: nat, at: nat, count: nat, size: nat): Option<nat>
    requires address < WORD32 && at + 2 * count <= |s|
    decreases count
  {
    if count == 0 then None
    else
      var entry := ReadU16(s, at);
      if entry / 4096 == DIR64 && !IsRangeWithin(address + entry % 4096, POINTER_SIZE, size)
      then Some(address + entry % 4096)
      else FirstOutOfEntries(s, address, at + 2, count - 1, size)
  }

  function FirstOut(s: seq<byte>, p: nat, end: nat): Option<nat>
    requires end <= |s|
    decreases |s| - p
  {
    if p + BLOCK_HEADER > end || ReadU32(s, p) == 0 then None
    else
      var size := ReadU32(s, p + 4);
      if size < BLOCK_HEADER || p + size > end then None
      else
        var out := FirstOutOfEntries(s, ReadU32(s, p), p + BLOCK_HEADER, (size - BLOCK_HEADER) / 2, |s|);
        if out.Some? then out else FirstOut(s, p + size, end)
  }

  lemma {:induction false} ParsedEntriesEscape(
    s: seq<byte>, address: nat, at: nat, count: nat, size: nat, found: seq<nat>)
    requires address < WORD32 && at + 2 * count <= |s| && size < WORD32
    ensures
      var verdict := ParseEntries(s, address, at, count, size, found).verdict;
      var out := FirstOutOfEntries(s, address, at, count, size);
      (verdict.Done? <==> out.None?) && (verdict.Wild? <==> Fooled(out, size))
    decreases count
  {
    if count > 0 {
      ParsedEntriesEscape(s, address, at + 2, count - 1, size, found);
      ParsedEntriesEscape(s, address, at + 2, count - 1, size, found + [address + ReadU16(s, at) % 4096]);
    }
  }

  lemma {:induction false} ParsedBlocksEscape(s: seq<byte>, p: nat, end: nat, found: seq<nat>)
    requires end <= |s| < WORD32
    ensures ParseBlocks(s, p, end, found).verdict.Wild? <==> Fooled(FirstOut(s, p, end), |s|)
    decreases |s| - p
  {
    if p + BLOCK_HEADER <= end && ReadU32(s, p) != 0 {
      var size := ReadU32(s, p + 4);
      if size >= BLOCK_HEADER && p + size <= end {
        var count := (size - BLOCK_HEADER) / 2;
        ParsedEntriesEscape(s, ReadU32(s, p), p + BLOCK_HEADER, count, |s|, found);
        var block := ParseEntries(s, ReadU32(s, p), p + BLOCK_HEADER, count, |s|, found);
        if block.verdict.Done? {
          ParsedBlocksEscape(s, p + size, end, block.targets);
        }
      }
    }
  }

  /**
   A directory that does not relocate itself can be judged before the walk and whatever the distance: the
   walk writes outside the image exactly if the directory's first target outside it wraps back inside.
   */
  lemma EscapesIffParsed(s: seq<byte>, start: nat, end: nat, move: Mover)
    requires start <= end <= |s| < WORD32
    requires AllOutside(ParseBlocks(s, start, end, []).targets, start, end)
    ensures WalkBlocks(s, start, end, move).verdict.Wild? <==> Fooled(FirstOut(s, start, end), |s|)
  {
    WalkIsParse(s, start, end, move, ParseBlocks(s, start, end, []));
    ParsedBlocksEscape(s, start, end, []);
  }

  /** No block of the directory starts in the last page of the 32-bit address space. */
  predicate PagesLow(s: seq<byte>, p: nat, end: nat)
    requires end <= |s|
    decreases |s| - p
  {
    p + BLOCK_HEADER <= end && ReadU32(s, p) != 0
    && ReadU32(s, p + 4) >= BLOCK_HEADER && p + ReadU32(s, p + 4) <= end ==>
      ReadU32(s, p) <= WORD32 - 4096 && PagesLow(s, p + ReadU32(s, p + 4), end)
  }

  lemma {:induction false} LowEntriesStayInside(
    s: seq<byte>, address: nat, at: nat, count: nat, size: nat, found: seq<nat>)
    requires address <= WORD32 - 4096 && at + 2 * count <= |s|
    ensures !ParseEntries(s, address, at, count, size, found).verdict.Wild?
    decreases count
  {
    if count > 0 {
      LowEntriesStayInside(s, address, at + 2, count - 1, size, found);
      LowEntriesStayInside(s, address, at + 2, count - 1, size, found + [address + ReadU16(s, at) % 4096]);
    }
  }

  lemma {:induction false} LowBlocksStayInside(s: seq<byte>, p: nat, end: nat, found: seq<nat>)
    requires end <= |s| && PagesLow(s, p, end)
    ensures !ParseBlocks(s, p, end, found).verdict.Wild?
    decreases |s| - p
  {
    if p + BLOCK_HEADER <= end && ReadU32(s, p) != 0 {
      var size := ReadU32(s, p + 4);
      if size >= BLOCK_HEADER && p + size <= end {
        var count := (size - BLOCK_HEADER) / 2;
        LowEntriesStayInside(s, ReadU32(s, p), p + BLOCK_HEADER, count, |s|, found);
        var block := ParseEntries(s, ReadU32(s, p), p + BLOCK_HEADER, count, |s|, found);
        if block.verdict.Done? {
          LowBlocksStayInside(s, p + size, end, block.targets);
        }
      }
    }
  }

  /** So page addresses below the last page are enough for it, in an image of any size. */
  lemma LowPagesStayInside(s: seq<byte>, start: nat, end: nat, move: Mover)
    requires start <= end <= |s| && PagesLow(s, start, end)
    requires AllOutside(ParseBlocks(s, start, end, []).targets, start, end)
    ensures !WalkBlocks(s, start, end, move).verdict.Wild?
  {
    WalkIsParse(s, start, end, move, ParseBlocks(s, start, end, []));
    LowBlocksStayInside(s, start, end, []);
  }

  // ---------------------------------------------------------------- directories that fool it

  /** A directory that passes every check and yet asks for a write four gigabytes past the image. */
  lemma WrappedTargetEscapes(move: Mover) returns (s: seq<byte>)
    ensures |s| == 18 && ParseBlocks(s, 8, 18, []) == Parse([], Wild)
    ensures WalkBlocks(s, 8, 18, move) == Walk(s, Wild)
  {
    s := [0, 0, 0, 0, 0, 0, 0, 0, 0xF8, 0xFF, 0xFF, 0xFF, 10, 0, 0, 0, 0x08, 0xA0];
    assert ReadU32(s, 8) == WORD32 - 8 && ReadU32(s, 12) == 10 && ReadU16(s, 16) == 10 * 4096 + 8;
    assert ParseEntries(s, WORD32 - 8, 16, 1, 18, []) == Parse([], Wild);
    WalkIsParse(s, 8, 18, move, Parse([], Wild));
  }

  const SELF_PAGE: Word := [24, 0, 0, 0, 10, 0, 0, 0]
  const SELF_PAGE_MOVED: Word := [0xF8, 0xFF, 0xFF, 0xFF, 10, 0, 0, 0]
  const SELF_DISTANCE := 0xFFFF_FFE0

  /** Eight zero bytes, a block that relocates the header of the next one, that block, ten more bytes. */
  predicate SelfRelocating(s: seq<byte>, page: Word) {
    && |s| == 40 && s[20..28] == page
    && ReadU32(s, 8) == 12 && ReadU32(s, 12) == 12
    && ReadU16(s, 16) == 10 * 4096 + 8 && ReadU16(s, 18) == 0 && ReadU16(s, 28) == 10 * 4096 + 8
  }

  lemma EightDigits(w: Word)
    ensures
      FromLittleEndian(w) ==
      w[0] as int + 256 * (w[1] as int + 256 * (w[2] as int + 256 * (w[3] as int + 256 * (
        w[4] as int + 256 * (w[5] as int + 256 * (w[6] as int + 256 * w[7] as int))))))
  {
    assert FromLittleEndian(w) == w[0] + 256 * FromLittleEndian(w[1..]);
    assert FromLittleEndian(w[1..]) == w[1] + 256 * FromLittleEndian(w[2..]) by { assert w[1..][1..] == w[2..]; }
    assert FromLittleEndian(w[2..]) == w[2] + 256 * FromLittleEndian(w[3..]) by { assert w[2..][1..] == w[3..]; }
    assert FromLittleEndian(w[3..]) == w[3] + 256 * FromLittleEndian(w[4..]) by { assert w[3..][1..] == w[4..]; }
    assert FromLittleEndian(w[4..]) == w[4] + 256 * FromLittleEndian(w[5..]) by { assert w[4..][1..] == w[5..]; }
    assert FromLittleEndian(w[5..]) == w[5] + 256 * FromLittleEndian(w[6..]) by { assert w[5..][1..] == w[6..]; }
    assert FromLittleEndian(w[6..]) == w[6] + 256 * FromLittleEndian(w[7..]) by { assert w[6..][1..] == w[7..]; }
    assert FromLittleEndian(w[7..]) == w[7] by { assert w[7..][1..] == []; }
  }

  lemma SelfPageMoves(w: Word, w': Word)
    requires w == SELF_PAGE && w' == SELF_PAGE_MOVED
    ensures Plus(w, SELF_DISTANCE) == w'
  {
    hide FromLittleEndian, LittleEndian;
    EightDigits(w);
    EightDigits(w');
    assert FromLittleEndian(w) == 24 + 10 * WORD32;
    assert FromLittleEndian(w') == 0xFFFF_FFF8 + 10 * WORD32;
    FromLittleEndianRoundTrip(w');
  }

  lemma SelfMoves(s: seq<byte>, s': seq<byte>, move: Mover)
    requires SelfRelocating(s, SELF_PAGE) && move(SELF_PAGE) == SELF_PAGE_MOVED && s' == AddAt(s, 20, move)
    ensures SelfRelocating(s', SELF_PAGE_MOVED)
  {
    assert s'[20..28] == SELF_PAGE_MOVED;
  }

  /** The first block relocates the page address of the second. */
  lemma SelfFirstBlock(s: seq<byte>, p: nat, move: Mover) returns (s': seq<byte>)
    requires p == 8 && SelfRelocating(s, SELF_PAGE) && move(SELF_PAGE) == SELF_PAGE_MOVED
    ensures SelfRelocating(s', SELF_PAGE_MOVED) && WalkEntries(s, p, 0, 2, move) == Walk(s', Done)
  {
    s' := AddAt(s, 20, move);
    SelfMoves(s, s', move);
    hide AddAt, ReadU32, ReadU16;
    assert AfterEntry(s, p, 16, move) == Walk(s', Done);
    assert AfterEntry(s', p, 18, move) == Walk(s', Done);
    assert WalkEntries(s', p, 2, 2, move) == Walk(s', Done);
    assert WalkEntries(s', p, 1, 2, move) == Walk(s', Done);
  }

  lemma SelfPageReads(s: seq<byte>, page: Word)
    requires SelfRelocating(s, page) && (page == SELF_PAGE || page == SELF_PAGE_MOVED)
    ensures ReadU32(s, 20) == (if page == SELF_PAGE then 24 else 0xFFFF_FFF8) && ReadU32(s, 24) == 10
  {
    assert s[20] == page[0] && s[21] == page[1] && s[22] == page[2] && s[23] == page[3];
    assert s[24] == page[4] && s[25] == page[5] && s[26] == page[6] && s[27] == page[7];
  }

  /** So the sum for the second block wraps. */
  lemma SelfSecondBlock(s: seq<byte>, p: nat, end: nat, move: Mover)
    requires p == 20 && end == 30 && SelfRelocating(s, SELF_PAGE_MOVED)
    ensures WalkBlocks(s, p, end, move) == Walk(s, Wild)
  {
    SelfPageReads(s, SELF_PAGE_MOVED);
    assert AfterEntry(s, p, 28, move) == Walk(s, Wild);
    assert WalkEntries(s, p, 0, 1, move) == Walk(s, Wild);
  }

  /** As it stands at first, the directory asks for two words of the image. */
  lemma SelfParse(s: seq<byte>, p: nat, q: nat, end: nat)
    requires p == 8 && q == 20 && end == 30 && SelfRelocating(s, SELF_PAGE)
    ensures ParseBlocks(s, p, end, []) == Parse([20, 32], Done)
    ensures FirstOut(s, p, end) == None && PagesLow(s, p, end)
  {
    SelfPageReads(s, SELF_PAGE);
    var none: seq<nat> := [];
    assert ParseEntries(s, 12, 18, 1, 40, none + [20]) == Parse([20], Done);
    assert ParseEntries(s, 12, p + 8, 2, 40, none) == Parse([20], Done);
    assert ParseEntries(s, 24, q + 8, 1, 40, [20]) == Parse([20, 32], Done);
    assert ParseBlocks(s, end, end, [20, 32]) == Parse([20, 32], Done);
    assert ParseBlocks(s, q, end, [20]) == Parse([20, 32], Done);
    assert FirstOutOfEntries(s, 12, 18, 1, 40) == None && FirstOutOfEntries(s, 12, p + 8, 2, 40) == None;
    assert FirstOutOfEntries(s, 24, q + 8, 1, 40) == None && FirstOut(s, end, end) == None;
    assert FirstOut(s, q, end) == None && PagesLow(s, end, end) && PagesLow(s, q, end);
  }

  /**
   A directory whose bytes look harmless and which relocates a page address of its own: every target it asks
   for at first lies in the image, every page is low, and yet the walk writes outside.
   */
  lemma SelfRelocationEscapes() returns (s: seq<byte>)
    ensures |s| == 40 && ParseBlocks(s, 8, 30, []) == Parse([20, 32], Done)
    ensures FirstOut(s, 8, 30) == None && PagesLow(s, 8, 30)
    ensures WalkBlocks(s, 8, 30, Adder(SELF_DISTANCE)).verdict.Wild?
  {
    var zeros := seq(8, i => 0);
    s := zeros + [12, 0, 0, 0, 12, 0, 0, 0, 0x08, 0xA0, 0, 0] + SELF_PAGE + [0x08, 0xA0] + seq(10, i => 0);
    SelfImage(s);
    var p, q, end := 8, 20, 30;
    var move := Adder(SELF_DISTANCE);
    SelfPageMoves(SELF_PAGE, SELF_PAGE_MOVED);
    SelfParse(s, p, q, end);
    var s' := SelfFirstBlock(s, p, move);
    SelfSecondBlock(s', q, end, move);
    SelfWalk(s, s', p, q, end, move);
  }

  lemma SelfImage(s: seq<byte>)
    requires
      s == seq(8, i => 0) + [12, 0, 0, 0, 12, 0, 0, 0, 0x08, 0xA0, 0, 0] + SELF_PAGE + [0x08, 0xA0]
           + seq(10, i => 0)
    ensures SelfRelocating(s, SELF_PAGE)
  {
    assert s[20..28] == SELF_PAGE;
  }

  lemma SelfWalk(s: seq<byte>, s': seq<byte>, p: nat, q: nat, end: nat, move: Mover)
    requires p == 8 && q == 20 && end == 30
    requires SelfRelocating(s, SELF_PAGE) && SelfRelocating(s', SELF_PAGE_MOVED)
    requires WalkEntries(s, p, 0, 2, move) == Walk(s', Done)
    ensures WalkBlocks(s, p, end, move) == WalkBlocks(s', q, end, move)
  {
    hide ReadU32, ReadU16, WalkEntries;
  }
}
