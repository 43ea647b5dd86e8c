/** Relocation directories written from lists of pages and offsets, and read back from their bytes. */
module RelocationDirectory {
  import opened Bytes
  import opened Relocation

  // ---------------------------------------------------------------- writing a directory

  datatype Entry = Entry(kind: nat, offset: nat)

  /** A page, its entries and, if its size is odd, one byte more. */
  datatype Block = Block(page: nat, entries: seq<Entry>, pad: seq<byte>)

  predicate EntryOk(e: Entry) { e.kind < 16 && e.offset < 4096 }

  predicate BlockOk(b: Block) {
    && 0 < b.page < 0x1_0000_0000 && |b.pad| < 2 && 8 + 2 * |b.entries| + |b.pad| < 0x1_0000_0000
    && forall i :: 0 <= i < |b.entries| ==> EntryOk(b.entries[i])
  }

  function EntryBytes(entries: seq<Entry>): (r: seq<byte>)
    ensures |r| == 2 * |entries|
  {
    if entries == [] then []
    else LittleEndian(entries[0].kind * 4096 + entries[0].offset, 2) + EntryBytes(entries[1..])
  }

  function BlockBytes(b: Block): (r: seq<byte>)
    ensures |r| == 8 + 2 * |b.entries| + |b.pad|
  {
    LittleEndian(b.page, 4) + LittleEndian(8 + 2 * |b.entries| + |b.pad|, 4) + EntryBytes(b.entries) + b.pad
  }

  function DirectoryBytes(blocks: seq<Block>): seq<byte> {
    if blocks == [] then [] else BlockBytes(blocks[0]) + DirectoryBytes(blocks[1..])
  }

  /** What the 64-bit entries of a page ask for; entries of other kinds ask for nothing. */
  function EntryTargets(page: nat, entries: seq<Entry>): seq<nat> {
    if entries == [] then []
    else
      (if entries[0].kind == 10 then [page + entries[0].offset] else []) + EntryTargets(page, entries[1..])
  }

  function Targets(blocks: seq<Block>): seq<nat> {
    if blocks == [] then [] else EntryTargets(blocks[0].page, blocks[0].entries) + Targets(blocks[1..])
  }

  /** A pointer at any of the targets would lie in an image of this size. */
  predicate InImage(targets: seq<nat>, size: nat) { forall i :: 0 <= i < |targets| ==> targets[i] + 8 <= size }

  // ---------------------------------------------------------------- words

  /** The bytes `w` stand at `p`. */
  predicate Holds(s: seq<byte>, p: nat, w: seq<byte>) { p + |w| <= |s| && s[p..p + |w|] == w }

  lemma HoldsBoth(s: seq<byte>, p: nat, v: seq<byte>, w: seq<byte>)
    ensures Holds(s, p, v + w) <==> Holds(s, p, v) && Holds(s, p + |v|, w)
  {
    if p + |v + w| <= |s| {
      var all, first, second := s[p..p + |v + w|], s[p..p + |v|], s[p + |v|..p + |v| + |w|];
      assert all == first + second;
      assert all == v + w ==> first == (v + w)[..|v|] && second == (v + w)[|v|..];
    }
  }

  lemma ReadU16IsLittleEndian(s: seq<byte>, i: nat)
    requires i + 2 <= |s|
    ensures ReadU16(s, i) == FromLittleEndian(s[i..i + 2])
  {
    var w := s[i..i + 2];
    assert w[1..][1..] == [];
    assert FromLittleEndian(w[1..]) == w[1];
  }

  lemma ReadU32IsLittleEndian(s: seq<byte>, i: nat)
    requires i + 4 <= |s|
    ensures ReadU32(s, i) == FromLittleEndian(s[i..i + 4])
  {
    var w := s[i..i + 4];
    assert w[1..][1..] == w[2..] && w[2..][1..] == w[3..] && w[3..][1..] == [];
    assert FromLittleEndian(w[2..]) == w[2] + 256 * FromLittleEndian(w[3..]);
    assert FromLittleEndian(w[1..]) == w[1] + 256 * FromLittleEndian(w[2..]);
  }

  lemma HalfWordReads(s: seq<byte>, i: nat, v: nat)
    requires Holds(s, i, LittleEndian(v, 2)) && v < 65536
    ensures i + 2 <= |s| && ReadU16(s, i) == v
  {
    assert Radix(1) == 256 && Radix(2) == 65536;
    LittleEndianRoundTrip(v, 2);
    ReadU16IsLittleEndian(s, i);
  }

  lemma WordReads(s: seq<byte>, i: nat, v: nat)
    requires Holds(s, i, LittleEndian(v, 4)) && v < 0x1_0000_0000
    ensures i + 4 <= |s| && ReadU32(s, i) == v
  {
    RadixValues();
    LittleEndianRoundTrip(v, 4);
    ReadU32IsLittleEndian(s, i);
  }

  // ---------------------------------------------------------------- one block

  /** The entry at `at` reads as it was written, and the others stand behind it. */
  lemma EntryReads(s: seq<byte>, at: nat, entries: seq<Entry>)
    requires entries != [] && EntryOk(entries[0]) && Holds(s, at, EntryBytes(entries))
    ensures at + 2 <= |s| && Holds(s, at + 2, EntryBytes(entries[1..]))
    ensures ReadU16(s, at) / 4096 == entries[0].kind && ReadU16(s, at) % 4096 == entries[0].offset
  {
    var word := entries[0].kind * 4096 + entries[0].offset;
    HoldsBoth(s, at, LittleEndian(word, 2), EntryBytes(entries[1..]));
    HalfWordReads(s, at, word);
  }

  lemma InBoth(a: seq<nat>, b: seq<nat>, size: nat)
    ensures InImage(a + b, size) <==> InImage(a, size) && InImage(b, size)
  {
    assert forall i :: 0 <= i < |a| ==> a[i] == (a + b)[i];
    assert forall i :: 0 <= i < |b| ==> b[i] == (a + b)[|a| + i];
  }

  /** Entries whose targets lie in the image are read one after the other. */
  lemma {:induction false} EntriesRead(
    s: seq<byte>, page: nat, at: nat, entries: seq<Entry>, more: nat, found: seq<nat>)
    requires page < 0x1_0000_0000 && at + 2 * |entries| + 2 * more <= |s| < 0x1_0000_0000
    requires Holds(s, at, EntryBytes(entries))
    requires forall i :: 0 <= i < |entries| ==> EntryOk(entries[i])
    requires InImage(EntryTargets(page, entries), |s|)
    ensures
      ParseEntries(s, page, at, |entries| + more, |s|, found)
      == ParseEntries(s, page, at + 2 * |entries|, more, |s|, found + EntryTargets(page, entries))
    decreases |entries|
  {
    hide ReadU16, EntryBytes, Holds, InImage;
    if entries == [] {
      assert found + [] == found;
    } else {
      var rest, first := entries[1..], if entries[0].kind == 10 then [page + entries[0].offset] else [];
      EntryReads(s, at, entries);
      InBoth(first, EntryTargets(page, rest), |s|);
      EntriesRead(s, page, at + 2, rest, more, found + first);
      assert (found + first) + EntryTargets(page, rest) == found + EntryTargets(page, entries);
      NextEntryRead(s, page, at, entries[0], |rest| + more, found, first);
    }
  }

  lemma NextEntryRead(s: seq<byte>, page: nat, at: nat, e: Entry, more: nat, found: seq<nat>, first: seq<nat>)
    requires page < 0x1_0000_0000 && at + 2 + 2 * more <= |s| < 0x1_0000_0000 && EntryOk(e)
    requires ReadU16(s, at) / 4096 == e.kind && ReadU16(s, at) % 4096 == e.offset
    requires first == if e.kind == 10 then [page + e.offset] else []
    requires InImage(first, |s|)
    ensures
      ParseEntries(s, page, at, 1 + more, |s|, found) == ParseEntries(s, page, at + 2, more, |s|, found + first)
  {
    if e.kind == 10 {
      assert first[0] + 8 <= |s|;
    } else {
      assert found + first == found;
    }
  }

  lemma BlockReads(s: seq<byte>, p: nat, b: Block)
    requires BlockOk(b) && Holds(s, p, BlockBytes(b))
    ensures p + |BlockBytes(b)| <= |s| && ReadU32(s, p) == b.page && ReadU32(s, p + 4) == |BlockBytes(b)|
    ensures Holds(s, p + 8, EntryBytes(b.entries))
  {
    hide ReadU32, LittleEndian, EntryBytes;
    var size := 8 + 2 * |b.entries| + |b.pad|;
    var first, second, third := LittleEndian(b.page, 4), LittleEndian(size, 4), EntryBytes(b.entries);
    HoldsBoth(s, p, first + second + third, b.pad);
    HoldsBoth(s, p, first + second, third);
    HoldsBoth(s, p, first, second);
    WordReads(s, p, b.page);
    WordReads(s, p + 4, size);
  }

  lemma BlockStep(s: seq<byte>, p: nat, end: nat, b: Block, found: seq<nat>)
    requires BlockOk(b) && p + |BlockBytes(b)| <= end <= |s|
    requires ReadU32(s, p) == b.page && ReadU32(s, p + 4) == |BlockBytes(b)|
    ensures
      var block := ParseEntries(s, b.page, p + 8, |b.entries|, |s|, found);
      ParseBlocks(s, p, end, found) ==
        if block.verdict.Done? then ParseBlocks(s, p + |BlockBytes(b)|, end, block.targets) else block
  {
    hide ReadU32;
  }

  // ---------------------------------------------------------------- the whole directory

  /** Blocks that can be written down, with every target in the image. */
  predicate BlocksOk(blocks: seq<Block>, size: nat) {
    (forall i :: 0 <= i < |blocks| ==> BlockOk(blocks[i])) && InImage(Targets(blocks), size)
  }

  /** Blocks whose targets lie in the image are read one after the other. */
  lemma {:induction false} BlocksRead(s: seq<byte>, p: nat, end: nat, blocks: seq<Block>, found: seq<nat>)
    requires BlocksOk(blocks, |s|) && Holds(s, p, DirectoryBytes(blocks))
    requires p + |DirectoryBytes(blocks)| <= end <= |s| < 0x1_0000_0000
    ensures
      ParseBlocks(s, p, end, found)
      == ParseBlocks(s, p + |DirectoryBytes(blocks)|, end, found + Targets(blocks))
    decreases |blocks|
  {
    hide ReadU32, BlockBytes, EntryBytes, Holds, ParseBlocks, ParseEntries, EntryTargets, InImage;
    if blocks == [] {
      assert found + [] == found;
    } else {
      var b, rest := blocks[0], blocks[1..];
      HoldsBoth(s, p, BlockBytes(b), DirectoryBytes(rest));
      InBoth(EntryTargets(b.page, b.entries), Targets(rest), |s|);
      BlockReads(s, p, b);
      BlockStep(s, p, end, b, found);
      var first := EntryTargets(b.page, b.entries);
      WholeBlockRead(s, p, b, found);
      BlocksRead(s, p + |BlockBytes(b)|, end, rest, found + first);
      assert (found + first) + Targets(rest) == found + Targets(blocks);
    }
  }

  lemma WholeBlockRead(s: seq<byte>, p: nat, b: Block, found: seq<nat>)
    requires BlockOk(b) && p + 8 + 2 * |b.entries| <= |s| < 0x1_0000_0000
    requires Holds(s, p + 8, EntryBytes(b.entries)) && InImage(EntryTargets(b.page, b.entries), |s|)
    ensures
      ParseEntries(s, b.page, p + 8, |b.entries|, |s|, found)
      == Parse(found + EntryTargets(b.page, b.entries), Done)
  {
    EntriesRead(s, b.page, p + 8, b.entries, 0, found);
  }

  /** What can follow the last block: too little for a block, or a page address of zero. */
  predicate IsEnd(tail: seq<byte>) { |tail| < 8 || tail[..4] == [0, 0, 0, 0] }

  /** Or a block that says it is smaller than its header or larger than what is left of the directory. */
  predicate IsBadBlock(tail: seq<byte>) {
    && |tail| >= 8 && tail[..4] != [0, 0, 0, 0]
    && (FromLittleEndian(tail[4..8]) < 8 || |tail| < FromLittleEndian(tail[4..8]))
  }

  lemma ZeroPage(s: seq<byte>, i: nat)
    requires i + 4 <= |s|
    ensures ReadU32(s, i) == 0 <==> s[i..i + 4] == [0, 0, 0, 0]
  {
  }

  lemma TailRead(s: seq<byte>, p: nat, end: nat, tail: seq<byte>, found: seq<nat>)
    requires Holds(s, p, tail) && p + |tail| == end
    ensures IsEnd(tail) ==> ParseBlocks(s, p, end, found) == Parse(found, Done)
    ensures IsBadBlock(tail) ==> ParseBlocks(s, p, end, found) == Parse(found, Invalid)
  {
    hide ReadU32;
    if |tail| >= 8 {
      assert tail == tail[..4] + (tail[4..8] + tail[8..]);
      HoldsBoth(s, p, tail[..4], tail[4..8] + tail[8..]);
      HoldsBoth(s, p + 4, tail[4..8], tail[8..]);
      ZeroPage(s, p);
      ReadU32IsLittleEndian(s, p + 4);
    }
  }

  /** Every target that was written is read, in order, and the end of the directory says how it is judged. */
  lemma WrittenDirectoryIsRead(s: seq<byte>, start: nat, end: nat, blocks: seq<Block>, tail: seq<byte>)
    requires BlocksOk(blocks, |s|) && |s| < 0x1_0000_0000
    requires start <= end <= |s| && s[start..end] == DirectoryBytes(blocks) + tail
    ensures IsEnd(tail) ==> ParseBlocks(s, start, end, []) == Parse(Targets(blocks), Done)
    ensures IsBadBlock(tail) ==> ParseBlocks(s, start, end, []) == Parse(Targets(blocks), Invalid)
  {
    HoldsBoth(s, start, DirectoryBytes(blocks), tail);
    hide DirectoryBytes, BlocksOk, Targets, IsEnd, IsBadBlock, ParseBlocks;
    BlocksRead(s, start, end, blocks, []);
    assert [] + Targets(blocks) == Targets(blocks);
    TailRead(s, start + |DirectoryBytes(blocks)|, end, tail, Targets(blocks));
  }

  /** So the walk adds the distance to exactly the words that were written down, if none is in the directory. */
  lemma WrittenDirectoryIsFollowed(
    s: seq<byte>, start: nat, end: nat, blocks: seq<Block>, tail: seq<byte>, delta: Word64)
    requires BlocksOk(blocks, |s|) && |s| < 0x1_0000_0000
    requires start <= end <= |s| && s[start..end] == DirectoryBytes(blocks) + tail && IsEnd(tail)
    requires forall i :: 0 <= i < |Targets(blocks)| ==> Targets(blocks)[i] + 8 <= start || end <= Targets(blocks)[i]
    ensures AllFit(Targets(blocks), |s|)
    ensures WalkBlocks(s, start, end, Adder(delta)) == Walk(Relocated(s, Targets(blocks), Adder(delta)), Done)
  {
    WrittenDirectoryIsRead(s, start, end, blocks, tail);
    WalkIsParse(s, start, end, Adder(delta), Parse(Targets(blocks), Done));
  }

  // ---------------------------------------------------------------- the first target outside the image

  /** Some entries whose targets lie in the image, then one for a pointer that does not. */
  predicate LeavesImage(b: Block, k: nat, size: nat) {
    && k < |b.entries| && InImage(EntryTargets(b.page, b.entries[..k]), size)
    && b.entries[k].kind == 10 && size < b.page + b.entries[k].offset + 8
  }

  /** The check refuses such a target, unless the sum passes 2^32 and comes back inside the image. */
  lemma LeavingIsRefused(s: seq<byte>, start: nat, end: nat, blocks: seq<Block>, b: Block, k: nat)
    requires BlocksOk(blocks, |s|) && BlockOk(b) && LeavesImage(b, k, |s|)
    requires Holds(s, start, DirectoryBytes(blocks) + BlockBytes(b))
    requires start + |DirectoryBytes(blocks) + BlockBytes(b)| <= end <= |s| < 0x1_0000_0000
    ensures
      var found, target := Targets(blocks) + EntryTargets(b.page, b.entries[..k]), b.page + b.entries[k].offset;
      ParseBlocks(s, start, end, [])
      == Parse(found, if 0x1_0000_0000 <= target <= 0x1_0000_0000 + |s| - 8 then Wild else Invalid)
  {
    hide Holds, BlockBytes, DirectoryBytes, BlocksOk, Targets, EntryTargets, LeavesImage, ParseBlocks;
    HoldsBoth(s, start, DirectoryBytes(blocks), BlockBytes(b));
    BlocksRead(s, start, end, blocks, []);
    assert [] + Targets(blocks) == Targets(blocks);
    LeavingBlock(s, start + |DirectoryBytes(blocks)|, end, b, k, Targets(blocks));
  }

  lemma LeavingBlock(s: seq<byte>, p: nat, end: nat, b: Block, k: nat, found: seq<nat>)
    requires BlockOk(b) && p + |BlockBytes(b)| <= end <= |s| < 0x1_0000_0000
    requires Holds(s, p, BlockBytes(b)) && LeavesImage(b, k, |s|)
    ensures
      var target := b.page + b.entries[k].offset;
      ParseBlocks(s, p, end, found)
      == Parse(
           found + EntryTargets(b.page, b.entries[..k]),
           if 0x1_0000_0000 <= target <= 0x1_0000_0000 + |s| - 8 then Wild else Invalid)
  {
    hide ReadU32, ReadU16, EntryBytes, EntryTargets, Holds, ParseBlocks;
    BlockReads(s, p, b);
    BlockStep(s, p, end, b, found);
    var front, back := b.entries[..k], b.entries[k..];
    assert front + back == b.entries;
    EntryBytesOfSum(front, back);
    HoldsBoth(s, p + 8, EntryBytes(front), EntryBytes(back));
    EntriesRead(s, b.page, p + 8, front, |back|, found);
    EntryReads(s, p + 8 + 2 * k, back);
  }

  lemma {:induction false} EntryBytesOfSum(a: seq<Entry>, b: seq<Entry>)
    ensures EntryBytes(a + b) == EntryBytes(a) + EntryBytes(b)
    decreases |a|
  {
    if a == [] {
      assert a + b == b;
    } else {
      assert (a + b)[1..] == a[1..] + b;
      EntryBytesOfSum(a[1..], b);
    }
  }
}
