/** The memory of the target process as the debugger sees it: mapped addresses, remote writes, allocations. */
module TargetMemory {
  import opened Bytes
  import opened Trampoline

  /** User-mode addresses lie below this bound. */
  const USER_SPACE := 0x8000_0000_0000

  predicate InRange(x: int, start: int, n: nat) { start <= x < start + n }

  predicate Mapped(m: Memory, start: int, n: nat) { forall x: int :: start <= x < start + n ==> x in m }

  predicate Unmapped(m: Memory, start: int, n: nat) { forall x: int :: start <= x < start + n ==> x !in m }

  predicate Apart(a: int, n: nat, b: int, k: nat) { a + n <= b || b + k <= a || n == 0 || k == 0 }

  function Read(m: Memory, start: int, n: nat): (bytes: seq<byte>)
    requires Mapped(m, start, n)
    ensures |bytes| == n && CodeAt(m, start, bytes)
  {
    seq(n, i requires 0 <= i < n => m[start + i])
  }

  function Write(m: Memory, start: int, bytes: seq<byte>): (r: Memory)
    ensures r.Keys == m.Keys
    ensures forall x :: x in m ==> r[x] == if InRange(x, start, |bytes|) then bytes[x - start] else m[x]
  {
    map x | x in m.Keys :: if InRange(x, start, |bytes|) then bytes[x - start] else m[x]
  }

  function Reserve(m: Memory, start: int, n: nat): (r: Memory)
    ensures forall x :: x in r <==> x in m || InRange(x, start, n)
    ensures forall x :: x in r ==> r[x] == if InRange(x, start, n) then 0 else m[x]
  {
    m + (map x: int | start <= x < start + n && InRange(x, start, n) :: 0)
  }

  function Release(m: Memory, start: int, n: nat): (r: Memory)
    ensures forall x :: x in r <==> x in m && !InRange(x, start, n)
    ensures forall x :: x in r ==> r[x] == m[x]
  {
    map x | x in m.Keys && !InRange(x, start, n) :: m[x]
  }

  lemma WrittenIsThere(m: Memory, start: int, bytes: seq<byte>)
    requires Mapped(m, start, |bytes|)
    ensures CodeAt(Write(m, start, bytes), start, bytes)
  {
    var r := Write(m, start, bytes);
    forall x: int | start <= x < start + |bytes| ensures x in r && r[x] == bytes[x - start] {
      assert x in m && InRange(x, start, |bytes|);
    }
  }

  lemma WriteElsewhere(m: Memory, start: int, bytes: seq<byte>, at: int, code: seq<byte>)
    requires CodeAt(m, at, code) && Apart(at, |code|, start, |bytes|)
    ensures CodeAt(Write(m, start, bytes), at, code)
  {
    var r := Write(m, start, bytes);
    forall x: int | at <= x < at + |code| ensures x in r && r[x] == code[x - at] {
      assert x in m && !InRange(x, start, |bytes|);
    }
  }
}
