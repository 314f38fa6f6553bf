/** When the growing array of the memory tab needs memory, and what the tab holds when it does not
    get it (data_store.c, ensure_memory_capacity and the `continue` and `return` after it). */
module Allocation {
  import opened Basics
  import opened MemoryLines
  import opened MemoryHistory

  // ---------------------------------------------------------------- capacities

  /** 256 doubled k times. */
  function Cap(k: nat): nat {
    if k == 0 then 256 else 2 * Cap(k - 1)
  }

  lemma {:induction false} CapGrows(k: nat, n: nat)
    requires k <= n
    ensures Cap(k) <= Cap(n)
    decreases n
  {
    if k < n {
      CapGrows(k, n - 1);
    }
  }

  lemma CapLimit()
    ensures Cap(20) == 0x1000_0000
  {
    assert Cap(5) == 0x2000;
    assert Cap(10) == 0x4_0000;
    assert Cap(15) == 0x80_0000;
  }

  ghost predicate Reachable(capacity: int) {
    capacity == 0 || exists k: nat :: k <= 20 && capacity == Cap(k)
  }

  lemma ReachableBound(capacity: int)
    requires Reachable(capacity)
    ensures 0 <= capacity <= 0x1000_0000
    ensures 0 < capacity ==> 256 <= capacity
  {
    CapLimit();
    if capacity != 0 {
      var k: nat :| k <= 20 && capacity == Cap(k);
      CapGrows(k, 20);
      CapGrows(0, k);
    }
  }

  /** Below the limit a capacity can be doubled without leaving `int`. */
  lemma ReachableDoubles(capacity: int)
    requires Reachable(capacity) && 0 < capacity < 0x1000_0000
    ensures Reachable(2 * capacity)
  {
    CapLimit();
    var k: nat :| k <= 20 && capacity == Cap(k);
    assert 2 * capacity == Cap(k + 1);
  }

  /** An array less than twice as long as needed is full exactly when the number of its lines is
      itself a capacity. */
  lemma FullIff(count: nat, capacity: nat)
    requires count <= capacity && Reachable(capacity) && (capacity == 0 <==> count == 0)
    requires capacity > 256 ==> capacity < 2 * count
    ensures count == capacity <==> Reachable(count)
  {
    if Reachable(count) && count != 0 {
      var i: nat :| i <= 20 && count == Cap(i);
      var k: nat :| k <= 20 && capacity == Cap(k);
      CapGrows(0, i);
      if i < k {
        CapGrows(i + 1, k);
      } else {
        CapGrows(k, i);
      }
    }
  }

  // ---------------------------------------------------------------- lines and blocks

  /** The blocks of 16 addresses of which some byte is stored. */
  function Blocks(m: Bytes): set<Word32> {
    set a | a in m :: Base(a)
  }

  function Addresses(ls: seq<MemLine>): set<Word32> {
    if ls == [] then {} else Addresses(ls[..|ls| - 1]) + {ls[|ls| - 1].address}
  }

  lemma {:induction false} AddressIn(ls: seq<MemLine>, base: Word32)
    ensures base in Addresses(ls) <==> HasLine(ls, base)
  {
    if ls != [] {
      var n := |ls| - 1;
      AddressIn(ls[..n], base);
      if HasLine(ls, base) {
        var i :| 0 <= i < |ls| && ls[i].address == base;
        assert i < n ==> ls[..n][i].address == base;
      }
    }
  }

  lemma {:induction false} AddressesCount(ls: seq<MemLine>)
    requires Ordered(ls)
    ensures |Addresses(ls)| == |ls|
  {
    if ls != [] {
      var n := |ls| - 1;
      AddressesCount(ls[..n]);
      AddressIn(ls[..n], ls[n].address);
    }
  }

  /** There are as many lines as blocks with a stored byte. */
  lemma {:induction false} LinesAreBlocks(ls: seq<MemLine>, m: Bytes)
    requires Ordered(ls) && Represents(ls, m) && NoBlank(ls)
    ensures |ls| == |Blocks(m)|
    ensures forall base :: base in Blocks(m) <==> HasLine(ls, base)
  {
    forall base: Word32
      ensures base in Blocks(m) <==> HasLine(ls, base)
      ensures base in Addresses(ls) <==> HasLine(ls, base)
    {
      AddressIn(ls, base);
      BlockAligned(m, base);
      LineAligned(ls, base);
      hide Represents, NoBlank, Ordered, HasLine, Blocks, Addresses;
      if base % 16 == 0 {
        LineIffByte(ls, m, base);
      }
    }
    AddressesCount(ls);
    assert Addresses(ls) == Blocks(m);
  }

  lemma BlockAligned(m: Bytes, base: Word32)
    ensures base in Blocks(m) <==> exists a :: a in m && Base(a) == base
    ensures base in Blocks(m) ==> base % 16 == 0
  {
  }

  lemma LineAligned(ls: seq<MemLine>, base: Word32)
    requires Ordered(ls)
    ensures HasLine(ls, base) ==> base % 16 == 0
  {
  }

  // ---------------------------------------------------------------- stores under an allocator

  /** A byte at a finds a line: its block has one, or the array has room for one, or the
      allocator gives more. */
  ghost predicate Room(m: Bytes, a: Word32, ok: bool) {
    ok || Base(a) in Blocks(m) || !Reachable(|Blocks(m)|)
  }

  /** The same read off the array. */
  lemma RoomIff(ls: seq<MemLine>, m: Bytes, capacity: nat, a: Word32, ok: bool)
    requires Ordered(ls) && Represents(ls, m) && NoBlank(ls)
    requires |ls| <= capacity && Reachable(capacity) && (capacity == 0 <==> |ls| == 0)
    requires capacity > 256 ==> capacity < 2 * |ls|
    ensures Room(m, a, ok) <==> ok || |ls| < capacity || HasLine(ls, Base(a))
  {
    hide Ordered, Represents, NoBlank, Blocks, Reachable, HasLine, Base;
    LinesAreBlocks(ls, m);
    FullIff(|ls|, capacity);
  }

  ghost function StoreUnder(m: Bytes, a: Word32, b: Byte, ok: bool): Bytes {
    if Room(m, a, ok) then m[a := b] else m
  }

  /** The bytes in turn; alloc(i) is the allocator's answer should byte i need it. */
  ghost function WriteUnder(m: Bytes, addr: Word32, bs: seq<Byte>, alloc: nat -> bool): Bytes {
    if bs == [] then m
    else
      var n := |bs| - 1;
      StoreUnder(WriteUnder(m, addr, bs[..n], alloc), Wrap(addr + n), bs[n], alloc(n))
  }

  lemma WriteUnderSnoc(m: Bytes, addr: Word32, bs: seq<Byte>, b: Byte, alloc: nat -> bool)
    ensures WriteUnder(m, addr, bs + [b], alloc)
         == StoreUnder(WriteUnder(m, addr, bs, alloc), Wrap(addr + |bs|), b, alloc(|bs|))
  {
    assert (bs + [b])[..|bs|] == bs;
  }

  lemma WriteUnderNone(m: Bytes, addr: Word32, alloc: nat -> bool)
    ensures WriteUnder(m, addr, [], alloc) == m
  {
  }

  lemma WriteUnderOne(m: Bytes, addr: Word32, b: Byte, alloc: nat -> bool)
    ensures WriteUnder(m, addr, [b], alloc) == StoreUnder(m, addr, b, alloc(0))
  {
    WriteUnderNone(m, addr, alloc);
    hide StoreUnder, WriteUnder;
    WriteUnderSnoc(m, addr, [], b, alloc);
    assert [] + [b] == [b] && Wrap(addr + 0) == addr;
  }

  ghost function StepUnder(v: MemView, w: Write, alloc: nat -> bool): MemView
    requires Proper(w)
  {
    Step(v, w).(bytes := WriteUnder(v.bytes, w.addr, w.bytes, alloc))
  }

  ghost function ReplayUnder(v: MemView, ws: seq<Write>, allocs: seq<nat -> bool>): MemView
    requires AllProper(ws) && |allocs| == |ws|
  {
    if ws == [] then v
    else
      var n := |ws| - 1;
      StepUnder(ReplayUnder(v, ws[..n], allocs[..n]), ws[n], allocs[n])
  }

  lemma ReplayUnderSnoc(v: MemView, ws: seq<Write>, allocs: seq<nat -> bool>, w: Write, alloc: nat -> bool)
    requires AllProper(ws) && |allocs| == |ws| && Proper(w)
    ensures AllProper(ws + [w])
    ensures ReplayUnder(v, ws + [w], allocs + [alloc]) == StepUnder(ReplayUnder(v, ws, allocs), w, alloc)
  {
    assert (ws + [w])[..|ws|] == ws && (allocs + [alloc])[..|ws|] == allocs;
  }

  ghost predicate Succeeds(alloc: nat -> bool) {
    forall j :: alloc(j)
  }

  /** With memory to be had every byte is stored. */
  lemma {:induction false} WriteSucceeds(m: Bytes, addr: Word32, bs: seq<Byte>, alloc: nat -> bool)
    requires Succeeds(alloc)
    ensures WriteUnder(m, addr, bs, alloc) == WriteBytes(m, addr, bs)
  {
    hide Blocks, Reachable;
    if bs != [] {
      WriteSucceeds(m, addr, bs[..|bs| - 1], alloc);
    }
  }

  /** What one message leaves at address a: its block stays, an address it does not hit is
      untouched, and one it hits holds the new byte or what it held. If the block of a had a line
      before the message, or the allocator gives memory, it holds the new byte. */
  lemma {:induction false} WriteUnderAt(m: Bytes, addr: Word32, bs: seq<Byte>, alloc: nat -> bool, a: Word32)
    requires |bs| <= 256
    ensures var o, m' := Wrap(a - addr), WriteUnder(m, addr, bs, alloc);
      Blocks(m) <= Blocks(m') &&
      if o < |bs| && (Base(a) in Blocks(m) || alloc(o)) then a in m' && m'[a] == bs[o]
      else if o < |bs| && a in m' && m'[a] == bs[o] then true
      else (a in m' <==> a in m) && (a in m ==> m'[a] == m[a])
  {
    if bs != [] {
      var n := |bs| - 1;
      WriteUnderAt(m, addr, bs[..n], alloc, a);
      WrapOffset(addr, a, n);
      hide Reachable, WriteUnder;
      LastByteUnder(m, addr, bs, alloc);
      StoreUnderGrows(WriteUnder(m, addr, bs[..n], alloc), Wrap(addr + n), bs[n], alloc(n));
      hide Blocks;
    }
  }

  lemma LastByteUnder(m: Bytes, addr: Word32, bs: seq<Byte>, alloc: nat -> bool)
    requires bs != []
    ensures var n := |bs| - 1;
      WriteUnder(m, addr, bs, alloc)
        == StoreUnder(WriteUnder(m, addr, bs[..n], alloc), Wrap(addr + n), bs[n], alloc(n))
  {
  }

  lemma StoreUnderGrows(m: Bytes, a: Word32, b: Byte, ok: bool)
    ensures Blocks(m) <= Blocks(StoreUnder(m, a, b, ok))
  {
    hide Reachable;
    forall base | base in Blocks(m)
      ensures base in Blocks(m[a := b])
    {
      var c :| c in m && Base(c) == base;
      assert c in m[a := b];
    }
  }

  // ---------------------------------------------------------------- whole histories

  /** The address range never depends on the allocator. */
  lemma {:induction false} RangeUnder(v: MemView, ws: seq<Write>, allocs: seq<nat -> bool>)
    requires AllProper(ws) && |allocs| == |ws|
    ensures var r, u := Replay(v, ws), ReplayUnder(v, ws, allocs);
      u.minAddr == r.minAddr && u.maxAddr == r.maxAddr
  {
    hide WriteUnder, WriteBytes;
    if ws != [] {
      RangeUnder(v, ws[..|ws| - 1], allocs[..|ws| - 1]);
    }
  }

  /** Where the allocator never fails the history is stored whole. */
  lemma {:induction false} ReplaySucceeds(v: MemView, ws: seq<Write>, allocs: seq<nat -> bool>)
    requires AllProper(ws) && |allocs| == |ws| && forall i :: 0 <= i < |ws| ==> Succeeds(allocs[i])
    ensures ReplayUnder(v, ws, allocs) == Replay(v, ws)
  {
    hide WriteUnder, WriteBytes;
    if ws != [] {
      var n := |ws| - 1;
      ReplaySucceeds(v, ws[..n], allocs[..n]);
      WriteSucceeds(Replay(v, ws[..n]).bytes, ws[n].addr, ws[n].bytes, allocs[n]);
    }
  }

  /** Nothing is ever shown that was not written: a stored byte was written at its address by some
      message, and a block once shown stays. */
  lemma {:induction false} OnlyWrittenBytes(v: MemView, ws: seq<Write>, allocs: seq<nat -> bool>, a: Word32)
    requires AllProper(ws) && |allocs| == |ws| && v.bytes == map[]
    ensures var m := ReplayUnder(v, ws, allocs).bytes;
      a in m ==> exists i :: 0 <= i < |ws| && Hits(ws[i], a) && m[a] == ws[i].bytes[Offset(ws[i], a)]
  {
    hide WriteUnder;
    if ws != [] {
      var n := |ws| - 1;
      OnlyWrittenBytes(v, ws[..n], allocs[..n], a);
      var earlier := ReplayUnder(v, ws[..n], allocs[..n]).bytes;
      WriteUnderAt(earlier, ws[n].addr, ws[n].bytes, allocs[n], a);
      hide Blocks, Step;
      var m := ReplayUnder(v, ws, allocs).bytes;
      if a in m && !(Hits(ws[n], a) && m[a] == ws[n].bytes[Offset(ws[n], a)]) {
        var i :| 0 <= i < n && Hits(ws[i], a) && earlier[a] == ws[i].bytes[Offset(ws[i], a)];
      }
    }
  }

  /** m holds at a the last byte the writes ws put there, or else what was held. */
  predicate HoldsSince(was: Bytes, ws: seq<Write>, m: Bytes, a: Word32) {
    match LastWritten(ws, a)
    case None => (a in m <==> a in was) && (a in m ==> m[a] == was[a])
    case Some(b) => a in m && m[a] == b
  }

  lemma HoldsSinceStep(was: Bytes, ws: seq<Write>, m: Bytes, w: Write, alloc: nat -> bool, a: Word32)
    requires HoldsSince(was, ws, m, a) && Proper(w) && Base(a) in Blocks(m)
    ensures var m' := WriteUnder(m, w.addr, w.bytes, alloc);
      HoldsSince(was, ws + [w], m', a) && Base(a) in Blocks(m')
  {
    WriteUnderAt(m, w.addr, w.bytes, alloc, a);
    hide Blocks, WriteUnder, Base;
    assert (ws + [w])[..|ws|] == ws;
  }

  lemma HoldsNothingNew(m: Bytes, a: Word32)
    ensures HoldsSince(m, [], m, a)
  {
  }

  /** A block that has a line never loses a byte, whatever the allocator does: from then on each
      of its addresses holds the last byte written to it. */
  lemma {:induction false} LinesNeverLoseBytes(v: MemView, ws: seq<Write>, allocs: seq<nat -> bool>, k: nat,
                                               a: Word32)
    requires AllProper(ws) && |allocs| == |ws| && k <= |ws|
    requires Base(a) in Blocks(ReplayUnder(v, ws[..k], allocs[..k]).bytes)
    ensures var was, m := ReplayUnder(v, ws[..k], allocs[..k]).bytes, ReplayUnder(v, ws, allocs).bytes;
      HoldsSince(was, ws[k..], m, a) && Base(a) in Blocks(m)
    decreases |ws|
  {
    hide WriteUnder, Blocks, HoldsSince, LastWritten, ReplayUnder, Base, Step;
    if k == |ws| {
      assert ws[..k] == ws && allocs[..k] == allocs && ws[k..] == [];
      HoldsNothingNew(ReplayUnder(v, ws, allocs).bytes, a);
    } else {
      var n := |ws| - 1;
      var m := ReplayUnder(v, ws[..n], allocs[..n]).bytes;
      assert ws[..n][..k] == ws[..k] && allocs[..n][..k] == allocs[..k];
      LinesNeverLoseBytes(v, ws[..n], allocs[..n], k, a);
      assert ws[k..] == ws[..n][k..] + [ws[n]];
      assert ws == ws[..n] + [ws[n]] && allocs == allocs[..n] + [allocs[n]];
      ReplayUnderSnoc(v, ws[..n], allocs[..n], ws[n], allocs[n]);
      HoldsSinceStep(ReplayUnder(v, ws[..k], allocs[..k]).bytes, ws[..n][k..], m, ws[n], allocs[n], a);
    }
  }

  /** A failing input: the first byte of all is lost when the allocator refuses. */
  lemma FirstByteNeedsMemory(a: Word32, b: Byte)
    ensures WriteUnder(map[], a, [b], _ => false) == map[] != WriteBytes(map[], a, [b])
  {
    WriteUnderOne(map[], a, b, _ => false);
    assert Blocks(map[]) == {};
    assert WriteBytes(map[], a, [b]) == map[a := b] by { assert [b][..0] == []; }
    assert a in map[a := b];
  }
}
