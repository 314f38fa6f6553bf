/** The memory tab as the program keeps it: a growing array of lines searched by bisection and
    kept sorted by shifting (data_store.c, MemoryData). A NULL array is an array of length 0. */
module MemoryStore {
  import opened Basics
  import opened Messages
  import opened HexText
  import opened MemoryLines
  import opened MemoryHistory
  import opened Allocation
  import Scroll

  // ---------------------------------------------------------------- growth

  function DoubleUntil(c: nat, needed: nat): (r: nat)
    requires c > 0
    ensures r >= needed && r >= c
    decreases needed - c
  {
    if c >= needed then c else DoubleUntil(2 * c, needed)
  }

  /** Capacity after a successful ensure_memory_capacity. */
  function Grown(capacity: nat, needed: nat): nat {
    if needed <= capacity then capacity
    else DoubleUntil(if capacity == 0 then 256 else 2 * capacity, needed)
  }

  lemma GrownEnough(capacity: nat, needed: nat)
    ensures Grown(capacity, needed) >= needed
    ensures needed <= capacity ==> Grown(capacity, needed) == capacity
    ensures needed > capacity ==> Grown(capacity, needed) > capacity
  {
  }

  /** The doubling of ensure_memory_capacity, within `int` as long as needed is at most 2^28. */
  method NextCapacity(capacity: Int32, needed: Int32) returns (newCapacity: Int32)
    requires Reachable(capacity) && capacity < needed <= 0x1000_0000
    ensures Reachable(newCapacity) && newCapacity == Grown(capacity, needed) > capacity
    ensures newCapacity >= needed
  {
    ReachableBound(capacity);
    if capacity > 0 { ReachableDoubles(capacity); }
    assert Reachable(256) by { assert Cap(0) == 256; }
    newCapacity := if capacity == 0 then 256 else capacity * 2;
    while newCapacity < needed
      invariant newCapacity > 0 && newCapacity > capacity && Reachable(newCapacity)
      invariant DoubleUntil(newCapacity, needed) == Grown(capacity, needed)
      decreases needed - newCapacity
    {
      ReachableDoubles(newCapacity);
      ReachableBound(2 * newCapacity);
      newCapacity := newCapacity * 2;
    }
  }

  /** realloc to a larger size. */
  method Reallocate(was: array<MemLine>, size: nat) returns (now: array<MemLine>)
    requires was.Length <= size
    ensures fresh(now) && now.Length == size && now[..was.Length] == was[..]
  {
    now := new MemLine[size](i reads was => if 0 <= i < was.Length then was[i] else Blank(0));
  }

  /** memmove the lines from low up by one and set the line at low. */
  method OpenSlot(lines: array<MemLine>, count: nat, low: nat, l: MemLine)
    requires low <= count < lines.Length
    modifies lines
    ensures lines[..count + 1] == Insert(old(lines[..count]), low, l)
  {
    forall i | low < i <= count {
      lines[i] := lines[i - 1];
    }
    lines[low] := l;
    InsertedLines(old(lines[..count]), low, l, lines[..count + 1]);
  }

  /** The only caller asks for one line more than it holds; then one doubling is always enough
      and the inner doubling loop never runs. */
  lemma OneDoublingSuffices(count: nat, capacity: nat)
    requires count <= capacity
    ensures Grown(capacity, count + 1)
         == if count < capacity then capacity else if capacity == 0 then 256 else 2 * capacity
  {
  }

  // ---------------------------------------------------------------- messages

  /** What a memory message stores, if anything. */
  function Stored(d: ParsedData): (w: Option<Write>)
    ensures w.Some? ==> Proper(w.value)
  {
    if !d.hasAddr then None
    else if d.sec == "dump" then
      var bs := HexBytes(d.val, 256);
      HexBytesBound(d.val, 256);
      if bs == [] then None else Some(Write(ParseHex(d.addr), bs))
    else if (d.sec == "read" || d.sec == "write") && d.fld == "byte" then
      Some(Write(ParseHex(d.addr), [ParseHex(d.val) % 256]))
    else None
  }

  lemma HexBytesBound(hex: string, max: nat)
    ensures |HexBytes(hex, max)| <= max
  {
  }

  /** Storing into a line that was there or has just been opened. */
  lemma PutInLine(was: seq<MemLine>, open: seq<MemLine>, i: nat, m: Bytes, a: Word32, b: Byte)
    requires Ordered(open) && Represents(open, m) && NoBlank(was)
    requires i < |open| && i <= |was| && open[i].address == Base(a)
    requires open == was || open == Insert(was, i, Blank(Base(a)))
    ensures |open[i].data| == |open[i].valid| == 16
    ensures var put := open[i := StoreIn(open[i], a % 16, b)];
      Ordered(put) && Represents(put, m[a := b]) && NoBlank(put)
  {
    BaseBelow(a);
    StoreRepresents(open, m, i, a, b);
    StoreInShaped(open[i], a % 16, b);
    InsertAt(was, i, Blank(Base(a)));
    var put := open[i := StoreIn(open[i], a % 16, b)];
    forall k | 0 <= k < |put|
      ensures put[k].validCount >= 1
    {
      if k > i && open != was {
        assert put[k] == was[k - 1];
      }
    }
  }

  // ---------------------------------------------------------------- the store

  class MemoryData {
    var lines: array<MemLine>
    var count: Int32
    var capacity: Int32
    var scrollPos: Int32
    var minAddr: Word32
    var maxAddr: Word32

    /** What the store says, as a map. */
    ghost var Contents: Bytes
    /** Lines moved by realloc since the store was last empty. */
    ghost var Copied: nat

    ghost function Lines(): seq<MemLine>
      requires 0 <= count <= lines.Length
      reads this, lines
    {
      lines[..count]
    }

    ghost function View(): MemView
      reads this
    {
      MemView(Contents, minAddr, maxAddr)
    }

    /** What holds at every step, even while a new line is still blank. */
    ghost predicate Shape()
      reads this, lines
    {
      0 <= count <= capacity == lines.Length && Reachable(capacity) && 0 <= scrollPos &&
      Ordered(Lines()) && Represents(Lines(), Contents)
    }

    /** Growth is paid for: there is an array only when there is a line, it is less than twice as
        long as needed, and all copying so far moved fewer lines than it holds. */
    ghost predicate Economical()
      reads this
    {
      (capacity == 0 <==> count == 0) && (capacity > 256 ==> capacity < 2 * count) &&
      Copied == if capacity == 0 then 0 else capacity - 256
    }

    /** What holds between messages. */
    ghost predicate Valid()
      reads this, lines
    {
      Shape() && Economical() && NoBlank(Lines())
    }

    ghost function Position(): Scroll.Position
      requires 0 <= count
      reads this
    {
      Scroll.Position(count, scrollPos)
    }

    /** datastore_init. */
    constructor ()
      ensures Valid() && fresh(lines) && Lines() == [] && View() == INITIAL && Position() == Scroll.Position(0, 0)
    {
      lines := new MemLine[0];
      count, capacity, scrollPos, minAddr, maxAddr := 0, 0, 0, 0, 0;
      Contents, Copied := map[], 0;
    }

    /** datastore_memory_clear. */
    method Clear()
      modifies this
      ensures Valid() && fresh(lines) && Lines() == [] && View() == CLEARED
      ensures Position() == Scroll.Position(0, 0)
      ensures capacity == 0 && Copied == 0
    {
      lines := new MemLine[0];
      count, capacity, scrollPos, minAddr, maxAddr := 0, 0, 0, 0xFFFF_FFFF, 0;
      Contents, Copied := map[], 0;
    }

    /** ensure_memory_capacity; ok tells whether realloc succeeds. */
    method EnsureCapacity(needed: Int32, ok: bool) returns (r: int)
      requires Shape() && 0 <= needed <= 0x1000_0000
      modifies `lines, `capacity, `Copied
      ensures Shape() && Lines() == old(Lines()) && (lines == old(lines) || fresh(lines))
      ensures r == -1 || r == 0
      ensures r == -1 <==> !ok && needed > old(capacity)
      ensures r == 0 ==> capacity == Grown(old(capacity), needed)
      ensures capacity == old(capacity) ==> Copied == old(Copied)
      ensures capacity != old(capacity) ==> r == 0 && Copied == old(Copied) + old(capacity)
    {
      hide Ordered, Represents, Reachable, Grown;
      if needed <= capacity {
        GrownEnough(capacity, needed);
        return 0;
      }
      var newCapacity := NextCapacity(capacity, needed);
      if !ok { return -1; }
      var newLines := Reallocate(lines, newCapacity);
      assert newLines[..count] == lines[..count];
      Copied := Copied + capacity;
      lines, capacity := newLines, newCapacity;
      return 0;
    }

    /** The bisection shared by find_or_create_mem_line and datastore_memory_find_addr. */
    method Search(lineAddr: Word32) returns (found: bool, pos: Int32)
      requires Shape() && lineAddr % 16 == 0
      ensures 0 <= pos <= count
      ensures found ==> pos < count && lines[pos].address == lineAddr
      ensures !found ==> Slot(Lines(), pos, lineAddr)
    {
      LineBound(Lines());
      var low: Int32, high: Int32 := 0, count - 1;
      while low <= high
        invariant 0 <= low <= high + 1 <= count
        invariant forall k :: 0 <= k < low ==> Lines()[k].address < lineAddr
        invariant forall k :: high < k < count ==> lineAddr < Lines()[k].address
      {
        var sum: Int32 := low + high;
        var mid: Int32 := sum / 2;
        assert lines[mid] == Lines()[mid];
        if lines[mid].address == lineAddr {
          return true, mid;
        }
        if lines[mid].address < lineAddr {
          low := mid + 1;
        } else {
          high := mid - 1;
        }
      }
      return false, low;
    }

    /** find_or_create_mem_line. */
    method FindOrCreate(lineAddr: Word32, ok: bool) returns (idx: Int32)
      requires Shape() && Economical() && lineAddr % 16 == 0
      modifies `lines, `count, `capacity, `Copied, lines
      ensures Shape() && Economical() && (lines == old(lines) || fresh(lines))
      ensures idx < 0 <==> !ok && old(count) == old(capacity) && !HasLine(old(Lines()), lineAddr)
      ensures idx < 0 ==> Lines() == old(Lines()) && count == old(count)
      ensures idx >= 0 ==> idx < count && idx <= old(count) && Lines()[idx].address == lineAddr
      ensures idx >= 0 ==> Lines() == if HasLine(old(Lines()), lineAddr) then old(Lines())
                                      else Insert(old(Lines()), idx, Blank(lineAddr))
    {
      hide Ordered, Represents, Reachable, Slot, Grown, Insert;
      ghost var was := Lines();
      var found, low := Search(lineAddr);
      if found {
        assert was[low].address == lineAddr;
        return low;
      }
      SlotIsFree(was, low, lineAddr);
      InsertBlank(was, Contents, low, lineAddr);
      InsertAt(was, low, Blank(lineAddr));
      LineBound(Insert(was, low, Blank(lineAddr)));
      OneDoublingSuffices(count, capacity);
      var grown := EnsureCapacity(count + 1, ok);
      if grown < 0 { return -1; }
      OpenSlot(lines, count, low, Blank(lineAddr));
      count := count + 1;
      return low;
    }

    /** The part common to process_memory_dump and process_memory_byte: store one byte, if its
        line exists, the array has room for one, or the allocator gives more. */
    method PutByte(a: Word32, b: Byte, ok: bool)
      requires Valid()
      modifies `lines, `count, `capacity, `Copied, `Contents, lines
      ensures Valid() && (lines == old(lines) || fresh(lines))
      ensures Contents == StoreUnder(old(Contents), a, b, ok)
      ensures !Room(old(Contents), a, ok) ==> Lines() == old(Lines())
      ensures count >= old(count)
    {
      BaseBelow(a);
      var lineAddr: Word32 := a / 16 * 16;
      assert lineAddr == Base(a);
      RoomIff(Lines(), Contents, capacity, a, ok);
      hide Ordered, Represents, Reachable, HasLine, Base, NoBlank, StoreIn, Insert, Room, MemoryData.Economical;
      ghost var was := Lines();
      var idx := FindOrCreate(lineAddr, ok);
      if idx < 0 { return; }
      PutInLine(was, Lines(), idx, Contents, a, b);
      Mark(idx, a, b);
    }

    /** Set a byte of an existing line and its valid flag. */
    method Mark(idx: Int32, a: Word32, b: Byte)
      requires Shape() && Economical() && 0 <= idx < count && Lines()[idx].address == Base(a)
      modifies lines, `Contents
      ensures Shape() && Economical() && Contents == old(Contents)[a := b]
      ensures |old(Lines()[idx].data)| == |old(Lines()[idx].valid)| == 16
      ensures Lines() == old(Lines())[idx := StoreIn(old(Lines()[idx]), a % 16, b)]
    {
      ghost var was := Lines();
      BaseBelow(a);
      StoreRepresents(was, Contents, idx, a, b);
      var offset := a % 16;
      hide Represents;
      lines[idx] := StoreIn(lines[idx], offset, b);
      Contents := Contents[a := b];
      assert Lines() == was[idx := StoreIn(was[idx], offset, b)];
    }

    /** The byte loop of process_memory_dump; alloc(i) is the answer to byte i should it need
        memory. */
    method PutBytes(addr: Word32, bytes: seq<Byte>, alloc: nat -> bool)
      requires Valid()
      modifies `lines, `count, `capacity, `Copied, `Contents, lines
      ensures Valid() && (lines == old(lines) || fresh(lines))
      ensures count >= old(count)
      ensures Contents == WriteUnder(old(Contents), addr, bytes, alloc)
    {
      ghost var m := Contents;
      WriteUnderNone(m, addr, alloc);
      hide MemoryData.Valid, MemoryData.Lines, WriteUnder, StoreUnder, Room, Wrap;
      assert bytes[..0] == [];
      for i := 0 to |bytes|
        invariant Valid() && (lines == old(lines) || fresh(lines))
        invariant count >= old(count)
        invariant Contents == WriteUnder(m, addr, bytes[..i], alloc)
      {
        PutByte(Wrap(addr + i), bytes[i], alloc(i));
        WriteUnderSnoc(m, addr, bytes[..i], bytes[i], alloc);
        assert bytes[..i + 1] == bytes[..i] + [bytes[i]];
      }
      assert bytes[..|bytes|] == bytes;
    }

    /** process_memory_dump. */
    method ProcessDump(d: ParsedData, alloc: nat -> bool)
      requires Valid() && d.sec == "dump"
      modifies this, lines
      ensures Valid() && (lines == old(lines) || fresh(lines))
      ensures scrollPos == old(scrollPos) && count >= old(count)
      ensures View() == TakeUnder(old(View()), Stored(d), alloc)
    {
      hide Ordered, Represents, Reachable, NoBlank, HexBytes, ParseHex, WriteUnder;
      if !d.hasAddr { return; }
      var addr := ParseHex(d.addr);
      var bytes := ParseHexData(d.val, 256);
      if |bytes| == 0 { return; }
      var last: Word32 := Wrap(addr + |bytes| - 1);
      if addr < minAddr { minAddr := addr; }
      if last > maxAddr { maxAddr := last; }
      assert Valid();
      hide MemoryData.Valid;
      PutBytes(addr, bytes, alloc);
    }

    /** process_memory_byte. */
    method ProcessByte(d: ParsedData, alloc: nat -> bool)
      requires Valid() && (d.sec == "read" || d.sec == "write") && d.fld == "byte"
      modifies this, lines
      ensures Valid() && (lines == old(lines) || fresh(lines))
      ensures scrollPos == old(scrollPos) && count >= old(count)
      ensures View() == TakeUnder(old(View()), Stored(d), alloc)
    {
      hide Ordered, Represents, Reachable, NoBlank, ParseHex, WriteUnder, Room;
      if !d.hasAddr { return; }
      var addr := ParseHex(d.addr);
      var byteVal := ParseHex(d.val) % 256;
      if addr < minAddr { minAddr := addr; }
      if addr > maxAddr { maxAddr := addr; }
      assert Valid();
      hide MemoryData.Valid, StoreUnder;
      WriteUnderOne(Contents, addr, byteVal, alloc);
      PutByte(addr, byteVal, alloc(0));
    }

    /** process_memory. */
    method Process(d: ParsedData, alloc: nat -> bool)
      requires Valid()
      modifies this, lines
      ensures Valid() && (lines == old(lines) || fresh(lines))
      ensures scrollPos == old(scrollPos) && count >= old(count)
      ensures Position() == Scroll.Apply(old(Position()), Scroll.Message(count - old(count)))
      ensures View() == TakeUnder(old(View()), Stored(d), alloc)
    {
      hide MemoryData.Valid, Stored, StepUnder;
      if d.sec == "dump" {
        ProcessDump(d, alloc);
      } else if d.sec == "read" || d.sec == "write" {
        if d.fld == "byte" {
          ProcessByte(d, alloc);
        } else {
          OtherMessagesStoreNothing(d);
        }
      } else {
        OtherMessagesStoreNothing(d);
      }
    }

    /** datastore_memory_find_addr: the line around a exists exactly when its block was stored. */
    method FindAddr(a: Word32) returns (idx: Int32)
      requires Valid()
      ensures -1 <= idx < count
      ensures idx >= 0 <==> exists c :: c in Contents && Base(c) == Base(a)
      ensures idx >= 0 ==> lines[idx].address == Base(a)
    {
      BaseBelow(a);
      var lineAddr: Word32 := a / 16 * 16;
      LineIffByte(Lines(), Contents, lineAddr);
      var found, pos := Search(lineAddr);
      if found {
        assert Lines()[pos].address == lineAddr;
        return pos;
      }
      return -1;
    }

    /** datastore_memory_scroll_up. */
    method ScrollUp(step: Int32)
      requires Valid() && 0 <= step
      modifies `scrollPos
      ensures Valid() && Position() == Scroll.Apply(old(Position()), Scroll.Up(step))
    {
      scrollPos := scrollPos - step;
      if scrollPos < 0 { scrollPos := 0; }
    }

    /** datastore_memory_scroll_down. */
    method ScrollDown(step: Int32, visible: Int32)
      requires Valid() && 0 <= step && scrollPos + step <= INT_MAX
      requires -INT_MAX + 0x1000_0000 <= visible
      modifies `scrollPos
      ensures Valid() && Position() == Scroll.Apply(old(Position()), Scroll.Down(step, visible))
    {
      LineBound(Lines());
      scrollPos := scrollPos + step;
      var maxPos: Int32 := count - visible;
      if maxPos < 0 { maxPos := 0; }
      if scrollPos > maxPos { scrollPos := maxPos; }
    }

    /** datastore_memory_scroll_home. */
    method ScrollHome()
      requires Valid()
      modifies `scrollPos
      ensures Valid() && Position() == Scroll.Apply(old(Position()), Scroll.Home)
    {
      scrollPos := 0;
    }

    /** datastore_memory_scroll_end. */
    method ScrollEnd(visible: Int32)
      requires Valid() && -INT_MAX + 0x1000_0000 <= visible
      modifies `scrollPos
      ensures Valid() && Position() == Scroll.Apply(old(Position()), Scroll.End(visible))
    {
      LineBound(Lines());
      scrollPos := count - visible;
      if scrollPos < 0 { scrollPos := 0; }
    }

    /** The bounds that keep every `int` in this file from overflowing, in any reachable store. */
    lemma ArithmeticBounds()
      requires Valid()
      ensures count <= 0x1000_0000 && capacity <= 0x1000_0000
      ensures forall i :: 0 <= i < count ==> lines[i].address >= 16 * i
      ensures Copied < 2 * count || count == 0
    {
      LineBound(Lines());
      ReachableBound(capacity);
      forall i | 0 <= i < count
        ensures lines[i].address >= 16 * i
      {
        AddressFloor(Lines(), i);
      }
    }
  }

  lemma InsertedLines(was: seq<MemLine>, low: nat, l: MemLine, now: seq<MemLine>)
    requires low <= |was| && |now| == |was| + 1 && now[low] == l
    requires forall i :: 0 <= i < low ==> now[i] == was[i]
    requires forall i :: low < i <= |was| ==> now[i] == was[i - 1]
    ensures now == Insert(was, low, l)
  {
  }

  lemma SlotIsFree(ls: seq<MemLine>, i: nat, base: Word32)
    requires i <= |ls| && Slot(ls, i, base)
    ensures !HasLine(ls, base)
  {
  }

  function StepOpt(v: MemView, w: Option<Write>): MemView {
    if w.Some? && Proper(w.value) then Step(v, w.value) else v
  }

  /** The same with the allocator's answers. */
  ghost function TakeUnder(v: MemView, w: Option<Write>, alloc: nat -> bool): MemView {
    if w.Some? && Proper(w.value) then StepUnder(v, w.value, alloc) else v
  }

  lemma TakeSucceeds(v: MemView, w: Option<Write>, alloc: nat -> bool)
    requires Succeeds(alloc)
    ensures TakeUnder(v, w, alloc) == StepOpt(v, w)
  {
    hide WriteUnder, WriteBytes;
    if w.Some? {
      WriteSucceeds(v.bytes, w.value.addr, w.value.bytes, alloc);
    }
  }

  /** Other sections and fields leave the store alone. */
  lemma OtherMessagesStoreNothing(d: ParsedData)
    requires d.sec != "dump" && !((d.sec == "read" || d.sec == "write") && d.fld == "byte")
    ensures Stored(d) == None
  {
  }

  // ---------------------------------------------------------------- failing inputs of the range

  lemma EightFs()
    ensures ParseHex("FFFFFFFF") == 0xFFFF_FFFF
  {
    FourFs();
    UpperEightFs();
    hide UpperHex, ParseHex;
    var f := "FFFFFFFF";
    AddressRoundTrip(0xFFFF_FFFF, "");
    assert PadTo(f, 4) == f && f + "" == f;
  }

  lemma FourFs()
    ensures UpperHex(0xFFFF) == "FFFF"
  {
    assert UpperHex(0xF) == "F";
    hide UpperHex;
    UpperF(0xF, "F");
    UpperF(0xFF, "FF");
    UpperF(0xFFF, "FFF");
  }

  lemma UpperEightFs()
    requires UpperHex(0xFFFF) == "FFFF"
    ensures UpperHex(0xFFFF_FFFF) == "FFFFFFFF"
  {
    hide UpperHex;
    UpperF(0xFFFF, "FFFF");
    UpperF(0xF_FFFF, "FFFFF");
    UpperF(0xFF_FFFF, "FFFFFF");
    UpperF(0xFFF_FFFF, "FFFFFFF");
  }

  lemma UpperF(n: nat, s: string)
    requires UpperHex(n) == s && n > 0
    ensures UpperHex(16 * n + 15) == s + "F"
  {
    var m := 16 * n + 15;
    assert m / 16 == n && m % 16 == 15 && HexDigit(15) == 'F';
    hide HexDigit;
  }

  /** A failing input after a clear: a dump of two bytes at FFFFFFFF wraps, and the range printed
      is FFFFFFFF to 00000000. */
  lemma WrappingDumpBreaksRange()
    ensures var d: ParsedData := Fields("", "mem", "dump", "data", "0102", "FFFFFFFF", -1, -1, true, false);
      Stored(d) == Some(Write(0xFFFF_FFFF, [1, 2])) &&
      Replay(CLEARED, [Stored(d).value]).minAddr == 0xFFFF_FFFF &&
      Replay(CLEARED, [Stored(d).value]).maxAddr == 0 &&
      !RangeExact(Replay(CLEARED, [Stored(d).value]))
  {
    EightFs();
    TwoBytes();
    RangeExactIff([Write(0xFFFF_FFFF, [1, 2])]);
    var w := Write(0xFFFF_FFFF, [1, 2]);
    assert [w][..0] == [];
    hide ParseHex, HexBytes, RangeExact;
    assert !Straight([w][0]);
  }

  lemma TwoBytes()
    ensures HexBytes("0102", 256) == [1, 2]
  {
    assert "0102"[2..] == "02" && "02"[2..] == "";
    assert HexBytes("", 254) == [];
    assert HexBytes("02", 255) == [2];
  }

  /** A failing input before the first clear: a byte at 0100 is stored and the range printed
      starts at 0000. */
  lemma DumpBeforeClearBreaksRange()
    ensures var d: ParsedData := Fields("", "mem", "dump", "data", "01", "0100", -1, -1, true, false);
      Stored(d) == Some(Write(0x100, [1])) &&
      Replay(INITIAL, [Stored(d).value]).minAddr == 0 && !RangeExact(Replay(INITIAL, [Stored(d).value]))
  {
    Address0100();
    assert HexBytes("01", 256) == [1] by { assert "01"[2..] == ""; }
    var w := Write(0x100, [1]);
    assert [w][..0] == [];
    InitialRangeIff([w]);
    hide ParseHex, HexBytes, RangeExact;
    assert !Hits([w][0], 0);
  }

  lemma Address0100()
    ensures ParseHex("0100") == 0x100
  {
    var s := "0100";
    assert UpperHex(0x100) == "100" by { assert UpperHex(0x10) == "10" by { assert UpperHex(1) == "1"; } }
    hide UpperHex, ParseHex;
    AddressRoundTrip(0x100, "");
    assert "0" + "100" == s;
    assert PadTo("100", 4) == PadTo("0" + "100", 4) == s;
    assert s + "" == s;
  }
}
