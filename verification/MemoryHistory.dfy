/** What the memory tab means over a whole history of messages: a map from address to the last
    byte written, and the running address range that the snapshot prints. */
module MemoryHistory {
  import opened Basics
  import opened MemoryLines

  /** The bytes one message stores, from addr upwards, wrapping past the last address. */
  datatype Write = Write(addr: Word32, bytes: seq<Byte>)

  datatype MemView = MemView(bytes: Bytes, minAddr: Word32, maxAddr: Word32)

  /** After datastore_memory_clear. */
  const CLEARED := MemView(map[], 0xFFFF_FFFF, 0)

  /** After datastore_init, which zeroes the structure but does not clear it. */
  const INITIAL := MemView(map[], 0, 0)

  /** A message stores 1 to 256 bytes. */
  predicate Proper(w: Write) {
    1 <= |w.bytes| <= 256
  }

  predicate AllProper(ws: seq<Write>) {
    forall i :: 0 <= i < |ws| ==> Proper(ws[i])
  }

  function WriteBytes(m: Bytes, addr: Word32, bs: seq<Byte>): Bytes {
    if bs == [] then m
    else WriteBytes(m, addr, bs[..|bs| - 1])[Wrap(addr + |bs| - 1) := bs[|bs| - 1]]
  }

  function LastAddr(w: Write): Word32
    requires Proper(w)
  {
    Wrap(w.addr + |w.bytes| - 1)
  }

  function Step(v: MemView, w: Write): MemView
    requires Proper(w)
  {
    MemView(WriteBytes(v.bytes, w.addr, w.bytes),
            Min(v.minAddr, w.addr), Max(v.maxAddr, LastAddr(w)))
  }

  function Replay(v: MemView, ws: seq<Write>): MemView
    requires AllProper(ws)
  {
    if ws == [] then v else Step(Replay(v, ws[..|ws| - 1]), ws[|ws| - 1])
  }

  // ------------------------------------------------------------ last write wins

  /** Distance from the start of w up to a, going round the address space if need be. */
  function Offset(w: Write, a: Word32): Word32 {
    Wrap(a - w.addr)
  }

  predicate Hits(w: Write, a: Word32) {
    Offset(w, a) < |w.bytes|
  }

  /** The byte most recently written to a, searching the history backwards. */
  function LastWritten(ws: seq<Write>, a: Word32): Option<Byte> {
    if ws == [] then None
    else
      var w := ws[|ws| - 1];
      if Hits(w, a) then Some(w.bytes[Offset(w, a)]) else LastWritten(ws[..|ws| - 1], a)
  }

  lemma WrapOffset(addr: Word32, a: Word32, i: nat)
    requires i < WORD
    ensures Wrap(addr + i) == a <==> Wrap(a - addr) == i
  {
  }

  lemma {:induction false} WriteBytesAt(m: Bytes, addr: Word32, bs: seq<Byte>, a: Word32)
    requires |bs| <= 256
    ensures var o := Wrap(a - addr);
      if o < |bs| then a in WriteBytes(m, addr, bs) && WriteBytes(m, addr, bs)[a] == bs[o]
      else (a in WriteBytes(m, addr, bs) <==> a in m) &&
           (a in m ==> WriteBytes(m, addr, bs)[a] == m[a])
  {
    if bs != [] {
      WriteBytesAt(m, addr, bs[..|bs| - 1], a);
      WrapOffset(addr, a, |bs| - 1);
    }
  }

  /** After any history since a clear the store holds at every address exactly the byte last
      written there, and nothing at an address never written. */
  lemma {:induction false} ReplayHoldsLastWrite(v: MemView, ws: seq<Write>, a: Word32)
    requires AllProper(ws) && v.bytes == map[]
    ensures var m := Replay(v, ws).bytes;
      match LastWritten(ws, a)
      case None => a !in m
      case Some(b) => a in m && m[a] == b
  {
    if ws != [] {
      var w, earlier := ws[|ws| - 1], ws[..|ws| - 1];
      ReplayHoldsLastWrite(v, earlier, a);
      WriteBytesAt(Replay(v, earlier).bytes, w.addr, w.bytes, a);
    }
  }

  // ------------------------------------------------------------ address range

  predicate Touches(ws: seq<Write>, a: Word32) {
    exists i :: 0 <= i < |ws| && Hits(ws[i], a)
  }

  lemma {:induction false} TouchedIffWritten(ws: seq<Write>, a: Word32)
    ensures Touches(ws, a) <==> LastWritten(ws, a).Some?
  {
    if ws != [] {
      var earlier := ws[..|ws| - 1];
      TouchedIffWritten(earlier, a);
      if Touches(earlier, a) {
        var i :| 0 <= i < |earlier| && Hits(earlier[i], a);
        assert Hits(ws[i], a);
      }
    }
  }

  lemma BytesAreTouched(v: MemView, ws: seq<Write>, a: Word32)
    requires AllProper(ws) && v.bytes == map[]
    ensures a in Replay(v, ws).bytes <==> Touches(ws, a)
  {
    ReplayHoldsLastWrite(v, ws, a);
    TouchedIffWritten(ws, a);
  }

  /** The stored range is the true range of the bytes held. */
  ghost predicate RangeExact(v: MemView) {
    v.minAddr in v.bytes && v.maxAddr in v.bytes &&
    forall a :: a in v.bytes ==> v.minAddr <= a <= v.maxAddr
  }

  predicate Straight(w: Write) {
    w.addr + |w.bytes| <= WORD
  }

  predicate AllStraight(ws: seq<Write>) {
    forall i :: 0 <= i < |ws| ==> Straight(ws[i])
  }

  predicate StartsAt(ws: seq<Write>, a: Word32) {
    exists i :: 0 <= i < |ws| && ws[i].addr == a
  }

  predicate EndsAt(ws: seq<Write>, a: Word32)
    requires AllProper(ws)
  {
    exists i :: 0 <= i < |ws| && LastAddr(ws[i]) == a
  }

  /** minAddr is the least start and maxAddr the greatest end seen so far. */
  lemma {:induction false} RangeOfReplay(v: MemView, ws: seq<Write>)
    requires AllProper(ws)
    ensures var r := Replay(v, ws);
      (forall i :: 0 <= i < |ws| ==> r.minAddr <= ws[i].addr && LastAddr(ws[i]) <= r.maxAddr) &&
      r.minAddr <= v.minAddr && v.maxAddr <= r.maxAddr &&
      (r.minAddr == v.minAddr || StartsAt(ws, r.minAddr)) &&
      (r.maxAddr == v.maxAddr || EndsAt(ws, r.maxAddr))
  {
    if ws != [] {
      var w, earlier := ws[|ws| - 1], ws[..|ws| - 1];
      var r0, r := Replay(v, earlier), Replay(v, ws);
      RangeOfReplay(v, earlier);
      if StartsAt(earlier, r0.minAddr) {
        var i :| 0 <= i < |earlier| && earlier[i].addr == r0.minAddr;
        assert ws[i].addr == r0.minAddr;
      }
      if EndsAt(earlier, r0.maxAddr) {
        var i :| 0 <= i < |earlier| && LastAddr(earlier[i]) == r0.maxAddr;
        assert LastAddr(ws[i]) == r0.maxAddr;
      }
      assert ws[|ws| - 1] == w;
    }
  }

  lemma EndsAreHit(w: Write)
    requires Proper(w)
    ensures Hits(w, w.addr) && Hits(w, LastAddr(w))
  {
    WrapOffset(w.addr, LastAddr(w), |w.bytes| - 1);
  }

  /** A message that wraps stores at both ends of the address space. */
  lemma WrapHitsBothEnds(w: Write)
    requires Proper(w) && !Straight(w)
    ensures Hits(w, 0) && Hits(w, 0xFFFF_FFFF)
  {
    WrapOffset(w.addr, 0, WORD - w.addr);
    WrapOffset(w.addr, 0xFFFF_FFFF, WORD - 1 - w.addr);
  }

  lemma StraightHits(w: Write, a: Word32)
    requires Proper(w) && Straight(w) && Hits(w, a)
    ensures w.addr <= a <= LastAddr(w)
  {
    WrapOffset(w.addr, a, Offset(w, a));
  }

  /** When the range ends are themselves stored, it is exact as long as nothing wrapped or it
      already spans the whole address space. */
  lemma RangeFits(v: MemView, ws: seq<Write>)
    requires AllProper(ws) && v.bytes == map[] && ws != []
    requires Touches(ws, Replay(v, ws).minAddr) && Touches(ws, Replay(v, ws).maxAddr)
    ensures RangeExact(Replay(v, ws))
       <==> AllStraight(ws) || (Replay(v, ws).minAddr == 0 && Replay(v, ws).maxAddr == 0xFFFF_FFFF)
  {
    var r := Replay(v, ws);
    RangeOfReplay(v, ws);
    forall a: Word32
      ensures a in r.bytes <==> Touches(ws, a)
    {
      BytesAreTouched(v, ws, a);
    }
    if AllStraight(ws) {
      forall a | a in r.bytes
        ensures r.minAddr <= a <= r.maxAddr
      {
        var i :| 0 <= i < |ws| && Hits(ws[i], a);
        StraightHits(ws[i], a);
      }
    } else {
      var i :| 0 <= i < |ws| && !Straight(ws[i]);
      WrapHitsBothEnds(ws[i]);
      assert Touches(ws, 0) && Touches(ws, 0xFFFF_FFFF);
    }
  }

  /** After a clear, the printed range is exactly the least and greatest address stored if and
      only if no message wrapped past 0xFFFFFFFF, or some message started at 0 and some message
      ended at 0xFFFFFFFF. */
  lemma RangeExactIff(ws: seq<Write>)
    requires AllProper(ws) && ws != []
    ensures RangeExact(Replay(CLEARED, ws))
       <==> AllStraight(ws) || (StartsAt(ws, 0) && EndsAt(ws, 0xFFFF_FFFF))
  {
    var r := Replay(CLEARED, ws);
    RangeOfReplay(CLEARED, ws);
    var w := ws[0];
    EndsAreHit(w);
    assert r.minAddr <= w.addr && LastAddr(w) <= r.maxAddr;
    // with a first message in hand both ends are attained even at their initial values
    if r.minAddr == CLEARED.minAddr {
      assert w.addr == r.minAddr;
    }
    if r.maxAddr == CLEARED.maxAddr {
      assert LastAddr(w) == r.maxAddr;
    }
    var i :| 0 <= i < |ws| && ws[i].addr == r.minAddr;
    EndsAreHit(ws[i]);
    var j :| 0 <= j < |ws| && LastAddr(ws[j]) == r.maxAddr;
    EndsAreHit(ws[j]);
    RangeFits(CLEARED, ws);
  }

  /** Before the first clear the minimum sticks at 0, so the printed range is exact if and only
      if address 0 itself was stored and, when some message wrapped, some message ended at the
      top. */
  lemma InitialRangeIff(ws: seq<Write>)
    requires AllProper(ws) && ws != []
    ensures RangeExact(Replay(INITIAL, ws))
       <==> Touches(ws, 0) && (AllStraight(ws) || EndsAt(ws, 0xFFFF_FFFF))
  {
    var r := Replay(INITIAL, ws);
    RangeOfReplay(INITIAL, ws);
    assert r.minAddr == 0;
    BytesAreTouched(INITIAL, ws, 0);
    if Touches(ws, 0) {
      if r.maxAddr == 0 {
        EndsAreHit(ws[0]);
        assert LastAddr(ws[0]) == r.maxAddr;
      } else {
        var j :| 0 <= j < |ws| && LastAddr(ws[j]) == r.maxAddr;
        EndsAreHit(ws[j]);
      }
      RangeFits(INITIAL, ws);
    }
  }

  /** An exact range names the first and the last line of the array. */
  lemma RangeNamesEndLines(ls: seq<MemLine>, v: MemView)
    requires Ordered(ls) && NoBlank(ls) && Represents(ls, v.bytes) && RangeExact(v)
    ensures ls != [] && ls[0].address == Base(v.minAddr) && ls[|ls| - 1].address == Base(v.maxAddr)
  {
    BoundsLine(ls, v, 0);
    BoundsLine(ls, v, |ls| - 1);
    var i :| 0 <= i < |ls| && Covers(ls[i], v.minAddr);
    BaseUnique(v.minAddr, ls[i].address);
    var j :| 0 <= j < |ls| && Covers(ls[j], v.maxAddr);
    BaseUnique(v.maxAddr, ls[j].address);
  }

  lemma BoundsLine(ls: seq<MemLine>, v: MemView, i: int)
    requires Ordered(ls) && NoBlank(ls) && Represents(ls, v.bytes) && RangeExact(v)
    ensures 0 <= i < |ls| ==> ls[i].address <= v.maxAddr && v.minAddr < ls[i].address + 16
  {
    if 0 <= i < |ls| {
      ByteInLine(ls[i], v.bytes);
    }
  }
}
