/** The mathematics of the memory tab: ordered 16-byte lines against a plain map from
    32-bit address to the last byte written there (data_store.c, MemoryData). */
module MemoryLines {
  import opened Basics

  const LINE := 16
  type Bytes = map<Word32, Byte>

  datatype MemLine = MemLine(address: Word32, data: seq<Byte>, valid: seq<bool>, validCount: nat)

  /** Address of the line that holds the byte at a. */
  function Base(a: Word32): Word32 {
    a / 16 * 16
  }

  function CountTrue(v: seq<bool>): nat {
    if v == [] then 0 else CountTrue(v[1..]) + if v[0] then 1 else 0
  }

  lemma {:induction false} CountTrueUpdate(v: seq<bool>, o: nat)
    requires o < |v| && !v[o]
    ensures CountTrue(v[o := true]) == CountTrue(v) + 1
  {
    if o == 0 {
      assert v[0 := true][1..] == v[1..];
    } else {
      CountTrueUpdate(v[1..], o - 1);
      assert v[o := true][1..] == v[1..][o - 1 := true];
    }
  }

  lemma CountTruePositive(v: seq<bool>)
    ensures CountTrue(v) > 0 <==> true in v
  {
    if v != [] {
      CountTruePositive(v[1..]);
      assert v == [v[0]] + v[1..];
    }
  }

  /** A line as the program keeps it: aligned, the count agrees with the flags, and a byte
      never written is zero. */
  predicate Shaped(l: MemLine) {
    |l.data| == LINE && |l.valid| == LINE && l.address % LINE == 0 &&
    l.validCount == CountTrue(l.valid) &&
    forall o :: 0 <= o < LINE && !l.valid[o] ==> l.data[o] == 0
  }

  /** Ascending lines that do not overlap. */
  predicate Ordered(ls: seq<MemLine>) {
    (forall i :: 0 <= i < |ls| ==> Shaped(ls[i])) &&
    forall i, j :: 0 <= i < j < |ls| ==> ls[i].address + LINE <= ls[j].address
  }

  /** For aligned lines, ascending without overlap is just strictly ascending. */
  lemma OrderedIffAscending(ls: seq<MemLine>)
    requires forall i :: 0 <= i < |ls| ==> Shaped(ls[i])
    ensures Ordered(ls) <==> forall i, j :: 0 <= i < j < |ls| ==> ls[i].address < ls[j].address
  {
    if forall i, j :: 0 <= i < j < |ls| ==> ls[i].address < ls[j].address {
      forall i, j | 0 <= i < j < |ls|
        ensures ls[i].address + LINE <= ls[j].address
      {
        AlignedGap(ls[i].address, ls[j].address);
      }
    }
  }

  lemma AlignedGap(x: Word32, y: Word32)
    requires x % 16 == 0 && y % 16 == 0 && x < y
    ensures x + 16 <= y
  {
  }

  lemma BaseBelow(a: Word32)
    ensures Base(a) <= a < Base(a) + 16 && Base(a) % 16 == 0 && a % 16 == a - Base(a)
  {
  }

  /** Base picks the only aligned line around a. */
  lemma BaseUnique(a: Word32, base: Word32)
    requires base % 16 == 0 && base <= a < base + 16
    ensures Base(a) == base
  {
  }

  /** Every line has at least one byte, as holds between messages. */
  predicate NoBlank(ls: seq<MemLine>) {
    forall i :: 0 <= i < |ls| ==> ls[i].validCount >= 1
  }

  ghost predicate LineAgrees(l: MemLine, m: Bytes)
    requires Shaped(l)
  {
    forall o :: 0 <= o < LINE && l.address + o < WORD ==>
      (l.valid[o] <==> l.address + o in m) &&
      (l.valid[o] ==> m[l.address + o] == l.data[o])
  }

  predicate Covers(l: MemLine, a: Word32) {
    l.address <= a < l.address + LINE
  }

  ghost predicate Covered(ls: seq<MemLine>, a: Word32) {
    exists i :: 0 <= i < |ls| && Covers(ls[i], a)
  }

  ghost predicate HasLine(ls: seq<MemLine>, base: Word32) {
    exists i :: 0 <= i < |ls| && ls[i].address == base
  }

  /** The flags and data of the lines say exactly what m says. */
  ghost predicate Represents(ls: seq<MemLine>, m: Bytes)
    requires Ordered(ls)
  {
    (forall i :: 0 <= i < |ls| ==> LineAgrees(ls[i], m)) &&
    forall a :: a in m ==> Covered(ls, a)
  }

  function Blank(base: Word32): MemLine {
    MemLine(base, seq(16, _ => 0), seq(16, _ => false), 0)
  }

  function StoreIn(l: MemLine, o: nat, b: Byte): MemLine
    requires o < |l.data| == |l.valid|
  {
    MemLine(l.address, l.data[o := b], l.valid[o := true],
            if l.valid[o] then l.validCount else l.validCount + 1)
  }

  function Insert(ls: seq<MemLine>, i: nat, l: MemLine): seq<MemLine>
    requires i <= |ls|
  {
    ls[..i] + [l] + ls[i..]
  }

  lemma BlankShaped(base: Word32)
    requires base % 16 == 0
    ensures Shaped(Blank(base)) && forall o :: 0 <= o < 16 ==> !Blank(base).valid[o]
  {
    CountTruePositive(Blank(base).valid);
  }

  lemma StoreInShaped(l: MemLine, o: nat, b: Byte)
    requires Shaped(l) && o < 16
    ensures Shaped(StoreIn(l, o, b)) && StoreIn(l, o, b).validCount >= 1
  {
    if l.valid[o] {
      assert l.valid[o := true] == l.valid;
      CountTruePositive(l.valid);
    } else {
      CountTrueUpdate(l.valid, o);
    }
  }

  lemma InsertAt(ls: seq<MemLine>, i: nat, l: MemLine)
    requires i <= |ls|
    ensures |Insert(ls, i, l)| == |ls| + 1 && Insert(ls, i, l)[i] == l
    ensures forall k :: 0 <= k < i ==> Insert(ls, i, l)[k] == ls[k]
    ensures forall k :: i < k <= |ls| ==> Insert(ls, i, l)[k] == ls[k - 1]
    ensures forall k :: i <= k < |ls| ==> Insert(ls, i, l)[k + 1] == ls[k]
  {
  }

  /** base is where a line may be inserted at position i. */
  predicate Slot(ls: seq<MemLine>, i: nat, base: Word32)
    requires i <= |ls|
  {
    base % 16 == 0 &&
    (forall k :: 0 <= k < i ==> ls[k].address < base) &&
    forall k :: i <= k < |ls| ==> base < ls[k].address
  }

  lemma InsertOrdered(ls: seq<MemLine>, i: nat, base: Word32)
    requires Ordered(ls) && i <= |ls| && Slot(ls, i, base)
    ensures Ordered(Insert(ls, i, Blank(base)))
  {
    var ls' := Insert(ls, i, Blank(base));
    BlankShaped(base);
    InsertAt(ls, i, Blank(base));
    assert forall k :: 0 <= k < |ls'| ==> Shaped(ls'[k]);
    forall j, k | 0 <= j < k < |ls'|
      ensures ls'[j].address < ls'[k].address
    {
    }
    OrderedIffAscending(ls');
  }

  /** Opening a blank line at its place in the order changes nothing the lines say. */
  lemma {:induction false} InsertBlank(ls: seq<MemLine>, m: Bytes, i: nat, base: Word32)
    requires Ordered(ls) && Represents(ls, m) && i <= |ls| && Slot(ls, i, base)
    ensures Ordered(Insert(ls, i, Blank(base))) && Represents(Insert(ls, i, Blank(base)), m)
  {
    var ls' := Insert(ls, i, Blank(base));
    InsertOrdered(ls, i, base);
    InsertAt(ls, i, Blank(base));
    forall a | a in m
      ensures Covered(ls', a) && !Covers(Blank(base), a)
    {
      var k :| 0 <= k < |ls| && Covers(ls[k], a);
      assert ls'[if k < i then k else k + 1] == ls[k];
      if k < i {
        AlignedGap(ls[k].address, base);
      } else {
        AlignedGap(base, ls[k].address);
      }
    }
    BlankShaped(base);
    forall k | 0 <= k < |ls'|
      ensures LineAgrees(ls'[k], m)
    {
      if k == i {
        BlankAgrees(base, m);
      }
    }
  }

  lemma BlankAgrees(base: Word32, m: Bytes)
    requires base % 16 == 0 && forall a :: a in m ==> !Covers(Blank(base), a)
    ensures Shaped(Blank(base)) && LineAgrees(Blank(base), m)
  {
    BlankShaped(base);
    forall o | 0 <= o < LINE && base + o < WORD
      ensures !Blank(base).valid[o] && base + o !in m
    {
      assert Covers(Blank(base), base + o);
    }
  }

  lemma StoreOrdered(ls: seq<MemLine>, i: nat, o: nat, b: Byte)
    requires Ordered(ls) && i < |ls| && o < 16
    ensures Ordered(ls[i := StoreIn(ls[i], o, b)])
  {
    StoreInShaped(ls[i], o, b);
  }

  lemma StoreAgrees(l: MemLine, m: Bytes, a: Word32, b: Byte)
    requires Shaped(l) && LineAgrees(l, m) && Covers(l, a)
    ensures Shaped(StoreIn(l, a - l.address, b))
    ensures LineAgrees(StoreIn(l, a - l.address, b), m[a := b])
  {
    StoreInShaped(l, a - l.address, b);
  }

  /** Writing one byte into its line is writing one entry of the map. */
  lemma StoreRepresents(ls: seq<MemLine>, m: Bytes, i: nat, a: Word32, b: Byte)
    requires Ordered(ls) && Represents(ls, m) && i < |ls| && Covers(ls[i], a)
    ensures Ordered(ls[i := StoreIn(ls[i], a - ls[i].address, b)])
    ensures Represents(ls[i := StoreIn(ls[i], a - ls[i].address, b)], m[a := b])
  {
    var l := StoreIn(ls[i], a - ls[i].address, b);
    var ls', m' := ls[i := l], m[a := b];
    StoreOrdered(ls, i, a - ls[i].address, b);
    forall k | 0 <= k < |ls|
      ensures LineAgrees(ls'[k], m')
    {
      if k == i {
        StoreAgrees(ls[i], m, a, b);
      } else {
        assert !Covers(ls[k], a);
        AgreesElsewhere(ls[k], m, a, b);
      }
    }
    forall c | c in m'
      ensures Covered(ls', c)
    {
      if c == a {
        assert Covers(ls'[i], a);
      } else {
        var k :| 0 <= k < |ls| && Covers(ls[k], c);
        assert Covers(ls'[k], c);
      }
    }
  }

  lemma AgreesElsewhere(l: MemLine, m: Bytes, a: Word32, b: Byte)
    requires Shaped(l) && LineAgrees(l, m) && !Covers(l, a)
    ensures LineAgrees(l, m[a := b])
  {
  }

  /** The i-th line starts at 16 * i or later, so there are never more than 2^28 lines. */
  lemma {:induction false} AddressFloor(ls: seq<MemLine>, i: nat)
    requires Ordered(ls) && i < |ls|
    ensures ls[i].address >= 16 * i
  {
    if i > 0 {
      AddressFloor(ls, i - 1);
      assert Shaped(ls[i - 1]) && Shaped(ls[i]);
    }
  }

  lemma LineBound(ls: seq<MemLine>)
    requires Ordered(ls)
    ensures |ls| <= 0x1000_0000
  {
    if |ls| > 0 {
      AddressFloor(ls, |ls| - 1);
    }
  }

  lemma ByteInLine(l: MemLine, m: Bytes)
    requires Shaped(l) && LineAgrees(l, m) && l.validCount >= 1
    ensures exists a :: a in m && Covers(l, a)
  {
    CountTruePositive(l.valid);
    var o :| 0 <= o < |l.valid| && l.valid[o];
    assert l.address + o in m && Covers(l, l.address + o);
  }

  /** A line exists exactly when some byte of its block was stored. */
  lemma LineIffByte(ls: seq<MemLine>, m: Bytes, base: Word32)
    requires Ordered(ls) && Represents(ls, m) && NoBlank(ls) && base % 16 == 0
    ensures HasLine(ls, base) <==> exists a :: a in m && Base(a) == base
  {
    if HasLine(ls, base) {
      var i :| 0 <= i < |ls| && ls[i].address == base;
      ByteInLine(ls[i], m);
      var a :| a in m && Covers(ls[i], a);
      BaseUnique(a, base);
    }
    if a :| a in m && Base(a) == base {
      var i :| 0 <= i < |ls| && Covers(ls[i], a);
      BaseUnique(a, ls[i].address);
    }
  }

  /** The map fixes the lines: two stores that say the same are equal line by line, however
      their bytes arrived. */
  lemma {:induction false} Canonical(ls: seq<MemLine>, ls': seq<MemLine>, m: Bytes)
    requires Ordered(ls) && NoBlank(ls) && Represents(ls, m)
    requires Ordered(ls') && NoBlank(ls') && Represents(ls', m)
    ensures ls == ls'
  {
    forall i | 0 <= i < |ls| && i < |ls'|
      ensures ls[i] == ls'[i]
    {
      CanonicalAt(ls, ls', m, i);
    }
    if |ls| < |ls'| {
      SameHead(ls', ls, m, |ls|);
    } else if |ls'| < |ls| {
      SameHead(ls, ls', m, |ls'|);
    }
  }

  lemma {:induction false} CanonicalAt(ls: seq<MemLine>, ls': seq<MemLine>, m: Bytes, i: nat)
    requires Ordered(ls) && NoBlank(ls) && Represents(ls, m)
    requires Ordered(ls') && NoBlank(ls') && Represents(ls', m)
    requires i < |ls| && i < |ls'|
    ensures ls[i] == ls'[i]
  {
    forall k | 0 <= k < i
      ensures ls[k] == ls'[k]
    {
      CanonicalAt(ls, ls', m, k);
    }
    SameHead(ls, ls', m, i);
    SameHead(ls', ls, m, i);
    var l, l' := ls[i], ls'[i];
    assert Shaped(l) && Shaped(l') && LineAgrees(l, m) && LineAgrees(l', m);
    LineFixed(l, l', m);
  }

  lemma LineFixed(l: MemLine, l': MemLine, m: Bytes)
    requires Shaped(l) && LineAgrees(l, m) && Shaped(l') && LineAgrees(l', m)
    requires l.address == l'.address
    ensures l == l'
  {
    forall o | 0 <= o < 16
      ensures l.valid[o] == l'.valid[o] && l.data[o] == l'.data[o]
    {
      assert l.address + o < WORD;
    }
    assert l.valid == l'.valid && l.data == l'.data;
  }

  /** Once the first i lines agree, line i of one store exists in the other, at i or later. */
  lemma SameHead(ls: seq<MemLine>, ls': seq<MemLine>, m: Bytes, i: nat)
    requires Ordered(ls) && NoBlank(ls) && Represents(ls, m)
    requires Ordered(ls') && NoBlank(ls') && Represents(ls', m)
    requires i < |ls| && forall k :: 0 <= k < i && k < |ls'| ==> ls[k] == ls'[k]
    requires i <= |ls'|
    ensures exists j :: i <= j < |ls'| && Covers(ls'[j], ls[i].address) && ls'[j].address == ls[i].address
  {
    assert HasLine(ls, ls[i].address);
    LineIffByte(ls, m, ls[i].address);
    LineIffByte(ls', m, ls[i].address);
  }

}
