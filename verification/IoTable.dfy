/** The I/O tab as the program keeps it: an unordered 2048-slot array searched by key, stamped
    on every touch, with the oldest stamp evicted when full (data_store.c, IOData). */
module IoTable {
  import opened Basics
  import opened Messages
  import opened IoHistory

  const ZERO := IOEntry("", "", "", "", "", 0, 0, 0)

  ghost predicate Ascending(rows: seq<IOEntry>) {
    forall i, j :: 0 <= i <= j < |rows| ==> rows[i].order <= rows[j].order
  }

  class IOData {
    var entries: array<IOEntry>
    var count: Int32
    var nextOrder: Int32

    /** The entries in stamp order: what the display should show. */
    ghost var Rows: seq<IOEntry>

    ghost function Slots(): seq<IOEntry>
      requires 0 <= count <= entries.Length
      reads this, entries
    {
      entries[..count]
    }

    ghost predicate Valid()
      reads this, entries
    {
      entries.Length == CAPACITY && 0 <= count <= CAPACITY && 0 <= nextOrder &&
      SameRows(Slots(), Rows) && Stamped(Rows, nextOrder) && DistinctKeys(Rows)
    }

    /** datastore_io_clear on new storage. */
    constructor ()
      ensures Valid() && fresh(entries) && Rows == [] && nextOrder == 0
    {
      entries := new IOEntry[CAPACITY](_ => ZERO);
      count, nextOrder, Rows := 0, 0, [];
      new;
      assert Slots() == [];
    }

    /** datastore_io_clear. */
    method Clear()
      requires Valid()
      modifies this, entries
      ensures Valid() && entries == old(entries) && Rows == [] && nextOrder == 0
    {
      forall i | 0 <= i < entries.Length {
        entries[i] := ZERO;
      }
      count, nextOrder, Rows := 0, 0, [];
      assert Slots() == [];
    }

    /** find_io_entry. */
    method Find(key: string) returns (r: int)
      requires Valid()
      ensures -1 <= r < count
      ensures r >= 0 ==> entries[r].key == key
      ensures r < 0 ==> forall i :: 0 <= i < count ==> entries[i].key != key
    {
      for i := 0 to count
        invariant forall j :: 0 <= j < i ==> entries[j].key != key
      {
        if entries[i].key == key { return i; }
      }
      return -1;
    }

    /** The scan for the oldest stamp in process_io. */
    method Oldest() returns (oldest: int)
      requires Valid() && 0 < count
      ensures 0 <= oldest < count
      ensures forall i :: 0 <= i < count ==> entries[oldest].order <= entries[i].order
    {
      oldest := 0;
      var oldestOrder := entries[0].order;
      for i := 1 to count
        invariant 0 <= oldest < i && oldestOrder == entries[oldest].order
        invariant forall j :: 0 <= j < i ==> oldestOrder <= entries[j].order
      {
        if entries[i].order < oldestOrder {
          oldestOrder := entries[i].order;
          oldest := i;
        }
      }
    }

    /** process_io; stamps are an `int`, so the table takes fewer than 2^31 messages between
        clears. */
    method Process(d: ParsedData)
      requires Valid() && nextOrder < INT_MAX
      modifies this, entries
      ensures Valid() && entries == old(entries)
      ensures Rows == Touch(old(Rows), d, old(nextOrder)) && nextOrder == old(nextOrder) + 1
    {
      hide Key, Touch, SameRows, Stamped, DistinctKeys;
      var key := Key(d);
      ghost var rows := Touch(Rows, d, nextOrder);
      SameSize(Slots(), Rows);
      TouchKeeps(Rows, d, nextOrder);
      var idx := Find(key);
      if idx >= 0 {
        ReplaceKnown(Slots(), Rows, d, nextOrder, idx);
        Overwrite(idx, Refreshed(entries[idx], d, nextOrder), rows);
      } else if count < CAPACITY {
        AppendNew(Slots(), Rows, d, nextOrder);
        Append(NewRow(d, nextOrder), rows);
      } else {
        var oldest := Oldest();
        EvictOldest(Slots(), Rows, d, nextOrder, oldest);
        Overwrite(oldest, NewRow(d, nextOrder), rows);
      }
    }

    /** Fill slot i and use up a stamp. */
    method Overwrite(i: nat, e: IOEntry, ghost rows: seq<IOEntry>)
      requires Valid() && nextOrder < INT_MAX && i < count && SameRows(Slots()[i := e], rows)
      requires Stamped(rows, nextOrder + 1) && DistinctKeys(rows)
      modifies this, entries
      ensures Valid() && entries == old(entries) && Rows == rows && nextOrder == old(nextOrder) + 1
    {
      hide SameRows, Stamped, DistinctKeys;
      ghost var slots := Slots()[i := e];
      entries[i] := e;
      assert Slots() == slots;
      nextOrder, Rows := nextOrder + 1, rows;
    }

    /** Fill the next free slot and use up a stamp. */
    method Append(e: IOEntry, ghost rows: seq<IOEntry>)
      requires Valid() && nextOrder < INT_MAX && count < CAPACITY && SameRows(Slots() + [e], rows)
      requires Stamped(rows, nextOrder + 1) && DistinctKeys(rows)
      modifies this, entries
      ensures Valid() && entries == old(entries) && Rows == rows && nextOrder == old(nextOrder) + 1
    {
      hide SameRows, Stamped, DistinctKeys;
      ghost var slots := Slots() + [e];
      entries[count] := e;
      count := count + 1;
      assert Slots() == slots;
      nextOrder, Rows := nextOrder + 1, rows;
    }

    /** datastore_io_get_sorted: the first entries of the array by stamp; asked for all of them,
        exactly the rows from the least to the most recently touched. */
    method GetSorted(maxEntries: nat) returns (out: seq<IOEntry>)
      requires Valid()
      ensures |out| == Min(count, maxEntries) && Ascending(out)
      ensures multiset(out) == multiset(Slots()[..|out|])
      ensures maxEntries >= count ==> out == Rows
    {
      hide Ascending, DistinctKeys, SameRows, Stamped;
      var n := if count < maxEntries then count else maxEntries;
      ghost var first := Slots()[..n];
      out := [];
      for i := 0 to n
        invariant out == first[..i]
      {
        out := out + [entries[i]];
      }
      assert out == first;
      out := SortByOrder(out);
      if n == count {
        assert first == Slots();
        SortedRows(out, first, Rows, nextOrder);
      }
    }
  }

  /** The slots hold the rows in some order. */
  ghost predicate SameRows(slots: seq<IOEntry>, rows: seq<IOEntry>) {
    multiset(slots) == multiset(rows)
  }

  lemma SameSize(slots: seq<IOEntry>, rows: seq<IOEntry>)
    requires SameRows(slots, rows)
    ensures |slots| == |rows|
  {
    assert |multiset(slots)| == |slots| && |multiset(rows)| == |rows|;
  }

  lemma RowOf(slots: seq<IOEntry>, rows: seq<IOEntry>, i: nat) returns (j: nat)
    requires SameRows(slots, rows) && i < |slots|
    ensures j < |rows| && rows[j] == slots[i]
  {
    assert slots[i] in multiset(slots);
    assert slots[i] in rows;
    j :| 0 <= j < |rows| && rows[j] == slots[i];
  }

  lemma SlotOf(slots: seq<IOEntry>, rows: seq<IOEntry>, j: nat) returns (i: nat)
    requires SameRows(slots, rows) && j < |rows|
    ensures i < |slots| && slots[i] == rows[j]
  {
    i := RowOf(rows, slots, j);
  }

  lemma RemoveCounts<T>(s: seq<T>, i: nat)
    requires i < |s|
    ensures multiset(Remove(s, i)) == multiset(s) - multiset{s[i]}
  {
    assert s == s[..i] + [s[i]] + s[i + 1..];
  }

  lemma ReplaceKnown(slots: seq<IOEntry>, rows: seq<IOEntry>, d: ParsedData, order: nat, i: nat)
    requires SameRows(slots, rows) && DistinctKeys(rows) && i < |slots| && slots[i].key == Key(d)
    ensures SameRows(slots[i := Refreshed(slots[i], d, order)], Touch(rows, d, order))
  {
    var j := RowOf(slots, rows, i);
    assert FindRow(rows, Key(d)) == j;
    RemoveCounts(rows, j);
  }

  lemma NoRow(slots: seq<IOEntry>, rows: seq<IOEntry>, key: string)
    requires SameRows(slots, rows) && forall i :: 0 <= i < |slots| ==> slots[i].key != key
    ensures FindRow(rows, key) == |rows|
  {
    var j := FindRow(rows, key);
    if j < |rows| {
      var i := SlotOf(slots, rows, j);
    }
  }

  lemma AppendNew(slots: seq<IOEntry>, rows: seq<IOEntry>, d: ParsedData, order: nat)
    requires SameRows(slots, rows) && |rows| < CAPACITY
    requires forall i :: 0 <= i < |slots| ==> slots[i].key != Key(d)
    ensures SameRows(slots + [NewRow(d, order)], Touch(rows, d, order))
  {
    NoRow(slots, rows, Key(d));
  }

  lemma EvictOldest(slots: seq<IOEntry>, rows: seq<IOEntry>, d: ParsedData, order: nat, i: nat)
    requires SameRows(slots, rows) && |rows| == CAPACITY && i < |slots| && Stamped(rows, order)
    requires forall k :: 0 <= k < |slots| ==> slots[k].key != Key(d)
    requires forall k :: 0 <= k < |slots| ==> slots[i].order <= slots[k].order
    ensures SameRows(slots[i := NewRow(d, order)], Touch(rows, d, order))
  {
    NoRow(slots, rows, Key(d));
    var j := RowOf(slots, rows, i);
    var k := SlotOf(slots, rows, 0);
    assert slots[i] == rows[0];
    RemoveCounts(rows, 0);
    assert Remove(rows, 0) == rows[1..];
  }

  /** Sorting by stamp. The program calls qsort, of which only this contract is used. */
  method SortByOrder(a: seq<IOEntry>) returns (b: seq<IOEntry>)
    ensures Ascending(b) && multiset(b) == multiset(a) && |b| == |a|
  {
    b := [];
    assert Ascending(b);
    hide Ascending, Inserted;
    for i := 0 to |a|
      invariant Ascending(b) && multiset(b) == multiset(a[..i]) && |b| == i
    {
      var j := |b|;
      while j > 0 && b[j - 1].order > a[i].order
        invariant 0 <= j <= |b|
        invariant forall k :: j <= k < |b| ==> b[k].order > a[i].order
      {
        j := j - 1;
      }
      InsertSorted(b, j, a[i]);
      InsertedPrefix(a, i, b, j);
      b := Inserted(b, j, a[i]);
    }
    assert a[..|a|] == a;
  }

  function Inserted(b: seq<IOEntry>, j: nat, e: IOEntry): (c: seq<IOEntry>)
    requires j <= |b|
    ensures |c| == |b| + 1
  {
    b[..j] + [e] + b[j..]
  }

  lemma PrefixCounts(a: seq<IOEntry>, i: nat)
    requires i < |a|
    ensures multiset(a[..i + 1]) == multiset(a[..i]) + multiset{a[i]}
  {
    assert a[..i + 1] == a[..i] + [a[i]];
  }

  lemma InsertedPrefix(a: seq<IOEntry>, i: nat, b: seq<IOEntry>, j: nat)
    requires i < |a| && j <= |b| && multiset(b) == multiset(a[..i])
    ensures multiset(Inserted(b, j, a[i])) == multiset(a[..i + 1])
  {
    InsertCounts(b, j, a[i]);
    PrefixCounts(a, i);
    hide Inserted;
  }

  lemma InsertSorted(b: seq<IOEntry>, j: nat, e: IOEntry)
    requires Ascending(b) && j <= |b|
    requires j > 0 ==> b[j - 1].order <= e.order
    requires forall k :: j <= k < |b| ==> b[k].order > e.order
    ensures Ascending(Inserted(b, j, e))
  {
    var c := Inserted(b, j, e);
    forall k | 0 <= k < |c|
      ensures c[k] == if k < j then b[k] else if k == j then e else b[k - 1]
    {
    }
  }

  lemma InsertCounts(b: seq<IOEntry>, j: nat, e: IOEntry)
    requires j <= |b|
    ensures multiset(Inserted(b, j, e)) == multiset(b) + multiset{e}
  {
    assert b == b[..j] + b[j..];
  }

  lemma SortedRows(out: seq<IOEntry>, slots: seq<IOEntry>, rows: seq<IOEntry>, next: nat)
    requires Ascending(out) && multiset(out) == multiset(slots)
    requires SameRows(slots, rows) && Stamped(rows, next)
    ensures out == rows
  {
    OneSortedOrder(out, rows);
  }

  /** Stamps are unique, so any sort gives the same list: ties never decide the order. */
  lemma {:induction false} OneSortedOrder(a: seq<IOEntry>, rows: seq<IOEntry>)
    requires Ascending(a) && multiset(a) == multiset(rows)
    requires forall i, j :: 0 <= i < j < |rows| ==> rows[i].order < rows[j].order
    ensures a == rows
  {
    SameSize(a, rows);
    if a != [] {
      SameHead(a, rows);
      TailCounts(a);
      TailCounts(rows);
      OneSortedOrder(a[1..], rows[1..]);
    }
  }

  lemma SameHead(a: seq<IOEntry>, rows: seq<IOEntry>)
    requires Ascending(a) && SameRows(a, rows) && a != [] && rows != []
    requires forall i, j :: 0 <= i < j < |rows| ==> rows[i].order < rows[j].order
    ensures a[0] == rows[0]
  {
    var j := RowOf(a, rows, 0);
    var i := SlotOf(a, rows, 0);
    assert a[0].order <= a[i].order;
  }

  lemma TailCounts(a: seq<IOEntry>)
    requires a != []
    ensures multiset(a[1..]) == multiset(a) - multiset{a[0]} && a == [a[0]] + a[1..]
  {
    RemoveCounts(a, 0);
    assert Remove(a, 0) == a[1..];
  }

  /** The comparison function's subtraction stays within `int`. */
  lemma CompareFits(rows: seq<IOEntry>, next: nat, i: nat, j: nat)
    requires Stamped(rows, next) && next <= INT_MAX && i < |rows| && j < |rows|
    ensures -INT_MAX <= rows[i].order - rows[j].order <= INT_MAX
    ensures rows[i].order - rows[j].order < 0 <==> i < j
  {
    if j < i {
      assert rows[j].order < rows[i].order;
    }
  }
}
