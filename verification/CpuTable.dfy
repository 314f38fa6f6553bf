/** The CPU tab as the program keeps it: a 64-slot array filled from the front, and five
    register shortcuts (data_store.c, CPUData). */
module CpuTable {
  import opened Basics
  import opened Messages
  import opened CpuHistory

  const ZERO := CPUEntry("", "", "", "")

  class CPUData {
    var entries: array<CPUEntry>
    var count: Int32
    var idxPc: int
    var idxSp: int
    var idxA: int
    var idxX: int
    var idxY: int

    ghost predicate Valid()
      reads this
    {
      entries.Length == CAPACITY && 0 <= count <= CAPACITY
    }

    ghost function View(): CpuView
      requires Valid()
      reads this, entries
    {
      CpuView(entries[..count], Quick(idxPc, idxSp, idxA, idxX, idxY))
    }

    /** datastore_cpu_clear on new storage. */
    constructor ()
      ensures Valid() && fresh(entries) && View() == EMPTY
    {
      entries := new CPUEntry[CAPACITY](_ => ZERO);
      count := 0;
      idxPc, idxSp, idxA, idxX, idxY := -1, -1, -1, -1, -1;
      new;
      assert entries[..count] == [];
    }

    /** datastore_cpu_clear. */
    method Clear()
      requires Valid()
      modifies this, entries
      ensures Valid() && entries == old(entries) && View() == EMPTY
    {
      forall i | 0 <= i < entries.Length {
        entries[i] := ZERO;
      }
      count := 0;
      idxPc, idxSp, idxA, idxX, idxY := -1, -1, -1, -1, -1;
      assert entries[..count] == [];
    }

    /** find_cpu_entry. */
    method Find(key: string) returns (r: int)
      requires Valid()
      ensures r == if FindSlot(entries[..count], key) < count then FindSlot(entries[..count], key) else -1
    {
      ghost var es := entries[..count];
      for i := 0 to count
        invariant forall j :: 0 <= j < i ==> es[j].key != key
      {
        assert es[i] == entries[i];
        if entries[i].key == key {
          SlotUnique(es, key, i);
          return i;
        }
      }
      SlotUnique(es, key, count);
      return -1;
    }

    /** update_cpu_quick_access. */
    method UpdateQuickAccess(idx: int, fld: string)
      requires Valid()
      modifies `idxPc, `idxSp, `idxA, `idxX, `idxY
      ensures Valid() && View() == CpuView(entries[..count], Point(old(View()).quick, idx, fld))
    {
      if fld == "pc" { idxPc := idx; }
      else if fld == "sp" { idxSp := idx; }
      else if fld == "a" || fld == "af" { idxA := idx; }
      else if fld == "x" || fld == "bc" { idxX := idx; }
      else if fld == "y" || fld == "de" { idxY := idx; }
    }

    /** process_cpu. */
    method Process(d: ParsedData)
      requires Valid()
      modifies this, entries
      ensures Valid() && entries == old(entries) && View() == Step(old(View()), d)
    {
      hide KeyOf, Cut, FindSlot;
      var key := KeyOf(d);
      ghost var es := entries[..count];
      UpdateFinds(es, d);
      var idx := Find(key);
      if idx >= 0 {
        entries[idx] := entries[idx].(val := Cut(d.val, 63));
        assert entries[..count] == Update(es, d);
      } else if count < CAPACITY {
        idx := count;
        entries[idx] := NewSlot(d);
        count := count + 1;
        assert entries[..count] == Update(es, d);
      }
      if idx >= 0 {
        UpdateQuickAccess(idx, d.fld);
      }
    }

    /** datastore_cpu_get_entry. */
    method GetEntry(sec: string, fld: string) returns (r: Option<CPUEntry>)
      requires Valid()
      ensures r == Get(View().entries, sec, fld)
    {
      var idx := Find(CpuKey(sec, fld));
      if idx >= 0 {
        assert entries[..count][idx] == entries[idx];
        return Some(entries[idx]);
      }
      return None;
    }
  }

  lemma SlotUnique(es: seq<CPUEntry>, key: string, i: nat)
    requires i <= |es| && (i < |es| ==> es[i].key == key)
    requires forall j :: 0 <= j < i ==> es[j].key != key
    ensures FindSlot(es, key) == i
  {
  }

  /** Where the key of a message is found after the update. */
  lemma UpdateFinds(es: seq<CPUEntry>, d: ParsedData)
    ensures var i := FindSlot(es, KeyOf(d));
      FindSlot(Update(es, d), KeyOf(d)) == i &&
      (i < |Update(es, d)| <==> i < |es| || |es| < CAPACITY)
  {
    hide KeyOf;
    var i := FindSlot(es, KeyOf(d));
    var es' := Update(es, d);
    assert forall j :: 0 <= j < |es| ==> es'[j].key == es[j].key;
    SlotUnique(es', KeyOf(d), i);
  }
}
