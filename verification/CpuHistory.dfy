/** What the CPU tab means: the first 64 distinct keys since the clear, each with its last
    value, and shortcuts to the common registers. */
module CpuHistory {
  import opened Basics
  import opened Messages
  import IoHistory

  const CAPACITY := 64

  datatype CPUEntry = CPUEntry(key: string, sec: string, fld: string, val: string)

  /** Slots of the common registers, -1 when unset. */
  datatype Quick = Quick(pc: int, sp: int, a: int, x: int, y: int)

  datatype CpuView = CpuView(entries: seq<CPUEntry>, quick: Quick)

  const EMPTY := CpuView([], Quick(-1, -1, -1, -1, -1))

  /** make_cpu_key, whose buffer holds 63 characters. */
  function CpuKey(sec: string, fld: string): string {
    Cut(sec + ":" + fld, 63)
  }

  function KeyOf(d: ParsedData): string {
    CpuKey(d.sec, d.fld)
  }

  /** Keys of fields within the parser's limits are never truncated, and a colon-free section
      can be read off the key. */
  lemma CpuKeyParts(sec: string, fld: string)
    requires |sec| <= 31 && |fld| <= 31
    ensures CpuKey(sec, fld) == sec + ":" + fld
    ensures IoHistory.ColonFree(sec) ==>
      var k := CpuKey(sec, fld); var i := IndexOf(k, ':');
      i < |k| && k[..i] == sec && k[i + 1..] == fld
  {
    if IoHistory.ColonFree(sec) {
      IoHistory.SplitKey(sec, fld);
    }
  }

  lemma CpuKeyInjective(sec: string, fld: string, sec': string, fld': string)
    requires |sec| <= 31 && |fld| <= 31 && |sec'| <= 31 && |fld'| <= 31
    requires IoHistory.ColonFree(sec) && IoHistory.ColonFree(sec')
    requires CpuKey(sec, fld) == CpuKey(sec', fld')
    ensures sec == sec' && fld == fld'
  {
    CpuKeyParts(sec, fld);
    CpuKeyParts(sec', fld');
  }

  /** find_cpu_entry, as a position. */
  function FindSlot(es: seq<CPUEntry>, key: string): (i: nat)
    ensures i <= |es|
    ensures i < |es| ==> es[i].key == key
    ensures forall j :: 0 <= j < i ==> es[j].key != key
  {
    FindBy(es, key, (e: CPUEntry) => e.key)
  }

  function NewSlot(d: ParsedData): CPUEntry {
    CPUEntry(KeyOf(d), d.sec, d.fld, Cut(d.val, 63))
  }

  function Update(es: seq<CPUEntry>, d: ParsedData): seq<CPUEntry> {
    var i := FindSlot(es, KeyOf(d));
    if i < |es| then es[i := es[i].(val := Cut(d.val, 63))]
    else if |es| < CAPACITY then es + [NewSlot(d)]
    else es
  }

  /** update_cpu_quick_access. */
  function Point(q: Quick, i: int, fld: string): Quick {
    if fld == "pc" then q.(pc := i)
    else if fld == "sp" then q.(sp := i)
    else if fld == "a" || fld == "af" then q.(a := i)
    else if fld == "x" || fld == "bc" then q.(x := i)
    else if fld == "y" || fld == "de" then q.(y := i)
    else q
  }

  /** process_cpu. */
  function Step(v: CpuView, d: ParsedData): CpuView {
    var es := Update(v.entries, d);
    var i := FindSlot(es, KeyOf(d));
    CpuView(es, if i < |es| then Point(v.quick, i, d.fld) else v.quick)
  }

  function Replay(h: seq<ParsedData>): CpuView {
    if h == [] then EMPTY else Step(Replay(h[..|h| - 1]), h[|h| - 1])
  }

  /** datastore_cpu_get_entry. */
  function Get(es: seq<CPUEntry>, sec: string, fld: string): Option<CPUEntry> {
    var i := FindSlot(es, CpuKey(sec, fld));
    if i < |es| then Some(es[i]) else None
  }

  // ---------------------------------------------------------------- meaning

  ghost predicate HasKey(h: seq<ParsedData>, key: string) {
    exists p :: 0 <= p < |h| && KeyOf(h[p]) == key
  }

  /** The positions at which a key is seen for the first time, in order. */
  ghost function FirstTouches(h: seq<ParsedData>): seq<nat> {
    if h == [] then []
    else
      var n := |h| - 1;
      if HasKey(h[..n], KeyOf(h[n])) then FirstTouches(h[..n]) else FirstTouches(h[..n]) + [n]
  }

  /** The last value sent for a key. */
  function LastValue(h: seq<ParsedData>, key: string): Option<string> {
    if h == [] then None
    else if KeyOf(h[|h| - 1]) == key then Some(h[|h| - 1].val)
    else LastValue(h[..|h| - 1], key)
  }

  function Take(s: seq<nat>, n: nat): seq<nat> {
    if |s| <= n then s else s[..n]
  }

  /** Slot e was opened by message p and shows the last value sent for its key. */
  ghost predicate Tracks(e: CPUEntry, h: seq<ParsedData>, p: nat) {
    p < |h| && e.key == KeyOf(h[p]) && e.sec == h[p].sec && e.fld == h[p].fld &&
    LastValue(h, e.key).Some? && e.val == Cut(LastValue(h, e.key).value, 63)
  }

  ghost predicate Shows(es: seq<CPUEntry>, h: seq<ParsedData>, ps: seq<nat>) {
    |es| == |ps| && forall i :: 0 <= i < |es| ==> Tracks(es[i], h, ps[i])
  }

  lemma {:induction false} FirstTouchesCoverKeys(h: seq<ParsedData>)
    ensures forall i :: 0 <= i < |FirstTouches(h)| ==> FirstTouches(h)[i] < |h|
    ensures forall key :: HasKey(h, key) ==>
      exists i :: 0 <= i < |FirstTouches(h)| && FirstTouches(h)[i] < |h| && KeyOf(h[FirstTouches(h)[i]]) == key
  {
    hide KeyOf;
    if h != [] {
      var n := |h| - 1;
      var h0 := h[..n];
      FirstTouchesCoverKeys(h0);
      var f, f0 := FirstTouches(h), FirstTouches(h0);
      assert f == if HasKey(h0, KeyOf(h[n])) then f0 else f0 + [n];
      hide FirstTouches;
      forall key | HasKey(h, key)
        ensures exists i :: 0 <= i < |f| && f[i] < |h| && KeyOf(h[f[i]]) == key
      {
        if HasKey(h0, key) {
          var i :| 0 <= i < |f0| && f0[i] < |h0| && KeyOf(h0[f0[i]]) == key;
          assert f[i] == f0[i] && h[f[i]] == h0[f0[i]];
        } else {
          KeyIsNew(h, key);
          assert f[|f0|] == n;
        }
      }
    }
  }

  lemma KeyIsNew(h: seq<ParsedData>, key: string)
    requires h != [] && HasKey(h, key) && !HasKey(h[..|h| - 1], key)
    ensures KeyOf(h[|h| - 1]) == key
  {
    hide KeyOf;
    var h0 := h[..|h| - 1];
    assert forall p :: 0 <= p < |h0| ==> h0[p] == h[p];
  }

  /** After any history the slots are the first 64 distinct keys in order of arrival, each with
      the section and field that opened it and the last value sent, cut to 63 characters. */
  lemma {:induction false} TableIsFirstKeys(h: seq<ParsedData>)
    ensures Shows(Replay(h).entries, h, Take(FirstTouches(h), 64))
    ensures DistinctKeys(Replay(h).entries)
  {
    if h != [] {
      var h0, d := h[..|h| - 1], h[|h| - 1];
      assert h == h0 + [d];
      TableIsFirstKeys(h0);
      ReplayStep(h0, d);
      hide Replay, Shows, FirstTouches, HasKey, Update, DistinctKeys, Take;
      UpdateShows(Replay(h0).entries, h0, d);
    }
  }

  ghost predicate DistinctKeys(es: seq<CPUEntry>) {
    forall i, j :: 0 <= i < j < |es| ==> es[i].key != es[j].key
  }

  lemma FirstTouchesStep(h: seq<ParsedData>, d: ParsedData)
    ensures FirstTouches(h + [d])
         == if HasKey(h, KeyOf(d)) then FirstTouches(h) else FirstTouches(h) + [|h|]
  {
    hide HasKey, KeyOf;
    assert (h + [d])[..|h|] == h;
  }

  lemma {:induction false} UpdateShows(es: seq<CPUEntry>, h: seq<ParsedData>, d: ParsedData)
    requires Shows(es, h, Take(FirstTouches(h), CAPACITY)) && DistinctKeys(es)
    ensures Shows(Update(es, d), h + [d], Take(FirstTouches(h + [d]), CAPACITY))
    ensures DistinctKeys(Update(es, d))
  {
    hide Shows, Take, HasKey, FirstTouches, KeyOf, Update, DistinctKeys, FindSlot;
    var f := FirstTouches(h);
    FirstTouchesStep(h, d);
    SameLength(es, h, Take(f, CAPACITY));
    TakeAll(f, CAPACITY);
    if FindSlot(es, KeyOf(d)) < |es| {
      SlotHasKey(es, h, KeyOf(d));
      RefreshShows(es, h, Take(f, CAPACITY), d);
    } else if |es| < CAPACITY {
      if HasKey(h, KeyOf(d)) {
        KeyHasSlot(es, h, KeyOf(d));
      }
      TakeSnoc(f, |h|, CAPACITY);
      AppendShows(es, h, f, d);
    } else {
      TakeSnoc(f, |h|, CAPACITY);
      FullShows(es, h, Take(f, CAPACITY), d);
    }
  }

  lemma SameLength(es: seq<CPUEntry>, h: seq<ParsedData>, ps: seq<nat>)
    requires Shows(es, h, ps)
    ensures |es| == |ps|
  {
  }

  lemma TakeAll(s: seq<nat>, n: nat)
    ensures |s| < n ==> Take(s, n) == s
    ensures |s| >= n ==> |Take(s, n)| == n
  {
  }

  lemma RefreshShows(es: seq<CPUEntry>, h: seq<ParsedData>, ps: seq<nat>, d: ParsedData)
    requires Shows(es, h, ps) && DistinctKeys(es) && FindSlot(es, KeyOf(d)) < |es|
    ensures Shows(Update(es, d), h + [d], ps) && DistinctKeys(Update(es, d))
  {
    TracksLonger(es, h, ps, d);
    hide KeyOf, Tracks, LastValue;
    var i := FindSlot(es, KeyOf(d));
    assert forall j :: 0 <= j < |es| && j != i ==> es[j].key != KeyOf(d);
  }

  lemma {:induction false} AppendShows(es: seq<CPUEntry>, h: seq<ParsedData>, ps: seq<nat>, d: ParsedData)
    requires Shows(es, h, ps) && DistinctKeys(es) && FindSlot(es, KeyOf(d)) >= |es| && |es| < CAPACITY
    ensures Shows(Update(es, d), h + [d], ps + [|h|]) && DistinctKeys(Update(es, d))
  {
    TracksLonger(es, h, ps, d);
    NewSlotTracks(h, d);
    hide KeyOf, Tracks, LastValue;
    assert Update(es, d) == es + [NewSlot(d)];
    hide Update;
  }

  lemma TakeSnoc(s: seq<nat>, x: nat, n: nat)
    ensures Take(s + [x], n) == if |s| < n then s + [x] else Take(s, n)
  {
  }

  lemma FullShows(es: seq<CPUEntry>, h: seq<ParsedData>, ps: seq<nat>, d: ParsedData)
    requires Shows(es, h, ps) && DistinctKeys(es) && FindSlot(es, KeyOf(d)) >= |es| >= CAPACITY
    ensures Shows(Update(es, d), h + [d], ps) && DistinctKeys(Update(es, d))
  {
    TracksLonger(es, h, ps, d);
    hide KeyOf, Tracks, LastValue;
  }

  lemma ReplayStep(h: seq<ParsedData>, d: ParsedData)
    ensures Replay(h + [d]) == Step(Replay(h), d)
  {
    assert (h + [d])[..|h|] == h;
  }

  lemma NewSlotTracks(h: seq<ParsedData>, d: ParsedData)
    ensures Tracks(NewSlot(d), h + [d], |h|)
  {
  }

  /** A message changes what its own slot shows and leaves the others alone. */
  lemma TracksLonger(es: seq<CPUEntry>, h: seq<ParsedData>, ps: seq<nat>, d: ParsedData)
    requires Shows(es, h, ps)
    ensures forall i :: 0 <= i < |es| ==>
      if es[i].key == KeyOf(d) then Tracks(es[i].(val := Cut(d.val, 63)), h + [d], ps[i])
      else Tracks(es[i], h + [d], ps[i])
  {
    hide KeyOf;
    forall i | 0 <= i < |es|
      ensures if es[i].key == KeyOf(d) then Tracks(es[i].(val := Cut(d.val, 63)), h + [d], ps[i])
              else Tracks(es[i], h + [d], ps[i])
    {
      assert Tracks(es[i], h, ps[i]);
      assert (h + [d])[..|h|] == h && (h + [d])[ps[i]] == h[ps[i]];
    }
  }

  lemma SlotHasKey(es: seq<CPUEntry>, h: seq<ParsedData>, key: string)
    requires Shows(es, h, Take(FirstTouches(h), CAPACITY)) && FindSlot(es, key) < |es|
    ensures HasKey(h, key)
  {
    hide KeyOf, FirstTouches, LastValue;
    var i := FindSlot(es, key);
    assert Tracks(es[i], h, Take(FirstTouches(h), CAPACITY)[i]);
  }

  /** While there is room every key seen has a slot. */
  lemma {:induction false} KeyHasSlot(es: seq<CPUEntry>, h: seq<ParsedData>, key: string)
    requires Shows(es, h, Take(FirstTouches(h), CAPACITY)) && |es| < CAPACITY && HasKey(h, key)
    ensures FindSlot(es, key) < |es|
  {
    FirstTouchesCoverKeys(h);
    var f := FirstTouches(h);
    hide KeyOf, FirstTouches, LastValue;
    var j :| 0 <= j < |f| && f[j] < |h| && KeyOf(h[f[j]]) == key;
    assert Tracks(es[j], h, f[j]);
  }

  // ---------------------------------------------------------------- lookup

  /** key is among the first 64 distinct keys of h. */
  ghost predicate Early(h: seq<ParsedData>, key: string) {
    exists i :: 0 <= i < |FirstTouches(h)| && i < 64 && FirstTouches(h)[i] < |h| &&
      KeyOf(h[FirstTouches(h)[i]]) == key
  }

  /** Looking up a section and field finds the last value sent for it, cut to 63 characters, if
      its key came among the first 64, and nothing otherwise. */
  lemma {:induction false} LookupIsLastValue(h: seq<ParsedData>, sec: string, fld: string)
    ensures var key, r := CpuKey(sec, fld), Get(Replay(h).entries, sec, fld);
      (r.Some? <==> Early(h, key)) &&
      (r.Some? ==> LastValue(h, key).Some? && r.value.val == Cut(LastValue(h, key).value, 63))
  {
    TableIsFirstKeys(h);
    var es, f, key := Replay(h).entries, FirstTouches(h), CpuKey(sec, fld);
    hide KeyOf, CpuKey, FirstTouches, LastValue, Replay;
    var i := FindSlot(es, key);
    if i < |es| {
      assert Tracks(es[i], h, f[i]);
    }
    if Early(h, key) {
      var j :| 0 <= j < |f| && j < CAPACITY && f[j] < |h| && KeyOf(h[f[j]]) == key;
      assert Tracks(es[j], h, f[j]);
    }
  }

  ghost predicate SectionsColonFree(h: seq<ParsedData>) {
    forall i :: 0 <= i < |h| ==> IoHistory.ColonFree(h[i].sec)
  }

  /** The last value of a section and field, without going through keys. */
  function LastOf(h: seq<ParsedData>, sec: string, fld: string): Option<string> {
    if h == [] then None
    else if h[|h| - 1].sec == sec && h[|h| - 1].fld == fld then Some(h[|h| - 1].val)
    else LastOf(h[..|h| - 1], sec, fld)
  }

  /** Colon-free sections make keys and fields the same thing. */
  lemma {:induction false} LastValueIsLastOf(h: seq<ParsedData>, sec: string, fld: string)
    requires SectionsColonFree(h) && IoHistory.ColonFree(sec) && |sec| <= 31 && |fld| <= 31
    ensures LastValue(h, CpuKey(sec, fld)) == LastOf(h, sec, fld)
  {
    if h != [] {
      var d := h[|h| - 1];
      LastValueIsLastOf(h[..|h| - 1], sec, fld);
      if KeyOf(d) == CpuKey(sec, fld) {
        CpuKeyInjective(d.sec, d.fld, sec, fld);
      }
    }
  }

  /** A slot shows the register it was asked for. */
  lemma {:induction false} LookupNamesField(h: seq<ParsedData>, sec: string, fld: string)
    requires SectionsColonFree(h) && IoHistory.ColonFree(sec) && |sec| <= 31 && |fld| <= 31
    requires Get(Replay(h).entries, sec, fld).Some?
    ensures var e := Get(Replay(h).entries, sec, fld).value;
      e.sec == sec && e.fld == fld && LastOf(h, sec, fld).Some? &&
      e.val == Cut(LastOf(h, sec, fld).value, 63)
  {
    LookupIsLastValue(h, sec, fld);
    LastValueIsLastOf(h, sec, fld);
    TableIsFirstKeys(h);
    var es := Replay(h).entries;
    var i := FindSlot(es, CpuKey(sec, fld));
    var p := FirstTouches(h)[i];
    assert Tracks(es[i], h, p);
    CpuKeyInjective(h[p].sec, h[p].fld, sec, fld);
  }

  /** Two fields that share a key are the same if and only if their sections have one length. */
  lemma SharedCpuKeyIff(sec: string, fld: string, sec': string, fld': string)
    requires |sec| <= 31 && |fld| <= 31 && |sec'| <= 31 && |fld'| <= 31
    requires CpuKey(sec, fld) == CpuKey(sec', fld')
    ensures sec == sec' && fld == fld' <==> |sec| == |sec'|
  {
    CpuKeySlices(sec, fld);
    CpuKeySlices(sec', fld');
    hide CpuKey;
  }

  lemma CpuKeySlices(sec: string, fld: string)
    requires |sec| <= 31 && |fld| <= 31
    ensures var k := CpuKey(sec, fld);
      |k| == |sec| + 1 + |fld| && k[..|sec|] == sec && k[|sec|] == ':' && k[|sec| + 1..] == fld
  {
  }

  /** The last message of h with a key, or the length of h. */
  function LastWith(h: seq<ParsedData>, key: string): (q: nat)
    ensures q <= |h|
    ensures q < |h| ==> KeyOf(h[q]) == key && forall p :: q < p < |h| ==> KeyOf(h[p]) != key
    ensures LastValue(h, key) == if q < |h| then Some(h[q].val) else None
  {
    if h == [] then 0
    else if KeyOf(h[|h| - 1]) == key then |h| - 1
    else
      var q := LastWith(h[..|h| - 1], key);
      if q < |h| - 1 then q else |h|
  }

  /** The first message of h with a key, or the length of h. */
  function FirstWith(h: seq<ParsedData>, key: string): (o: nat)
    ensures o <= |h|
    ensures o < |h| ==> KeyOf(h[o]) == key
    ensures forall p :: 0 <= p < o ==> KeyOf(h[p]) != key
  {
    FindBy(h, key, (d: ParsedData) => KeyOf(d))
  }

  lemma {:induction false} FirstTouchIsFirst(h: seq<ParsedData>, i: nat)
    requires i < |FirstTouches(h)|
    ensures FirstTouches(h)[i] < |h|
    ensures FirstWith(h, KeyOf(h[FirstTouches(h)[i]])) == FirstTouches(h)[i]
  {
    var n := |h| - 1;
    var f := FirstTouches(h[..n]);
    hide KeyOf;
    if i < |f| {
      FirstTouchIsFirst(h[..n], i);
      assert forall p :: 0 <= p < n ==> h[..n][p] == h[p];
    } else {
      assert !HasKey(h[..n], KeyOf(h[n]));
      assert forall p :: 0 <= p < n ==> KeyOf(h[p]) == KeyOf(h[..n][p]);
    }
  }

  /** A key among the first 64 has a slot, which shows the section and field of the first message
      with the key. */
  lemma {:induction false} SlotShowsFirst(h: seq<ParsedData>, sec: string, fld: string)
    requires Early(h, CpuKey(sec, fld))
    ensures var es, key := Replay(h).entries, CpuKey(sec, fld);
      var i, o := FindSlot(es, key), FirstWith(h, key);
      i < |es| && o < |h| && es[i].sec == h[o].sec && es[i].fld == h[o].fld
  {
    LookupIsLastValue(h, sec, fld);
    TableIsFirstKeys(h);
    hide Replay, FirstTouches, LastValue, CpuKey, DistinctKeys, Early;
    var es, key := Replay(h).entries, CpuKey(sec, fld);
    var i := FindSlot(es, key);
    var o := Take(FirstTouches(h), CAPACITY)[i];
    assert Tracks(es[i], h, o);
    FirstTouchIsFirst(h, i);
  }

  /** For every history: the slot of a key among the first 64 shows the section and field asked
      for if and only if the section of the first message with the key is as long as the one asked
      for, and its value was sent for them if and only if that of the last message is. With
      colon-free sections all of this is so. */
  lemma {:induction false} LookupIsRightIff(h: seq<ParsedData>, sec: string, fld: string)
    requires |sec| <= 31 && |fld| <= 31 && Early(h, CpuKey(sec, fld))
    ensures var o, q := FirstWith(h, CpuKey(sec, fld)), LastWith(h, CpuKey(sec, fld));
      o < |h| && q < |h| && Get(Replay(h).entries, sec, fld).Some? &&
      var e := Get(Replay(h).entries, sec, fld).value;
      (e.sec == sec && e.fld == fld <==> |h[o].sec| == |sec|) &&
      e.val == Cut(h[q].val, 63) && (h[q].sec == sec && h[q].fld == fld <==> |h[q].sec| == |sec|)
    ensures SectionsColonFree(h) && IoHistory.ColonFree(sec) ==>
      var e := Get(Replay(h).entries, sec, fld).value;
      e.sec == sec && e.fld == fld && LastOf(h, sec, fld).Some? && e.val == Cut(LastOf(h, sec, fld).value, 63)
  {
    LookupIsLastValue(h, sec, fld);
    SlotShowsFirst(h, sec, fld);
    if SectionsColonFree(h) && IoHistory.ColonFree(sec) {
      LookupNamesField(h, sec, fld);
    }
    hide Replay, LastValue, CpuKey, LastWith, FirstWith, Early, SectionsColonFree, LastOf;
    var o, q := FirstWith(h, CpuKey(sec, fld)), LastWith(h, CpuKey(sec, fld));
    SharedCpuKeyIff(h[o].sec, h[o].fld, sec, fld);
    SharedCpuKeyIff(h[q].sec, h[q].fld, sec, fld);
  }

  /** A failing input: after "reg" "x:pc" and "reg:x" "pc", looking up "reg:x" "pc" finds a slot
      that shows section "reg". */
  lemma LookupCanMislead()
    ensures var h: seq<ParsedData> := [SHADOWING, SHADOWED];
      Get(Replay(h).entries, "reg:x", "pc").Some? && Get(Replay(h).entries, "reg:x", "pc").value.sec == "reg"
  {
    SameKey();
    SameSlotTwice(SHADOWING, SHADOWED);
    hide Replay;
    assert CpuKey("reg:x", "pc") == KeyOf(SHADOWED);
  }

  /** Two fields with one key. */
  const SHADOWING: ParsedData := Fields("", "cpu", "reg", "x:pc", "", "", -1, -1, false, false)
  const SHADOWED: ParsedData := Fields("", "cpu", "reg:x", "pc", "", "", -1, -1, false, false)

  lemma SameKey()
    ensures KeyOf(SHADOWING) == KeyOf(SHADOWED)
  {
    assert "reg" + ":" + "x:pc" == "reg:x" + ":" + "pc";
  }

  // ---------------------------------------------------------------- quick access

  datatype Register = PC | SP | A | X | Y

  predicate Names(r: Register, fld: string) {
    match r
    case PC => fld == "pc"
    case SP => fld == "sp"
    case A => fld == "a" || fld == "af"
    case X => fld == "x" || fld == "bc"
    case Y => fld == "y" || fld == "de"
  }

  function Slot(q: Quick, r: Register): int {
    match r
    case PC => q.pc
    case SP => q.sp
    case A => q.a
    case X => q.x
    case Y => q.y
  }

  lemma PointSlot(q: Quick, i: int, fld: string, r: Register)
    ensures Slot(Point(q, i, fld), r) == if Names(r, fld) then i else Slot(q, r)
  {
  }

  /** Slots never move and never change key. */
  lemma {:induction false} SlotsAreStable(h: seq<ParsedData>, d: ParsedData)
    ensures var es, es' := Replay(h).entries, Replay(h + [d]).entries;
      |es| <= |es'| &&
      forall i :: 0 <= i < |es| ==>
        es'[i].key == es[i].key && es'[i].sec == es[i].sec && es'[i].fld == es[i].fld
  {
    ReplayStep(h, d);
    UpdateIsStable(Replay(h).entries, d);
    hide Replay, Update, KeyOf;
  }

  lemma UpdateIsStable(es: seq<CPUEntry>, d: ParsedData)
    ensures var es' := Update(es, d);
      |es| <= |es'| &&
      forall i :: 0 <= i < |es| ==>
        es'[i].key == es[i].key && es'[i].sec == es[i].sec && es'[i].fld == es[i].fld
  {
    hide KeyOf;
  }

  /** A message of the history that names r and has slot i of es. */
  ghost predicate Pointed(h: seq<ParsedData>, es: seq<CPUEntry>, i: int, r: Register, p: int) {
    0 <= p < |h| && 0 <= i < |es| && Names(r, h[p].fld) && es[i].key == KeyOf(h[p])
  }

  /** No message from position from on that names r was given a slot. */
  ghost predicate NoneStored(h: seq<ParsedData>, es: seq<CPUEntry>, r: Register, from: int) {
    forall q :: 0 <= q < |h| && from <= q && Names(r, h[q].fld) ==> !HasSlot(es, KeyOf(h[q]))
  }

  predicate HasSlot(es: seq<CPUEntry>, key: string) {
    FindSlot(es, key) < |es|
  }

  /** The index i is that of the last stored message that names r, or -1 if there is none. */
  ghost predicate LastPointer(h: seq<ParsedData>, es: seq<CPUEntry>, i: int, r: Register) {
    if i == -1 then NoneStored(h, es, r, 0)
    else exists p :: Pointed(h, es, i, r, p) && NoneStored(h, es, r, p + 1)
  }

  /** Each quick index is unset when no message for its registers got a slot, and otherwise
      names the slot of the last message that did. */
  lemma {:induction false} QuickIndexIsLastSlot(h: seq<ParsedData>, r: Register)
    ensures LastPointer(h, Replay(h).entries, Slot(Replay(h).quick, r), r)
  {
    if h != [] {
      var h0, d := h[..|h| - 1], h[|h| - 1];
      assert h == h0 + [d];
      QuickIndexIsLastSlot(h0, r);
      ReplayStep(h0, d);
      SlotsAreStable(h0, d);
      UnstoredStays(h0, d);
      var v0, v := Replay(h0), Replay(h);
      var k := FindSlot(v.entries, KeyOf(d));
      PointSlot(v0.quick, k, d.fld, r);
      hide KeyOf, Replay, Names, Slot, Point, Update, HasSlot, FindSlot;
      PointerStep(h0, d, v0.entries, v.entries, Slot(v0.quick, r), r);
      if k < |v.entries| && Names(r, d.fld) {
        assert Pointed(h, v.entries, k, r, |h0|);
        assert NoneStored(h, v.entries, r, |h0| + 1);
      } else {
        assert Slot(v.quick, r) == Slot(v0.quick, r);
        assert !HasSlot(v.entries, KeyOf(d)) || !Names(r, d.fld) by { SlotDefinition(v.entries, KeyOf(d)); }
      }
    }
  }

  lemma SlotDefinition(es: seq<CPUEntry>, key: string)
    ensures HasSlot(es, key) <==> FindSlot(es, key) < |es|
  {
  }

  /** A message that points nowhere leaves the pointer right. */
  lemma PointerStep(h: seq<ParsedData>, d: ParsedData, es: seq<CPUEntry>, es': seq<CPUEntry>, i: int, r: Register)
    requires LastPointer(h, es, i, r)
    requires |es| <= |es'| && forall j :: 0 <= j < |es| ==> es'[j].key == es[j].key
    requires forall q :: 0 <= q < |h| && !HasSlot(es, KeyOf(h[q])) ==> !HasSlot(es', KeyOf(h[q]))
    ensures !HasSlot(es', KeyOf(d)) || !Names(r, d.fld) ==> LastPointer(h + [d], es', i, r)
  {
    hide KeyOf, Names, HasSlot;
    var h' := h + [d];
    assert h'[|h|] == d && forall q :: 0 <= q < |h| ==> h'[q] == h[q];
    if i != -1 && (!HasSlot(es', KeyOf(d)) || !Names(r, d.fld)) {
      var p :| Pointed(h, es, i, r, p) && NoneStored(h, es, r, p + 1);
      assert Pointed(h', es', i, r, p);
      assert NoneStored(h', es', r, p + 1);
    }
  }

  /** A key that found no slot when its message came never gets one. */
  lemma {:induction false} UnstoredStays(h: seq<ParsedData>, d: ParsedData)
    ensures forall q :: 0 <= q < |h| && !HasSlot(Replay(h).entries, KeyOf(h[q])) ==>
      !HasSlot(Replay(h + [d]).entries, KeyOf(h[q]))
  {
    ReplayStep(h, d);
    var es := Replay(h).entries;
    assert Replay(h + [d]).entries == Update(es, d);
    hide Replay, KeyOf, HasSlot, Update;
    forall q | 0 <= q < |h| && !HasSlot(es, KeyOf(h[q]))
      ensures !HasSlot(Update(es, d), KeyOf(h[q]))
    {
      TableIsFull(h, q);
      FullStays(es, d, KeyOf(h[q]));
    }
  }

  lemma FullStays(es: seq<CPUEntry>, d: ParsedData, key: string)
    requires |es| >= CAPACITY && !HasSlot(es, key)
    ensures !HasSlot(Update(es, d), key)
  {
    hide KeyOf;
    var es' := Update(es, d);
    assert forall i :: 0 <= i < |es| ==> es'[i].key == es[i].key;
  }

  lemma TableIsFull(h: seq<ParsedData>, q: nat)
    requires q < |h| && !HasSlot(Replay(h).entries, KeyOf(h[q]))
    ensures |Replay(h).entries| >= CAPACITY
  {
    TableIsFirstKeys(h);
    hide Replay, KeyOf, Shows;
    var es := Replay(h).entries;
    assert HasKey(h, KeyOf(h[q]));
    if |es| < CAPACITY {
      KeyHasSlot(es, h, KeyOf(h[q]));
    }
  }

  /** With colon-free sections the slot a quick index names belongs to one of its registers. */
  lemma {:induction false} QuickSlotNamesRegister(h: seq<ParsedData>, r: Register)
    requires SectionsColonFree(h) && Slot(Replay(h).quick, r) != -1
    ensures var i := Slot(Replay(h).quick, r);
      0 <= i < |Replay(h).entries| && Names(r, Replay(h).entries[i].fld)
  {
    QuickIndexIsLastSlot(h, r);
    TableIsFirstKeys(h);
    hide Replay, FirstTouches, LastValue, NoneStored, CpuKey, Slot, Names, DistinctKeys;
    var es, i := Replay(h).entries, Slot(Replay(h).quick, r);
    var p :| Pointed(h, es, i, r, p);
    var o := Take(FirstTouches(h), CAPACITY)[i];
    assert Tracks(es[i], h, o);
    CpuKeyInjective(h[o].sec, h[o].fld, h[p].sec, h[p].fld);
  }

  /** The last of the first n messages that names r and whose key is among the first 64 of h, or
      the length of h. */
  ghost function LastStored(h: seq<ParsedData>, r: Register, n: nat): (p: nat)
    requires n <= |h|
    ensures p < n || p == |h|
    ensures p < |h| ==> Names(r, h[p].fld) && Early(h, KeyOf(h[p]))
    ensures forall q :: 0 <= q < n && (p == |h| || p < q) ==> !(Names(r, h[q].fld) && Early(h, KeyOf(h[q])))
  {
    if n == 0 then |h|
    else if Names(r, h[n - 1].fld) && Early(h, KeyOf(h[n - 1])) then n - 1
    else LastStored(h, r, n - 1)
  }

  lemma StoredIffEarly(h: seq<ParsedData>, d: ParsedData)
    ensures HasSlot(Replay(h).entries, KeyOf(d)) <==> Early(h, KeyOf(d))
  {
    LookupIsLastValue(h, d.sec, d.fld);
    hide Replay, CpuKey, LastValue, Early;
  }

  lemma {:induction false} LastPointerIsLastStored(h: seq<ParsedData>, r: Register)
    ensures var i, p := Slot(Replay(h).quick, r), LastStored(h, r, |h|);
      (i == -1 <==> p == |h|) &&
      (p < |h| ==> Pointed(h, Replay(h).entries, i, r, p))
  {
    QuickIndexIsLastSlot(h, r);
    forall q | 0 <= q < |h|
      ensures HasSlot(Replay(h).entries, KeyOf(h[q])) <==> Early(h, KeyOf(h[q]))
    {
      StoredIffEarly(h, h[q]);
    }
    LastOfStored(h, Replay(h).entries, Slot(Replay(h).quick, r), r);
    hide Replay, KeyOf, Slot, Names, Early, LastStored;
  }

  lemma LastOfStored(h: seq<ParsedData>, es: seq<CPUEntry>, i: int, r: Register)
    requires LastPointer(h, es, i, r)
    requires forall q :: 0 <= q < |h| ==> (HasSlot(es, KeyOf(h[q])) <==> Early(h, KeyOf(h[q])))
    ensures var p := LastStored(h, r, |h|);
      (i == -1 <==> p == |h|) && (p < |h| ==> Pointed(h, es, i, r, p))
  {
    hide KeyOf, Names, Early, LastStored, HasSlot;
    var l := LastStored(h, r, |h|);
    if i != -1 {
      var p :| Pointed(h, es, i, r, p) && NoneStored(h, es, r, p + 1);
      SlotTaken(es, i);
      assert Names(r, h[p].fld) && Early(h, KeyOf(h[p]));
      assert l == p;
    }
  }

  lemma SlotTaken(es: seq<CPUEntry>, i: nat)
    requires i < |es|
    ensures HasSlot(es, es[i].key)
  {
  }

  /** For every history: a register shortcut is unset if and only if no message that names the
      register was stored; and the slot it names belongs to the register if and only if the field
      of the first message with that key has no colon. With colon-free sections it has none. */
  lemma {:induction false} QuickSlotRightIff(h: seq<ParsedData>, r: Register)
    ensures var i, p := Slot(Replay(h).quick, r), LastStored(h, r, |h|);
      (i == -1 <==> p == |h|) &&
      (p < |h| ==>
        var o := FirstWith(h, KeyOf(h[p]));
        o < |h| && 0 <= i < |Replay(h).entries| && Replay(h).entries[i].fld == h[o].fld &&
        (Names(r, Replay(h).entries[i].fld) <==> IoHistory.ColonFree(h[o].fld)) &&
        (SectionsColonFree(h) ==> Names(r, Replay(h).entries[i].fld)))
  {
    LastPointerIsLastStored(h, r);
    var es, i, p := Replay(h).entries, Slot(Replay(h).quick, r), LastStored(h, r, |h|);
    if p < |h| {
      if SectionsColonFree(h) {
        QuickSlotNamesRegister(h, r);
      }
      SlotShowsFirst(h, h[p].sec, h[p].fld);
      TableIsFirstKeys(h);
      hide Replay, FirstTouches, LastValue, CpuKey, Slot, Names, IoHistory.ColonFree, LastStored, Early, FirstWith,
        SectionsColonFree;
      var o := FirstWith(h, KeyOf(h[p]));
      assert FindSlot(es, KeyOf(h[p])) == i;
      RegisterColonFree(r, h[p].fld);
      RegisterColonFree(r, h[o].fld);
      if IoHistory.ColonFree(h[o].fld) {
        LastColon(h[o], h[p]);
      }
    }
  }

  lemma RegisterColonFree(r: Register, fld: string)
    ensures Names(r, fld) ==> IoHistory.ColonFree(fld)
  {
  }

  /** Colon-free fields are what follows the last colon of their key. */
  lemma LastColon(d: ParsedData, e: ParsedData)
    requires KeyOf(d) == KeyOf(e) && IoHistory.ColonFree(d.fld) && IoHistory.ColonFree(e.fld)
    ensures d.fld == e.fld
  {
    CpuKeySlices(d.sec, d.fld);
    CpuKeySlices(e.sec, e.fld);
    NoColonAfter(d.sec, d.fld);
    NoColonAfter(e.sec, e.fld);
    hide CpuKey, IoHistory.ColonFree;
    assert |d.sec| == |e.sec|;
  }

  lemma NoColonAfter(sec: string, fld: string)
    requires |sec| <= 31 && |fld| <= 31 && IoHistory.ColonFree(fld)
    ensures forall i :: |sec| < i < |CpuKey(sec, fld)| ==> CpuKey(sec, fld)[i] != ':'
  {
    CpuKeySlices(sec, fld);
    hide CpuKey;
    var k := CpuKey(sec, fld);
    assert forall i :: |sec| < i < |k| ==> k[i] == fld[i - |sec| - 1];
  }

  /** A failing input: after the same two messages the program counter shortcut names a slot whose
      field is "x:pc". */
  lemma QuickSlotCanMislead()
    ensures var h: seq<ParsedData> := [SHADOWING, SHADOWED];
      Slot(Replay(h).quick, PC) == 0 && |Replay(h).entries| == 1 && Replay(h).entries[0].fld == "x:pc" &&
      !Names(PC, "x:pc")
  {
    SameKey();
    SameSlotTwice(SHADOWING, SHADOWED);
    hide Replay;
    assert |SHADOWING.fld| == 4;
  }

  lemma SameSlotTwice(d: ParsedData, e: ParsedData)
    requires KeyOf(d) == KeyOf(e)
    ensures Replay([d, e]).entries == [NewSlot(d).(val := Cut(e.val, 63))]
    ensures Replay([d, e]).quick == Point(Point(EMPTY.quick, 0, d.fld), 0, e.fld)
  {
    assert [] + [d] == [d] && [d] + [e] == [d, e];
    ReplayStep([], d);
    ReplayStep([d], e);
    assert Replay([]) == EMPTY;
    hide Replay, KeyOf, Point;
    assert Update([], d) == [NewSlot(d)];
    assert FindSlot([NewSlot(d)], KeyOf(d)) == 0;
    assert Update([NewSlot(d)], e) == [NewSlot(d).(val := Cut(e.val, 63))];
  }
}
