/** What the I/O tab means: the last 2048 distinct keys of the history, in order of their last
    touch. Touch is the simple list form of process_io; Recency is the independent definition. */
module IoHistory {
  import opened Basics
  import opened Messages

  const CAPACITY := 2048

  datatype IOEntry = IOEntry(
    key: string, sec: string, fld: string, addr: string, val: string, idx: Int32, ts: int, order: nat)

  // ---------------------------------------------------------------- keys

  function Digits(n: nat): string {
    if n < 10 then ["0123456789"[n]] else Digits(n / 10) + ["0123456789"[n % 10]]
  }

  /** "%d". */
  function Decimal(n: int): string {
    if n < 0 then "-" + Digits(-n) else Digits(n)
  }

  function Suffix(d: ParsedData): string {
    if d.hasAddr then ":" + d.addr else if d.hasIdx then ":" + Decimal(d.idx) else ""
  }

  /** make_io_key, whose buffer holds 95 characters. */
  function Key(d: ParsedData): string {
    Cut(d.sec + ":" + d.fld + Suffix(d), 95)
  }

  function Pow10(k: nat): nat {
    if k == 0 then 1 else 10 * Pow10(k - 1)
  }

  lemma {:induction false} DigitsBound(n: nat, k: nat)
    requires k >= 1 && n < Pow10(k)
    ensures |Digits(n)| <= k
  {
    if n >= 10 {
      assert k > 1;
      DigitsBound(n / 10, k - 1);
    }
  }

  /** Keys are never truncated. */
  lemma KeyNotCut(d: ParsedData)
    ensures Key(d) == d.sec + ":" + d.fld + Suffix(d)
  {
    assert Pow10(5) == 100_000;
    assert Pow10(10) == 10_000_000_000;
    var i: int := d.idx;
    DigitsBound(if i < 0 then -i else i, 10);
    assert |Decimal(i)| <= 11;
  }

  predicate ColonFree(s: string) {
    ':' !in s
  }

  /** Without colons in the section and field, equal keys come from equal sections and fields. */
  lemma KeyNamesField(d: ParsedData, e: ParsedData)
    requires ColonFree(d.sec) && ColonFree(e.sec) && ColonFree(d.fld) && ColonFree(e.fld)
    requires Key(d) == Key(e)
    ensures d.sec == e.sec && d.fld == e.fld && Suffix(d) == Suffix(e)
  {
    KeyParts(d);
    KeyParts(e);
  }

  /** A colon-free section and field can be read off the key, and so can what follows them. */
  lemma KeyParts(d: ParsedData)
    requires ColonFree(d.sec) && ColonFree(d.fld)
    ensures var k := Key(d); var i := IndexOf(k, ':');
      i < |k| && d.sec == k[..i] &&
      var r := k[i + 1..]; var j := IndexOf(r, ':');
      d.fld == r[..j] && Suffix(d) == r[j..]
  {
    var sec, fld, suffix := d.sec, d.fld, Suffix(d);
    KeyNotCut(d);
    assert suffix == "" || suffix[0] == ':';
    hide Key, Suffix;
    assert sec + ":" + fld + suffix == sec + ":" + (fld + suffix);
    SplitKey(sec, fld + suffix);
    SplitSuffix(fld, suffix);
  }

  /** The first colon ends the section. */
  lemma SplitKey(sec: string, rest: string)
    requires ColonFree(sec)
    ensures var k := sec + ":" + rest;
      IndexOf(k, ':') == |sec| && k[..IndexOf(k, ':')] == sec && k[IndexOf(k, ':') + 1..] == rest
  {
    var k := sec + ":" + rest;
    assert k[|sec|] == ':';
    assert forall i :: 0 <= i < |sec| ==> k[i] == sec[i];
    IndexOfUnique(k, ':', |sec|);
  }

  lemma SplitSuffix(fld: string, suffix: string)
    requires ColonFree(fld) && (suffix == "" || suffix[0] == ':')
    ensures var k := fld + suffix;
      IndexOf(k, ':') == |fld| && k[..IndexOf(k, ':')] == fld && k[IndexOf(k, ':')..] == suffix
  {
    var k := fld + suffix;
    assert forall i :: 0 <= i < |fld| ==> k[i] == fld[i];
    IndexOfUnique(k, ':', |fld|);
  }

  /** The three parts of a key, by position. */
  lemma KeySlices(d: ParsedData)
    ensures var k, n, m := Key(d), |d.sec|, |d.sec| + 1 + |d.fld|;
      m <= |k| && k[..n] == d.sec && k[n + 1..m] == d.fld && k[m..] == Suffix(d)
  {
    KeyNotCut(d);
    var sec, fld, suffix := d.sec, d.fld, Suffix(d);
    hide Key, Suffix;
    var k := sec + ":" + fld + suffix;
    assert k[..|sec|] == sec;
  }

  /** Messages that share a key name the same section, field and suffix if and only if their
      sections and fields have the same lengths; without colons in them they do. */
  lemma SharedKeyIff(d: ParsedData, e: ParsedData)
    requires Key(d) == Key(e)
    ensures (d.sec == e.sec && d.fld == e.fld && Suffix(d) == Suffix(e))
       <==> |d.sec| == |e.sec| && |d.fld| == |e.fld|
    ensures ColonFree(d.sec) && ColonFree(e.sec) && ColonFree(d.fld) && ColonFree(e.fld) ==>
      |d.sec| == |e.sec| && |d.fld| == |e.fld|
  {
    if ColonFree(d.sec) && ColonFree(e.sec) && ColonFree(d.fld) && ColonFree(e.fld) {
      KeyNamesField(d, e);
    }
    KeySlices(d);
    KeySlices(e);
    hide Key, Suffix;
  }

  /** With a colon in a section two different fields can share a key. */
  lemma ColonsCollide()
    ensures var d: ParsedData := Fields("", "io", "a:b", "c", "", "", -1, -1, false, false);
      var e: ParsedData := Fields("", "io", "a", "b:c", "", "", -1, -1, false, false);
      Key(d) == Key(e) == "a:b:c" && d.sec != e.sec && d.fld != e.fld
  {
    assert |"a:b"| != |"a"| && |"c"| != |"b:c"|;
    assert "a:b" + ":" + "c" + "" == "a:b:c" == "a" + ":" + "b:c" + "";
  }

  /** What a string of decimal digits stands for. */
  function DecimalValue(s: string): int {
    if s == [] then 0 else 10 * DecimalValue(s[..|s| - 1]) + (s[|s| - 1] as int - '0' as int)
  }

  lemma DigitChar(k: nat)
    requires k < 10
    ensures "0123456789"[k] as int == '0' as int + k
  {
  }

  lemma {:induction false} DigitsReadBack(n: nat)
    ensures DecimalValue(Digits(n)) == n && Digits(n) != "" && Digits(n)[0] != '-'
  {
    DigitChar(n % 10);
    if n >= 10 {
      DigitsReadBack(n / 10);
      assert Digits(n)[..|Digits(n)| - 1] == Digits(n / 10);
    } else {
      assert Digits(n)[..0] == "";
    }
  }

  lemma DecimalInjective(n: int, m: int)
    requires Decimal(n) == Decimal(m)
    ensures n == m
  {
    DecimalReadsBack(n);
    DecimalReadsBack(m);
    hide Decimal;
  }

  lemma DecimalReadsBack(n: int)
    ensures var s := Decimal(n);
      s != "" && n == if s[0] == '-' then -DecimalValue(s[1..]) else DecimalValue(s)
  {
    DigitsReadBack(if n < 0 then -n else n);
    hide DecimalValue;
    if n < 0 {
      assert Decimal(n)[1..] == Digits(-n);
    }
  }

  /** "%d" prints decimal digits, none too many, behind a minus for negative numbers only. */
  lemma {:induction false} DecimalIs(n: int)
    requires n >= 0
    ensures n > 0 ==> Decimal(n)[0] != '0' && Decimal(-n) == "-" + Decimal(n)
    ensures forall i :: 0 <= i < |Decimal(n)| ==> Decimal(n)[i] in "0123456789"
    ensures Decimal(0) == "0"
  {
    if n >= 10 {
      DecimalIs(n / 10);
    }
  }

  /** When two messages share a row, for sections and fields without colons: they name one section
      and field, and one address, or one index, or neither, or the address of one reads like the
      index of the other. */
  lemma {:induction false} SameRowIff(d: ParsedData, e: ParsedData)
    requires ColonFree(d.sec) && ColonFree(d.fld) && ColonFree(e.sec) && ColonFree(e.fld)
    ensures Key(d) == Key(e) <==>
      d.sec == e.sec && d.fld == e.fld &&
      if d.hasAddr then (if e.hasAddr then d.addr == e.addr else e.hasIdx && d.addr == Decimal(e.idx))
      else if e.hasAddr then d.hasIdx && e.addr == Decimal(d.idx)
      else d.hasIdx == e.hasIdx && d.idx == e.idx
  {
    KeyNotCut(d);
    KeyNotCut(e);
    SuffixParts(d);
    SuffixParts(e);
    SuffixIs(d, e);
    if Key(d) == Key(e) {
      KeyNamesField(d, e);
    }
    hide Key, Suffix, Decimal, ColonFree;
  }

  lemma SuffixIs(d: ParsedData, e: ParsedData)
    ensures Suffix(d) == Suffix(e) <==>
      if d.hasAddr then (if e.hasAddr then d.addr == e.addr else e.hasIdx && d.addr == Decimal(e.idx))
      else if e.hasAddr then d.hasIdx && e.addr == Decimal(d.idx)
      else d.hasIdx == e.hasIdx && d.idx == e.idx
  {
    hide Decimal;
    var i, j: int := d.idx, e.idx;
    assert forall t: string :: (":" + t)[1..] == t;
    if !d.hasAddr && !e.hasAddr && d.hasIdx && e.hasIdx {
      assert (":" + Decimal(i))[1..] == Decimal(i) && (":" + Decimal(j))[1..] == Decimal(j);
      if Decimal(i) == Decimal(j) {
        DecimalInjective(i, j);
      }
    }
  }

  // ---------------------------------------------------------------- rows

  function NewRow(d: ParsedData, order: nat): IOEntry {
    IOEntry(Key(d), d.sec, d.fld, d.addr, Cut(d.val, 255), if d.hasIdx then d.idx else -1, d.ts, order)
  }

  function Refreshed(e: IOEntry, d: ParsedData, order: nat): IOEntry {
    e.(val := Cut(d.val, 255), ts := d.ts, order := order)
  }

  /** First row with the key, or the number of rows. */
  function FindRow(rows: seq<IOEntry>, key: string): (i: nat)
    ensures i <= |rows|
    ensures i < |rows| ==> rows[i].key == key
    ensures forall j :: 0 <= j < i ==> rows[j].key != key
  {
    FindBy(rows, key, (e: IOEntry) => e.key)
  }

  function Remove<T>(s: seq<T>, i: nat): seq<T>
    requires i < |s|
  {
    s[..i] + s[i + 1..]
  }

  /** The rows, oldest first, after message d with stamp order. */
  function Touch(rows: seq<IOEntry>, d: ParsedData, order: nat): seq<IOEntry> {
    var i := FindRow(rows, Key(d));
    if i < |rows| then Remove(rows, i) + [Refreshed(rows[i], d, order)]
    else if |rows| < CAPACITY then rows + [NewRow(d, order)]
    else rows[1..] + [NewRow(d, order)]
  }

  function Replay(h: seq<ParsedData>): seq<IOEntry> {
    if h == [] then [] else Touch(Replay(h[..|h| - 1]), h[|h| - 1], |h| - 1)
  }

  /** Stamps strictly increase along the rows and stay below next. */
  ghost predicate Stamped(rows: seq<IOEntry>, next: nat) {
    (forall i, j :: 0 <= i < j < |rows| ==> rows[i].order < rows[j].order) &&
    forall i :: 0 <= i < |rows| ==> rows[i].order < next
  }

  ghost predicate DistinctKeys(rows: seq<IOEntry>) {
    forall i, j :: 0 <= i < j < |rows| ==> rows[i].key != rows[j].key
  }

  lemma TouchKeeps(rows: seq<IOEntry>, d: ParsedData, next: nat)
    requires Stamped(rows, next) && DistinctKeys(rows) && |rows| <= CAPACITY
    ensures Stamped(Touch(rows, d, next), next + 1) && DistinctKeys(Touch(rows, d, next))
    ensures |Touch(rows, d, next)| <= CAPACITY
  {
    var i := FindRow(rows, Key(d));
    if i < |rows| {
      AppendKeeps(Remove(rows, i), Refreshed(rows[i], d, next), next);
    } else if |rows| < CAPACITY {
      AppendKeeps(rows, NewRow(d, next), next);
    } else {
      AppendKeeps(rows[1..], NewRow(d, next), next);
    }
  }

  lemma AppendKeeps(rows: seq<IOEntry>, e: IOEntry, next: nat)
    requires Stamped(rows, next) && DistinctKeys(rows) && e.order == next
    requires forall j :: 0 <= j < |rows| ==> rows[j].key != e.key
    ensures Stamped(rows + [e], next + 1) && DistinctKeys(rows + [e])
  {
  }

  // ---------------------------------------------------------------- recency

  /** Message p is the last in h with its key. */
  ghost predicate LastTouch(h: seq<ParsedData>, p: nat)
    requires p < |h|
  {
    forall q :: p < q < |h| ==> Key(h[q]) != Key(h[p])
  }

  /** The positions below n that are last touches, in ascending order. */
  ghost function LastTouches(h: seq<ParsedData>, n: nat): seq<nat>
    requires n <= |h|
  {
    if n == 0 then []
    else if LastTouch(h, n - 1) then LastTouches(h, n - 1) + [n - 1]
    else LastTouches(h, n - 1)
  }

  /** Every key's last touch, oldest first: the unbounded recency order. */
  ghost function Recency(h: seq<ParsedData>): seq<nat> {
    LastTouches(h, |h|)
  }

  ghost predicate Positions(h: seq<ParsedData>, u: seq<nat>) {
    forall i :: 0 <= i < |u| ==> u[i] < |h|
  }

  function Last(s: seq<nat>, n: nat): seq<nat> {
    if |s| <= n then s else s[|s| - n..]
  }

  lemma {:induction false} LastTouchesMembers(h: seq<ParsedData>, n: nat)
    requires n <= |h|
    ensures forall p: nat :: p in LastTouches(h, n) <==> p < n && LastTouch(h, p)
  {
    hide LastTouch, Key;
    if n > 0 {
      LastTouchesMembers(h, n - 1);
      var u := LastTouches(h, n - 1);
      assert LastTouches(h, n) == if LastTouch(h, n - 1) then u + [n - 1] else u;
    }
  }

  lemma {:induction false} LastTouchesAscend(h: seq<ParsedData>, n: nat)
    requires n <= |h|
    ensures forall i :: 0 <= i < |LastTouches(h, n)| ==> LastTouches(h, n)[i] < n
    ensures forall i, j :: 0 <= i < j < |LastTouches(h, n)| ==> LastTouches(h, n)[i] < LastTouches(h, n)[j]
  {
    hide LastTouch, Key;
    if n > 0 {
      LastTouchesAscend(h, n - 1);
    }
  }

  ghost predicate KeyAt(h: seq<ParsedData>, p: nat, key: string) {
    p < |h| && Key(h[p]) == key
  }

  /** The positions of u whose key is not key. */
  ghost function Without(h: seq<ParsedData>, u: seq<nat>, key: string): seq<nat> {
    if u == [] then []
    else if KeyAt(h, u[|u| - 1], key) then Without(h, u[..|u| - 1], key)
    else Without(h, u[..|u| - 1], key) + [u[|u| - 1]]
  }

  lemma WithoutSnoc(h: seq<ParsedData>, u: seq<nat>, p: nat, key: string)
    ensures Without(h, u + [p], key)
         == if KeyAt(h, p, key) then Without(h, u, key) else Without(h, u, key) + [p]
  {
    hide KeyAt;
    assert (u + [p])[..|u|] == u;
  }

  /** Removing a key that occurs once removes that place, and one that does not occur nothing. */
  lemma {:induction false} WithoutOne(h: seq<ParsedData>, u: seq<nat>, key: string, j: nat)
    requires j <= |u|
    requires forall i :: 0 <= i < |u| ==> (KeyAt(h, u[i], key) <==> i == j)
    ensures Without(h, u, key) == if j < |u| then Remove(u, j) else u
  {
    hide KeyAt;
    if u != [] {
      hide Without, Remove;
      var n := |u| - 1;
      var u0 := u[..n];
      WithoutOne(h, u0, key, Min(j, n));
      WithoutSnoc(h, u0, u[n], key);
      assert u0 + [u[n]] == u;
      assert KeyAt(h, u[n], key) <==> n == j;
      RemoveSnoc(u0, u[n], j);
    }
  }

  lemma RemoveSnoc(u: seq<nat>, p: nat, j: nat)
    ensures j < |u| ==> Remove(u + [p], j) == Remove(u, j) + [p]
    ensures j == |u| ==> Remove(u + [p], j) == u
  {
  }

  lemma {:induction false} LastTouchesStep(h: seq<ParsedData>, d: ParsedData, n: nat)
    requires n <= |h|
    ensures LastTouches(h + [d], n) == Without(h, LastTouches(h, n), Key(d))
  {
    hide *;
    if n == 0 {
      LastTouchesNone(h, Key(d));
      LastTouchesNone(h + [d], Key(d));
    } else {
      LastTouchesStep(h, d, n - 1);
      LastTouchesNext(h, n - 1);
      LastTouchesNext(h + [d], n - 1);
      LastTouchStep(h, d, n - 1);
      WithoutSnoc(h, LastTouches(h, n - 1), n - 1, Key(d));
    }
  }

  lemma LastTouchesNone(h: seq<ParsedData>, key: string)
    ensures LastTouches(h, 0) == [] && Without(h, [], key) == []
  {
  }

  lemma LastTouchesNext(h: seq<ParsedData>, p: nat)
    requires p < |h|
    ensures LastTouches(h, p + 1) == if LastTouch(h, p) then LastTouches(h, p) + [p] else LastTouches(h, p)
  {
    hide LastTouch;
  }

  lemma LastTouchStep(h: seq<ParsedData>, d: ParsedData, p: nat)
    requires p < |h|
    ensures LastTouch(h + [d], p) <==> LastTouch(h, p) && !KeyAt(h, p, Key(d))
  {
    hide Key;
    var h' := h + [d];
    assert h'[|h|] == d && h'[p] == h[p];
    assert forall q :: 0 <= q < |h| ==> h'[q] == h[q];
  }

  lemma RecencyStep(h: seq<ParsedData>, d: ParsedData)
    ensures Recency(h + [d]) == Without(h, Recency(h), Key(d)) + [|h|]
  {
    LastTouchesStep(h, d, |h|);
    assert LastTouch(h + [d], |h|);
  }

  // ---------------------------------------------------------------- the table is an LRU

  /** rows show, in order, the messages at positions u of the history. */
  ghost predicate Shows(rows: seq<IOEntry>, h: seq<ParsedData>, u: seq<nat>) {
    |rows| == |u| && forall i :: 0 <= i < |rows| ==> rows[i].order == u[i] && ShowsMessage(rows[i], h)
  }

  ghost predicate ShowsMessage(e: IOEntry, h: seq<ParsedData>) {
    e.order < |h| && e.key == Key(h[e.order]) && e.val == Cut(h[e.order].val, 255) && e.ts == h[e.order].ts
  }

  lemma ShowsLonger(rows: seq<IOEntry>, h: seq<ParsedData>, u: seq<nat>, d: ParsedData)
    requires Shows(rows, h, u)
    ensures Shows(rows, h + [d], u)
  {
    forall i | 0 <= i < |rows|
      ensures ShowsMessage(rows[i], h + [d])
    {
      assert ShowsMessage(rows[i], h) && (h + [d])[rows[i].order] == h[rows[i].order];
    }
  }

  /** After any history the rows are exactly the last 2048 entries of the unbounded recency
      order, each with the value and time of that last touch. */
  lemma {:induction false} ExactLru(h: seq<ParsedData>)
    ensures Shows(Replay(h), h, Last(Recency(h), 2048))
  {
    if h == [] {
      assert Recency(h) == [];
    } else {
      var n := |h| - 1;
      var h0, d := h[..n], h[n];
      hide Key, Touch, Shows, Recency, SuffixStep, Last;
      assert h == h0 + [d];
      ExactLru(h0);
      RecencyAfter(h0, d);
      TouchShows(Replay(h0), h0, d, Last(Recency(h0), CAPACITY));
    }
  }

  lemma RecencyAfter(h: seq<ParsedData>, d: ParsedData)
    requires Shows(Replay(h), h, Last(Recency(h), CAPACITY))
    ensures Last(Recency(h + [d]), CAPACITY)
         == SuffixStep(Last(Recency(h), CAPACITY), FindRow(Replay(h), Key(d)), |h|)
  {
    hide Key, Recency, Replay, Shows, FindRow, KeyAt, Last, SuffixStep, Without, Remove;
    var rows, u := Replay(h), Recency(h);
    var i := FindRow(rows, Key(d));
    RecencyStep(h, d);
    RecencyDistinct(h);
    var j := LocateKey(h, u, Key(d));
    WithoutOne(h, u, Key(d), j);
    RowMatchesPosition(rows, h, u, i, j, Key(d));
    ShowsLength(rows, h, Last(u, CAPACITY));
    StepSuffix(u, i, j, |h|);
  }

  lemma ShowsLength(rows: seq<IOEntry>, h: seq<ParsedData>, v: seq<nat>)
    requires Shows(rows, h, v)
    ensures |rows| == |v|
  {
  }

  lemma TouchShows(rows: seq<IOEntry>, h: seq<ParsedData>, d: ParsedData, v: seq<nat>)
    requires Shows(rows, h, v)
    ensures Shows(Touch(rows, d, |h|), h + [d], SuffixStep(v, FindRow(rows, Key(d)), |h|))
  {
    hide Key;
    ShowsLonger(rows, h, v, d);
    var h', i := h + [d], FindRow(rows, Key(d));
    assert h'[|h|] == d;
    if i < |rows| {
      AppendShows(Remove(rows, i), h', Remove(v, i), Refreshed(rows[i], d, |h|));
    } else if |rows| < CAPACITY {
      AppendShows(rows, h', v, NewRow(d, |h|));
    } else {
      AppendShows(rows[1..], h', v[1..], NewRow(d, |h|));
    }
  }

  lemma AppendShows(rows: seq<IOEntry>, h: seq<ParsedData>, v: seq<nat>, e: IOEntry)
    requires Shows(rows, h, v) && ShowsMessage(e, h)
    ensures Shows(rows + [e], h, v + [e.order])
  {
    hide ShowsMessage;
  }

  /** The recency positions after a touch at place i of the bounded list. */
  ghost function SuffixStep(v: seq<nat>, i: nat, n: nat): seq<nat> {
    if i < |v| then Remove(v, i) + [n]
    else if |v| < CAPACITY then v + [n]
    else v[1..] + [n]
  }

  lemma StepSuffix(u: seq<nat>, i: nat, j: nat, n: nat)
    requires j <= |u| && i <= |Last(u, CAPACITY)|
    requires i < |Last(u, CAPACITY)| ==> j == i + |u| - |Last(u, CAPACITY)|
    requires i == |Last(u, CAPACITY)| ==> j < |u| - |Last(u, CAPACITY)| || j == |u|
    ensures Last((if j < |u| then Remove(u, j) else u) + [n], CAPACITY)
         == SuffixStep(Last(u, CAPACITY), i, n)
  {
  }

  lemma RecencyDistinct(h: seq<ParsedData>)
    ensures Positions(h, Recency(h))
    ensures forall i, j :: 0 <= i < j < |Recency(h)| ==> Key(h[Recency(h)[i]]) != Key(h[Recency(h)[j]])
  {
    LastTouchesMembers(h, |h|);
    LastTouchesAscend(h, |h|);
    var u := Recency(h);
    hide Key, Recency;
    forall i | 0 <= i < |u|
      ensures LastTouch(h, u[i])
    {
      assert u[i] in u;
    }
  }

  lemma LocateKey(h: seq<ParsedData>, u: seq<nat>, key: string) returns (j: nat)
    requires Positions(h, u)
    requires forall i, j :: 0 <= i < j < |u| ==> Key(h[u[i]]) != Key(h[u[j]])
    ensures j <= |u|
    ensures forall i :: 0 <= i < |u| ==> (KeyAt(h, u[i], key) <==> i == j)
  {
    if i :| 0 <= i < |u| && KeyAt(h, u[i], key) {
      j := i;
    } else {
      j := |u|;
    }
  }

  lemma RowMatchesPosition(rows: seq<IOEntry>, h: seq<ParsedData>, u: seq<nat>, i: nat, j: nat, key: string)
    requires Positions(h, u) && Shows(rows, h, Last(u, CAPACITY)) && i == FindRow(rows, key) && j <= |u|
    requires forall k :: 0 <= k < |u| ==> (KeyAt(h, u[k], key) <==> k == j)
    ensures i < |rows| ==> j == i + |u| - |rows|
    ensures i == |rows| ==> j < |u| - |rows| || j == |u|
  {
    hide Key;
    var off := |u| - |rows|;
    forall k | 0 <= k < |rows|
      ensures rows[k].key == key <==> k + off == j
    {
      assert ShowsMessage(rows[k], h) && rows[k].order == u[k + off];
      assert KeyAt(h, u[k + off], key) <==> k + off == j;
    }
    assert off <= j < |u| ==> rows[j - off].key == key;
  }

  ghost function KeySet(h: seq<ParsedData>): set<string> {
    set i | 0 <= i < |h| :: Key(h[i])
  }

  lemma {:induction false} RecencyCountsKeys(h: seq<ParsedData>)
    ensures |Recency(h)| == |KeySet(h)|
  {
    if h == [] {
      assert KeySet(h) == {};
    } else {
      hide Recency, KeySet, Key;
      var h0, d := h[..|h| - 1], h[|h| - 1];
      assert h == h0 + [d];
      RecencyCountsKeys(h0);
      KeySetStep(h0, d);
      RecencyGrows(h0, d);
    }
  }

  lemma RecencyGrows(h: seq<ParsedData>, d: ParsedData)
    ensures |Recency(h + [d])| == |Recency(h)| + if Key(d) in KeySet(h) then 0 else 1
  {
    RecencyStep(h, d);
    RecencyDistinct(h);
    EveryKeyHasLastTouch(h, Key(d));
    hide Key, Recency, KeySet, Without;
    var u := Recency(h);
    var j := LocateKey(h, u, Key(d));
    WithoutOne(h, u, Key(d), j);
    if j < |u| {
      assert KeyAt(h, u[j], Key(d));
    }
  }

  lemma KeySetStep(h: seq<ParsedData>, d: ParsedData)
    ensures KeySet(h + [d]) == KeySet(h) + {Key(d)}
  {
    var h' := h + [d];
    forall k | k in KeySet(h) + {Key(d)}
      ensures k in KeySet(h')
    {
      if k == Key(d) {
        assert h'[|h|] == d;
      } else {
        var i :| 0 <= i < |h| && Key(h[i]) == k;
        assert h'[i] == h[i];
      }
    }
  }

  lemma EveryKeyHasLastTouch(h: seq<ParsedData>, key: string)
    ensures key in KeySet(h) <==> exists i :: 0 <= i < |Recency(h)| && KeyAt(h, Recency(h)[i], key)
  {
    LastTouchesMembers(h, |h|);
    var u := Recency(h);
    if key in KeySet(h) {
      var p: nat :| p < |h| && Key(h[p]) == key;
      p := FinalTouch(h, p);
      assert p in u;
      var i :| 0 <= i < |u| && u[i] == p;
      assert KeyAt(h, u[i], key);
    }
  }

  lemma FinalTouch(h: seq<ParsedData>, p: nat) returns (r: nat)
    requires p < |h|
    ensures r < |h| && Key(h[r]) == Key(h[p]) && LastTouch(h, r)
    decreases |h| - p
  {
    if LastTouch(h, p) {
      r := p;
    } else {
      var q :| p < q < |h| && Key(h[q]) == Key(h[p]);
      r := FinalTouch(h, q);
    }
  }

  /** The table holds a row for each distinct key, up to 2048. */
  lemma {:induction false} RowCount(h: seq<ParsedData>)
    ensures |Replay(h)| == if |KeySet(h)| < 2048 then |KeySet(h)| else 2048
  {
    ExactLru(h);
    RecencyCountsKeys(h);
  }

  lemma {:induction false} ReplayKeeps(h: seq<ParsedData>)
    ensures Stamped(Replay(h), |h|) && DistinctKeys(Replay(h)) && |Replay(h)| <= CAPACITY
  {
    if h != [] {
      ReplayKeeps(h[..|h| - 1]);
      TouchKeeps(Replay(h[..|h| - 1]), h[|h| - 1], |h| - 1);
    }
  }

  // ---------------------------------------------------------------- identity columns

  /** The section, field, address and index shown come from some message with the row's key. */
  ghost predicate NamedBy(e: IOEntry, d: ParsedData) {
    e.key == Key(d) && e.sec == d.sec && e.fld == d.fld && e.addr == d.addr &&
    e.idx == if d.hasIdx then d.idx else -1
  }

  lemma {:induction false} RowsAreNamed(h: seq<ParsedData>, e: IOEntry)
    requires e in Replay(h)
    ensures exists p :: 0 <= p < |h| && NamedBy(e, h[p])
  {
    hide Key, Cut;
    var n := |h| - 1;
    var h0, d := h[..n], h[n];
    var rows := Replay(h0);
    var i := FindRow(rows, Key(d));
    if e == NewRow(d, n) {
      assert NamedBy(e, h[n]);
    } else {
      var e0 := if i < |rows| && e == Refreshed(rows[i], d, n) then rows[i] else e;
      assert e0 in rows;
      RowsAreNamed(h0, e0);
      var p :| 0 <= p < |h0| && NamedBy(e0, h0[p]);
      assert NamedBy(e, h[p]);
    }
  }

  ghost predicate AllColonFree(h: seq<ParsedData>) {
    forall i :: 0 <= i < |h| ==> ColonFree(h[i].sec) && ColonFree(h[i].fld)
  }

  /** When sections and fields carry no colon, each row shows the section and field of its last
      touch. */
  lemma {:induction false} RowsShowTheirField(h: seq<ParsedData>, e: IOEntry)
    requires AllColonFree(h) && e in Replay(h)
    ensures e.order < |h| && e.sec == h[e.order].sec && e.fld == h[e.order].fld
  {
    RowsAreNamed(h, e);
    var p :| 0 <= p < |h| && NamedBy(e, h[p]);
    ExactLru(h);
    var i :| 0 <= i < |Replay(h)| && Replay(h)[i] == e;
    assert ShowsMessage(Replay(h)[i], h);
    KeyNamesField(h[p], h[e.order]);
  }

  /** Messages with the same suffix agree on address and index if and only if both or neither
      have an address and, having one, they agree on the index. */
  lemma SameSuffixIff(d: ParsedData, e: ParsedData)
    requires Suffix(d) == Suffix(e)
    ensures (d.addr == e.addr && d.idx == e.idx)
       <==> d.hasAddr == e.hasAddr && (d.hasAddr ==> d.idx == e.idx)
  {
    SuffixParts(d);
    SuffixParts(e);
    var i, j: int := d.idx, e.idx;
    DecimalReadsBack(i);
    DecimalReadsBack(j);
    hide Suffix, Decimal;
    if !d.hasAddr && d.hasIdx && e.hasIdx && Decimal(i) == Decimal(j) {
      DecimalInjective(i, j);
    }
  }

  /** What a suffix shows of a message. */
  lemma SuffixParts(d: ParsedData)
    ensures if d.hasAddr then Suffix(d) != "" && Suffix(d)[1..] == d.addr
            else if d.hasIdx then Suffix(d) != "" && Suffix(d)[1..] == Decimal(d.idx)
            else Suffix(d) == ""
  {
    hide Decimal;
  }

  /** The columns of the display agree with message d. */
  predicate ColumnsOf(e: IOEntry, d: ParsedData) {
    e.sec == d.sec && e.fld == d.fld && e.addr == d.addr && e.idx == d.idx
  }

  /** A row keeps the columns of the message p that opened it. They are those of its last touch
      if and only if the two messages have sections and fields of the same lengths, both or
      neither an address and, with an address, the same index. The section and field alone are
      right whenever no message has a colon in them. */
  lemma RowColumnsIff(h: seq<ParsedData>, e: IOEntry, p: nat)
    requires e in Replay(h) && p < |h| && NamedBy(e, h[p])
    ensures e.order < |h|
    ensures var o, d := h[p], h[e.order];
      ColumnsOf(e, d) <==>
        |o.sec| == |d.sec| && |o.fld| == |d.fld| &&
        o.hasAddr == d.hasAddr && (d.hasAddr ==> o.idx == d.idx)
    ensures AllColonFree(h) ==> e.sec == h[e.order].sec && e.fld == h[e.order].fld
  {
    if AllColonFree(h) {
      RowsShowTheirField(h, e);
    }
    ExactLru(h);
    var i :| 0 <= i < |Replay(h)| && Replay(h)[i] == e;
    assert ShowsMessage(Replay(h)[i], h);
    var o, d := h[p], h[e.order];
    SharedKeyIff(o, d);
    hide Replay, Recency, Last, Key, Suffix, Shows;
    if |o.sec| == |d.sec| && |o.fld| == |d.fld| {
      SameSuffixIff(o, d);
    }
  }

  /** A message with an address, and one whose index reads the same. */
  const WITH_ADDR: ParsedData := Fields("", "io", "s", "f", "0", "5", -1, -1, true, false)
  const WITH_INDEX: ParsedData := Fields("", "io", "s", "f", "1", "", 5, -1, false, true)

  lemma SameKey()
    ensures Key(WITH_ADDR) == Key(WITH_INDEX)
  {
    assert Decimal(5) == "5";
  }

  /** A failing input: a message with address "5" and then one with index 5 share a key, and the
      row keeps showing the address although its value is that of the index message. */
  lemma StaleColumns()
    ensures var h: seq<ParsedData> := [WITH_ADDR, WITH_INDEX];
      AllColonFree(h) && |Replay(h)| == 1 &&
      var e := Replay(h)[0];
      e.order == 1 && e.val == "1" && e.addr == "5" && e.idx == -1 && !ColumnsOf(e, h[1])
  {
    SameKey();
    TouchTwice(WITH_ADDR, WITH_INDEX);
    hide Key, Replay;
  }

  lemma TouchTwice(d: ParsedData, e: ParsedData)
    requires Key(d) == Key(e)
    ensures Replay([d, e]) == [Refreshed(NewRow(d, 0), e, 1)]
  {
    hide Key;
    assert [d, e][..1] == [d] && [d][..0] == [];
    assert Replay([d]) == [NewRow(d, 0)] by { assert Replay([]) == []; }
    assert FindRow([NewRow(d, 0)], Key(e)) == 0;
  }
}
