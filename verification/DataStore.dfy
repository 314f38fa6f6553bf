/** The data store as a whole: routing of messages to the tabs and the message counters
    (data_store.c, datastore_process). Tabs that only copy fields are not part of this model. */
module DataStore {
  import opened Basics
  import opened Messages
  import opened HexText
  import opened MemoryLines
  import opened IoTable
  import opened CpuTable
  import opened MemoryStore
  import Allocation
  import IoHistory
  import CpuHistory
  import MemoryHistory

  /** Everything the modelled tabs show, and the counters. */
  datatype StoreView = StoreView(
    io: seq<IoHistory.IOEntry>, ioNext: nat, cpu: CpuHistory.CpuView, mem: MemoryHistory.MemView,
    total: Word64, errors: Word64, ioCount: Word64, cpuCount: Word64, memCount: Word64, textCount: Word64)

  /** A store with empty tabs, whose address range is as in mem. */
  function Empty(mem: MemoryHistory.MemView): StoreView {
    StoreView([], 0, CpuHistory.EMPTY, mem, 0, 0, 0, 0, 0, 0)
  }

  const INITIAL := Empty(MemoryHistory.INITIAL)
  const CLEARED := Empty(MemoryHistory.CLEARED)

  predicate ForMemoryTab(d: ParsedData) {
    d.cat == "mem" && d.sec != "zp" && d.sec != "stackpage" && d.sec != "flag" && d.sec != "text"
  }

  /** datastore_process, with every allocation succeeding. */
  function ProcessView(v: StoreView, d: ParsedData): StoreView {
    var v := v.(total := Inc(v.total));
    if d.cat == "cpu" then
      v.(cpu := CpuHistory.Step(v.cpu, d), cpuCount := Inc(v.cpuCount))
    else if d.cat == "io" then
      v.(io := IoHistory.Touch(v.io, d, v.ioNext), ioNext := v.ioNext + 1, ioCount := Inc(v.ioCount))
    else if ForMemoryTab(d) then
      v.(mem := StepOpt(v.mem, Stored(d)), memCount := Inc(v.memCount))
    else if d.cat == "mem" && d.sec == "text" then
      v.(textCount := Inc(v.textCount))
    else if d.cat == "mem" then
      v.(memCount := Inc(v.memCount))
    else v
  }

  /** A message's effect, field by field. */
  lemma ProcessFields(v: StoreView, d: ParsedData, v': StoreView)
    requires v'.io == if d.cat == "io" then IoHistory.Touch(v.io, d, v.ioNext) else v.io
    requires v'.ioNext == if d.cat == "io" then v.ioNext + 1 else v.ioNext
    requires v'.cpu == if d.cat == "cpu" then CpuHistory.Step(v.cpu, d) else v.cpu
    requires v'.mem == if ForMemoryTab(d) then StepOpt(v.mem, Stored(d)) else v.mem
    requires v'.total == Inc(v.total) && v'.errors == v.errors
    requires v'.ioCount == if d.cat == "io" then Inc(v.ioCount) else v.ioCount
    requires v'.cpuCount == if d.cat == "cpu" then Inc(v.cpuCount) else v.cpuCount
    requires v'.memCount == if d.cat == "mem" && d.sec != "text" then Inc(v.memCount) else v.memCount
    requires v'.textCount == if d.cat == "mem" && d.sec == "text" then Inc(v.textCount) else v.textCount
    ensures v' == ProcessView(v, d)
  {
    hide IoHistory.Touch, CpuHistory.Step, StepOpt, Stored, Inc;
  }

  /** The body of the drain loop for one line. */
  function HandleLine(parse: Parser, v: StoreView, line: string): StoreView {
    match Accept(parse, line)
    case None => v.(errors := Inc(v.errors))
    case Some(d) => ProcessView(v, d)
  }

  function Fold(parse: Parser, v: StoreView, lines: seq<string>): StoreView {
    if lines == [] then v
    else HandleLine(parse, Fold(parse, v, lines[..|lines| - 1]), lines[|lines| - 1])
  }

  lemma FoldSnoc(parse: Parser, v: StoreView, lines: seq<string>, line: string)
    ensures Fold(parse, v, lines + [line]) == HandleLine(parse, Fold(parse, v, lines), line)
  {
    assert (lines + [line])[..|lines|] == lines;
  }

  lemma {:induction false} FoldAppend(parse: Parser, v: StoreView, a: seq<string>, b: seq<string>)
    ensures Fold(parse, v, a + b) == Fold(parse, Fold(parse, v, a), b)
  {
    hide HandleLine;
    if b == [] {
      assert a + b == a;
    } else {
      var b0, l := b[..|b| - 1], b[|b| - 1];
      assert b == b0 + [l] && a + b == (a + b0) + [l];
      FoldAppend(parse, v, a, b0);
      hide Fold;
      FoldSnoc(parse, v, a + b0, l);
      FoldSnoc(parse, Fold(parse, v, a), b0, l);
    }
  }

  /** Stamps are only ever used up. */
  lemma {:induction false} FoldKeepsOrder(parse: Parser, v: StoreView, lines: seq<string>)
    ensures v.ioNext <= Fold(parse, v, lines).ioNext
  {
    hide HandleLine;
    if lines != [] {
      var n := |lines| - 1;
      FoldKeepsOrder(parse, v, lines[..n]);
      LineKeepsOrder(parse, Fold(parse, v, lines[..n]), lines[n]);
    }
  }

  lemma LineKeepsOrder(parse: Parser, v: StoreView, line: string)
    ensures v.ioNext <= HandleLine(parse, v, line).ioNext <= v.ioNext + 1
  {
    hide IoHistory.Touch, CpuHistory.Step, StepOpt, Stored, Inc, Accept;
  }

  // ---------------------------------------------------------------- one line

  /** A line of text is one message if the parser makes one of it, and otherwise one error. */
  lemma {:induction false} LineIsParsed(parse: Parser, v: StoreView, line: string)
    requires line != "" && '\0' !in line
    ensures HandleLine(parse, v, line)
         == match parse(line)
            case None => v.(errors := (v.errors + 1) % 0x1_0000_0000_0000_0000)
            case Some(d) => ProcessView(v, d)
  {
    IndexOfUnique(line, '\0', |line|);
    assert line[..|line|] == line;
    hide ProcessView, IndexOf;
  }

  /** An empty line is an error without asking the parser. */
  lemma EmptyLineIsError(parse: Parser, v: StoreView)
    ensures HandleLine(parse, v, "") == v.(errors := (v.errors + 1) % 0x1_0000_0000_0000_0000)
  {
  }

  /** A NUL ends the line for the parser. */
  lemma {:induction false} NulEndsLine(parse: Parser, v: StoreView, line: string, rest: string)
    requires '\0' !in line
    ensures HandleLine(parse, v, line + "\0" + rest) == HandleLine(parse, v, line)
  {
    var whole := line + "\0" + rest;
    assert whole[|line|] == '\0' && forall i :: 0 <= i < |line| ==> whole[i] == line[i];
    IndexOfUnique(whole, '\0', |line|);
    IndexOfUnique(line, '\0', |line|);
    assert whole[..|line|] == line == line[..|line|];
    hide ProcessView, IndexOf;
  }

  /** The parser's results for the lines, in order. */
  function Results(parse: Parser, lines: seq<string>): seq<ParsedData> {
    if lines == [] then []
    else
      match parse(lines[0])
      case None => Results(parse, lines[1..])
      case Some(d) => [d] + Results(parse, lines[1..])
  }

  lemma {:induction false} ResultsSnoc(parse: Parser, lines: seq<string>, line: string)
    ensures Results(parse, lines + [line])
         == Results(parse, lines) + match parse(line) { case None => [] case Some(d) => [d] }
  {
    if lines == [] {
      assert [] + [line] == [line] && [line][1..] == [];
    } else {
      ResultsSnoc(parse, lines[1..], line);
      assert (lines + [line])[1..] == lines[1..] + [line];
    }
  }

  /** The messages among lines of text are exactly the parser's results, in order. */
  lemma {:induction false} MessagesAreResults(parse: Parser, lines: seq<string>)
    requires forall i :: 0 <= i < |lines| ==> lines[i] != "" && '\0' !in lines[i]
    ensures Parsed(parse, lines) == Results(parse, lines)
  {
    if lines != [] {
      var n := |lines| - 1;
      var line := lines[n];
      assert lines == lines[..n] + [line];
      MessagesAreResults(parse, lines[..n]);
      ResultsSnoc(parse, lines[..n], line);
      IndexOfUnique(line, '\0', |line|);
      assert line[..|line|] == line;
      hide IndexOf, Results;
    }
  }

  /** A dump whose address prints as a and whose payload is the digit pairs of bs, up to the first
      place without one, puts the i-th of them at a + i, wrapping, and touches no other address. */
  lemma {:induction false} DumpIs(v: StoreView, d: ParsedData, a: Word32, bs: seq<Byte>, rest: string, x: Word32)
    requires d.cat == "mem" && d.sec == "dump" && d.hasAddr && d.addr == PadTo(UpperHex(a), 4)
    requires d.val == RenderCompact(bs) + rest && NoPair(rest)
    ensures var m, m', o := v.mem.bytes, ProcessView(v, d).mem.bytes, (x - a) % 0x1_0000_0000;
      if o < |bs| then x in m' && m'[x] == bs[o] else (x in m' <==> x in m) && (x in m ==> m'[x] == m[x])
  {
    AddressRoundTrip(a, "");
    assert d.addr + "" == d.addr;
    CompactLength(bs);
    CompactThen(bs, rest, 256);
    DumpStores(v, d);
    hide *;
    if bs != [] {
      MemoryHistory.WriteBytesAt(v.mem.bytes, a, bs, x);
      WrapIs(x - a);
    }
  }

  lemma WrapIs(n: int)
    ensures Wrap(n) == n % 0x1_0000_0000
  {
  }

  lemma DumpStores(v: StoreView, d: ParsedData)
    requires d.cat == "mem" && d.sec == "dump" && d.hasAddr
    ensures ProcessView(v, d).mem.bytes
         == if HexBytes(d.val, 256) == [] then v.mem.bytes
            else MemoryHistory.WriteBytes(v.mem.bytes, ParseHex(d.addr), HexBytes(d.val, 256))
  {
    hide HexBytes, ParseHex, MemoryHistory.WriteBytes;
  }

  lemma ByteStores(v: StoreView, d: ParsedData)
    requires d.cat == "mem" && (d.sec == "read" || d.sec == "write") && d.fld == "byte" && d.hasAddr
    ensures ProcessView(v, d).mem.bytes
         == MemoryHistory.WriteBytes(v.mem.bytes, ParseHex(d.addr), [ParseHex(d.val) % 256])
  {
    hide HexBytes, ParseHex, MemoryHistory.WriteBytes;
  }

  /** A byte message whose address prints as a puts the low 8 bits of the number its value prints
      at a, and touches no other address. */
  lemma {:induction false} ByteIs(v: StoreView, d: ParsedData, a: Word32, n: nat)
    requires d.cat == "mem" && (d.sec == "read" || d.sec == "write") && d.fld == "byte"
    requires d.hasAddr && d.addr == PadTo(UpperHex(a), 4)
    requires n < 0x1_0000_0000_0000_0000 && (d.val == UpperHex(n) || (n < 256 && d.val == Render2(n)))
    ensures ProcessView(v, d).mem.bytes == v.mem.bytes[a := n % 256]
  {
    AddressRoundTrip(a, "");
    assert d.addr + "" == d.addr;
    ByteStores(v, d);
    ValueOf(d.val, n);
    OneByte(v.mem.bytes, a, n % 256);
    hide *;
  }

  lemma ValueOf(text: string, n: nat)
    requires n < 0x1_0000_0000_0000_0000 && (text == UpperHex(n) || (n < 256 && text == Render2(n)))
    ensures ParseHex(text) % 256 == n % 256
  {
    hide *;
    if text == UpperHex(n) {
      NumberIs(n);
      LowByte(n);
    } else {
      TwoDigits(n);
    }
  }

  lemma LowByte(n: nat)
    ensures (n % 0x1_0000_0000) % 256 == n % 256
  {
  }

  lemma TwoDigits(b: Byte)
    ensures ParseHex(Render2(b)) == b
  {
    var s := Render2(b);
    assert s[..1] == [HexDigit(b / 16)] && s[..1][..0] == "";
    assert HexValue(s[..1]) == b / 16;
    ParseDigits(s, "");
    assert s + "" == s;
  }

  lemma OneByte(m: Bytes, a: Word32, b: Byte)
    ensures MemoryHistory.WriteBytes(m, a, [b]) == m[a := b]
  {
    assert [b][..0] == [];
  }

  /** A message without an address, or of another kind, stores nothing. */
  lemma OthersStoreNothing(v: StoreView, d: ParsedData)
    requires d.cat != "mem" || !d.hasAddr ||
      (d.sec != "dump" && (d.fld != "byte" || (d.sec != "read" && d.sec != "write")))
    ensures ProcessView(v, d).mem == v.mem
  {
    hide HexBytes, ParseHex;
  }

  // ---------------------------------------------------------------- when memory runs out

  /** datastore_process; alloc answers the requests for memory it may make. */
  ghost function ProcessUnder(v: StoreView, d: ParsedData, alloc: nat -> bool): StoreView {
    ProcessView(v, d).(mem := if ForMemoryTab(d) then TakeUnder(v.mem, Stored(d), alloc) else v.mem)
  }

  ghost function HandleUnder(parse: Parser, v: StoreView, line: string, alloc: nat -> bool): StoreView {
    match Accept(parse, line)
    case None => HandleLine(parse, v, line)
    case Some(d) => ProcessUnder(v, d, alloc)
  }

  /** The lines in turn, each with the allocator's answers to it. */
  ghost function FoldUnder(parse: Parser, v: StoreView, lines: seq<string>, allocs: seq<nat -> bool>): StoreView
    requires |allocs| == |lines|
  {
    if lines == [] then v
    else
      var n := |lines| - 1;
      HandleUnder(parse, FoldUnder(parse, v, lines[..n], allocs[..n]), lines[n], allocs[n])
  }

  lemma FoldUnderSnoc(parse: Parser, v: StoreView, lines: seq<string>, allocs: seq<nat -> bool>,
                      line: string, alloc: nat -> bool)
    requires |allocs| == |lines|
    ensures FoldUnder(parse, v, lines + [line], allocs + [alloc])
         == HandleUnder(parse, FoldUnder(parse, v, lines, allocs), line, alloc)
  {
    assert (lines + [line])[..|lines|] == lines && (allocs + [alloc])[..|lines|] == allocs;
  }

  lemma {:induction false} FoldUnderAppend(parse: Parser, v: StoreView, a: seq<string>, as': seq<nat -> bool>,
                                           b: seq<string>, bs: seq<nat -> bool>)
    requires |as'| == |a| && |bs| == |b|
    ensures FoldUnder(parse, v, a + b, as' + bs) == FoldUnder(parse, FoldUnder(parse, v, a, as'), b, bs)
  {
    hide *;
    if b == [] {
      assert a + b == a && as' + bs == as';
      FoldUnderNothing(parse, FoldUnder(parse, v, a, as'));
    } else {
      var n := |b| - 1;
      FoldUnderAppend(parse, v, a, as', b[..n], bs[..n]);
      assert a + b == (a + b[..n]) + [b[n]] && as' + bs == (as' + bs[..n]) + [bs[n]];
      FoldUnderSnoc(parse, v, a + b[..n], as' + bs[..n], b[n], bs[n]);
      FoldUnderSnoc(parse, FoldUnder(parse, v, a, as'), b[..n], bs[..n], b[n], bs[n]);
      assert b == b[..n] + [b[n]] && bs == bs[..n] + [bs[n]];
    }
  }

  lemma FoldUnderNothing(parse: Parser, v: StoreView)
    ensures FoldUnder(parse, v, [], []) == v
  {
  }

  /** All of a view but the bytes of the memory tab. */
  function Elsewhere(v: StoreView): StoreView {
    v.(mem := v.mem.(bytes := map[]))
  }

  lemma HandledElsewhere(parse: Parser, v: StoreView, v': StoreView, line: string, alloc: nat -> bool)
    requires Elsewhere(v) == Elsewhere(v')
    ensures Elsewhere(HandleUnder(parse, v, line, alloc)) == Elsewhere(HandleLine(parse, v', line))
  {
    hide IoHistory.Touch, CpuHistory.Step, Stored, Inc, Accept, Allocation.WriteUnder, MemoryHistory.WriteBytes;
    assert v' == v.(mem := v'.mem);
  }

  /** Running out of memory shows in the bytes of the memory tab and nowhere else: not in its
      range, nor in another tab, nor in a counter. */
  lemma {:induction false} FailureStaysInMemory(parse: Parser, v: StoreView, lines: seq<string>,
                                                allocs: seq<nat -> bool>)
    requires |allocs| == |lines|
    ensures Elsewhere(FoldUnder(parse, v, lines, allocs)) == Elsewhere(Fold(parse, v, lines))
  {
    hide HandleLine, HandleUnder, Elsewhere;
    if lines != [] {
      var n := |lines| - 1;
      FailureStaysInMemory(parse, v, lines[..n], allocs[..n]);
      HandledElsewhere(parse, FoldUnder(parse, v, lines[..n], allocs[..n]), Fold(parse, v, lines[..n]),
                       lines[n], allocs[n]);
    }
  }

  ghost predicate AllSucceed(allocs: seq<nat -> bool>) {
    forall i :: 0 <= i < |allocs| ==> Allocation.Succeeds(allocs[i])
  }

  /** With memory to be had the store is as Fold says. */
  lemma {:induction false} FoldSucceeds(parse: Parser, v: StoreView, lines: seq<string>, allocs: seq<nat -> bool>)
    requires |allocs| == |lines| && AllSucceed(allocs)
    ensures FoldUnder(parse, v, lines, allocs) == Fold(parse, v, lines)
  {
    hide HandleLine, HandleUnder;
    if lines != [] {
      var n := |lines| - 1;
      FoldSucceeds(parse, v, lines[..n], allocs[..n]);
      HandleSucceeds(parse, Fold(parse, v, lines[..n]), lines[n], allocs[n]);
    }
  }

  lemma HandleSucceeds(parse: Parser, v: StoreView, line: string, alloc: nat -> bool)
    requires Allocation.Succeeds(alloc)
    ensures HandleUnder(parse, v, line, alloc) == HandleLine(parse, v, line)
  {
    hide IoHistory.Touch, CpuHistory.Step, Inc, StepOpt, TakeUnder, Stored;
    if Accept(parse, line).Some? {
      TakeSucceeds(v.mem, Stored(Accept(parse, line).value), alloc);
    }
    hide Accept;
  }

  /** What a line stores, if anything. */
  function LineWrite(parse: Parser, line: string): (w: Option<MemoryHistory.Write>)
    ensures w.Some? ==> MemoryHistory.Proper(w.value)
  {
    match Accept(parse, line)
    case None => None
    case Some(d) => if ForMemoryTab(d) then Stored(d) else None
  }

  lemma WritesLast(parse: Parser, lines: seq<string>)
    requires lines != []
    ensures var n := |lines| - 1;
      var ws := Writes(Parsed(parse, lines[..n]));
      Writes(Parsed(parse, lines)) == match LineWrite(parse, lines[n]) case None => ws case Some(w) => ws + [w]
  {
    hide *;
    SplitLast(lines);
    WritesOfLine(parse, lines[..|lines| - 1], lines[|lines| - 1]);
  }

  lemma SplitLast(lines: seq<string>)
    requires lines != []
    ensures lines[..|lines| - 1] + [lines[|lines| - 1]] == lines
  {
  }

  lemma {:induction false} WritesOfLine(parse: Parser, lines: seq<string>, line: string)
    ensures var ws := Writes(Parsed(parse, lines));
      Writes(Parsed(parse, lines + [line])) == match LineWrite(parse, line) case None => ws case Some(w) => ws + [w]
  {
    hide *;
    ParsedSnoc(parse, lines, line);
    LineWriteIs(parse, line);
    if Accept(parse, line).Some? {
      WritesSnoc(Parsed(parse, lines), Accept(parse, line).value);
    }
  }

  lemma LineWriteIs(parse: Parser, line: string)
    ensures LineWrite(parse, line)
         == match Accept(parse, line) case None => None case Some(d) => if ForMemoryTab(d) then Stored(d) else None
  {
    hide Stored, Accept, ForMemoryTab;
  }

  lemma WritesSnoc(ds: seq<ParsedData>, d: ParsedData)
    ensures Writes(ds + [d])
         == if ForMemoryTab(d) && Stored(d).Some? then Writes(ds) + [Stored(d).value] else Writes(ds)
  {
    hide Stored;
    assert (ds + [d])[..|ds|] == ds;
  }

  /** The allocator's answers to the lines that store bytes. */
  function WriteAllocs(parse: Parser, lines: seq<string>, allocs: seq<nat -> bool>): (was: seq<nat -> bool>)
    requires |allocs| == |lines|
    ensures |was| == |Writes(Parsed(parse, lines))|
  {
    if lines == [] then []
    else
      var n := |lines| - 1;
      WritesLast(parse, lines);
      var was := WriteAllocs(parse, lines[..n], allocs[..n]);
      if LineWrite(parse, lines[n]).Some? then was + [allocs[n]] else was
  }

  /** The memory tab of any lines under any allocator is the replay of its writes under the
      answers to them. */
  lemma {:induction false} MemoryUnder(parse: Parser, v: StoreView, lines: seq<string>, allocs: seq<nat -> bool>)
    requires |allocs| == |lines|
    ensures FoldUnder(parse, v, lines, allocs).mem
         == Allocation.ReplayUnder(v.mem, Writes(Parsed(parse, lines)), WriteAllocs(parse, lines, allocs))
  {
    if lines != [] {
      var n := |lines| - 1;
      WriteAllocsNext(parse, lines, allocs);
      FoldUnderLast(parse, v, lines, allocs);
      hide *;
      MemoryUnder(parse, v, lines[..n], allocs[..n]);
      MemoryOfLine(parse, FoldUnder(parse, v, lines[..n], allocs[..n]), lines[n], allocs[n]);
      if LineWrite(parse, lines[n]).Some? {
        Allocation.ReplayUnderSnoc(v.mem, Writes(Parsed(parse, lines[..n])),
                                   WriteAllocs(parse, lines[..n], allocs[..n]),
                                   LineWrite(parse, lines[n]).value, allocs[n]);
      }
    } else {
      MemoryUnderNothing(parse, v);
    }
  }

  lemma MemoryUnderNothing(parse: Parser, v: StoreView)
    ensures FoldUnder(parse, v, [], []).mem
         == Allocation.ReplayUnder(v.mem, Writes(Parsed(parse, [])), WriteAllocs(parse, [], []))
  {
  }

  lemma FoldUnderLast(parse: Parser, v: StoreView, lines: seq<string>, allocs: seq<nat -> bool>)
    requires |allocs| == |lines| > 0
    ensures var n := |lines| - 1;
      FoldUnder(parse, v, lines, allocs)
        == HandleUnder(parse, FoldUnder(parse, v, lines[..n], allocs[..n]), lines[n], allocs[n])
  {
    hide HandleUnder;
  }

  lemma MemoryOfLine(parse: Parser, v: StoreView, line: string, alloc: nat -> bool)
    ensures HandleUnder(parse, v, line, alloc).mem
         == match LineWrite(parse, line)
            case None => v.mem
            case Some(w) => Allocation.StepUnder(v.mem, w, alloc)
  {
    hide IoHistory.Touch, CpuHistory.Step, Inc, Accept, Stored, Allocation.StepUnder;
  }

  lemma WriteAllocsNext(parse: Parser, lines: seq<string>, allocs: seq<nat -> bool>)
    requires |allocs| == |lines| > 0
    ensures var n := |lines| - 1;
      var was, ws := WriteAllocs(parse, lines[..n], allocs[..n]), Writes(Parsed(parse, lines[..n]));
      match LineWrite(parse, lines[n])
      case None => Writes(Parsed(parse, lines)) == ws && WriteAllocs(parse, lines, allocs) == was
      case Some(w) =>
        Writes(Parsed(parse, lines)) == ws + [w] && WriteAllocs(parse, lines, allocs) == was + [allocs[n]]
  {
    WriteAllocsLast(parse, lines, allocs);
    hide *;
    WritesLast(parse, lines);
  }

  lemma WriteAllocsLast(parse: Parser, lines: seq<string>, allocs: seq<nat -> bool>)
    requires |allocs| == |lines| > 0
    ensures var n := |lines| - 1;
      var was := WriteAllocs(parse, lines[..n], allocs[..n]);
      WriteAllocs(parse, lines, allocs) == if LineWrite(parse, lines[n]).Some? then was + [allocs[n]] else was
  {
    hide LineWrite, Writes, Parsed;
  }

  // ---------------------------------------------------------------- tabs are independent

  /** The messages among the lines, in order. */
  function Parsed(parse: Parser, lines: seq<string>): (ds: seq<ParsedData>)
    ensures |ds| <= |lines|
  {
    if lines == [] then []
    else
      var ds := Parsed(parse, lines[..|lines| - 1]);
      match Accept(parse, lines[|lines| - 1])
      case None => ds
      case Some(d) => ds + [d]
  }

  function OfCategory(ds: seq<ParsedData>, cat: string): seq<ParsedData> {
    if ds == [] then []
    else
      var rest := OfCategory(ds[..|ds| - 1], cat);
      if ds[|ds| - 1].cat == cat then rest + [ds[|ds| - 1]] else rest
  }

  /** The bytes the messages store in the memory tab. */
  function Writes(ds: seq<ParsedData>): (ws: seq<MemoryHistory.Write>)
    ensures MemoryHistory.AllProper(ws)
  {
    if ds == [] then []
    else
      var ws := Writes(ds[..|ds| - 1]);
      var d := ds[|ds| - 1];
      if ForMemoryTab(d) && Stored(d).Some? then ws + [Stored(d).value] else ws
  }

  /** What the tabs show after the messages ds, tab by tab. */
  function Tabs(ds: seq<ParsedData>, mem: MemoryHistory.MemView, errors: nat): StoreView {
    var io, cpu := OfCategory(ds, "io"), OfCategory(ds, "cpu");
    StoreView(IoHistory.Replay(io), |io|, CpuHistory.Replay(cpu), MemoryHistory.Replay(mem, Writes(ds)),
              |ds| % WORD64, errors % WORD64, |io| % WORD64, |cpu| % WORD64,
              MemMessages(ds) % WORD64, TextMessages(ds) % WORD64)
  }

  function TextMessages(ds: seq<ParsedData>): nat {
    if ds == [] then 0
    else
      var d := ds[|ds| - 1];
      TextMessages(ds[..|ds| - 1]) + if d.cat == "mem" && d.sec == "text" then 1 else 0
  }

  function MemMessages(ds: seq<ParsedData>): nat {
    if ds == [] then 0
    else
      var d := ds[|ds| - 1];
      MemMessages(ds[..|ds| - 1]) + if d.cat == "mem" && d.sec != "text" then 1 else 0
  }

  lemma {:induction false} TabsStep(ds: seq<ParsedData>, d: ParsedData, mem: MemoryHistory.MemView, errors: nat)
    ensures Tabs(ds + [d], mem, errors) == ProcessView(Tabs(ds, mem, errors), d)
  {
    hide *;
    var v, v' := Tabs(ds, mem, errors), Tabs(ds + [d], mem, errors);
    TabsFields(ds, mem, errors);
    TabsFields(ds + [d], mem, errors);
    IoStep(ds, d);
    CpuStep(ds, d);
    MemStep(ds, d, mem);
    CountStep(ds, d);
    IncModulo(|ds|);
    IncModulo(v.ioNext);
    IncModulo(|OfCategory(ds, "cpu")|);
    IncModulo(MemMessages(ds));
    IncModulo(TextMessages(ds));
    ProcessFields(v, d, v');
  }

  /** The tabs, field by field. */
  lemma TabsFields(ds: seq<ParsedData>, mem: MemoryHistory.MemView, errors: nat)
    ensures var v, io, cpu := Tabs(ds, mem, errors), OfCategory(ds, "io"), OfCategory(ds, "cpu");
      v.io == IoHistory.Replay(io) && v.ioNext == |io| && v.cpu == CpuHistory.Replay(cpu) &&
      v.mem == MemoryHistory.Replay(mem, Writes(ds)) && v.total == |ds| % WORD64 && v.errors == errors % WORD64 &&
      v.ioCount == |io| % WORD64 && v.cpuCount == |cpu| % WORD64 &&
      v.memCount == MemMessages(ds) % WORD64 && v.textCount == TextMessages(ds) % WORD64
  {
    hide OfCategory, Writes, MemMessages, TextMessages, IoHistory.Replay, CpuHistory.Replay, MemoryHistory.Replay;
  }

  /** Counting and wrapping commute. */
  lemma IncModulo(n: nat)
    ensures Inc(n % WORD64) == (n + 1) % WORD64
  {
  }

  lemma CountStep(ds: seq<ParsedData>, d: ParsedData)
    ensures MemMessages(ds + [d]) == MemMessages(ds) + if d.cat == "mem" && d.sec != "text" then 1 else 0
    ensures TextMessages(ds + [d]) == TextMessages(ds) + if d.cat == "mem" && d.sec == "text" then 1 else 0
  {
    assert (ds + [d])[..|ds|] == ds;
  }

  lemma IoStep(ds: seq<ParsedData>, d: ParsedData)
    ensures var io, io' := OfCategory(ds, "io"), OfCategory(ds + [d], "io");
      if d.cat == "io" then
        |io'| == |io| + 1 &&
        IoHistory.Replay(io') == IoHistory.Touch(IoHistory.Replay(io), d, |io|)
      else io' == io
  {
    assert (ds + [d])[..|ds|] == ds;
    var io := OfCategory(ds, "io");
    assert (io + [d])[..|io|] == io;
    hide IoHistory.Touch;
  }

  lemma CpuStep(ds: seq<ParsedData>, d: ParsedData)
    ensures var cpu, cpu' := OfCategory(ds, "cpu"), OfCategory(ds + [d], "cpu");
      if d.cat == "cpu" then
        |cpu'| == |cpu| + 1 &&
        CpuHistory.Replay(cpu') == CpuHistory.Step(CpuHistory.Replay(cpu), d)
      else cpu' == cpu
  {
    assert (ds + [d])[..|ds|] == ds;
    CpuHistory.ReplayStep(OfCategory(ds, "cpu"), d);
    hide CpuHistory.Step, CpuHistory.Replay;
  }

  lemma MemStep(ds: seq<ParsedData>, d: ParsedData, mem: MemoryHistory.MemView)
    ensures var m := MemoryHistory.Replay(mem, Writes(ds));
      MemoryHistory.Replay(mem, Writes(ds + [d])) == if ForMemoryTab(d) then StepOpt(m, Stored(d)) else m
  {
    assert (ds + [d])[..|ds|] == ds;
    var ws := Writes(ds);
    hide Stored, MemoryHistory.Step;
    if ForMemoryTab(d) && Stored(d).Some? {
      assert (ws + [Stored(d).value])[..|ws|] == ws;
    }
  }

  /** The store after any lines since a start with empty tabs: the I/O tab is the I/O replay of
      the io messages alone, the CPU tab that of the cpu messages, the memory tab that of the
      bytes written, and every line is counted once. */
  lemma {:induction false} FoldIsTabs(parse: Parser, mem: MemoryHistory.MemView, lines: seq<string>)
    ensures Fold(parse, Empty(mem), lines)
         == Tabs(Parsed(parse, lines), mem, |lines| - |Parsed(parse, lines)|)
  {
    hide Fold, Tabs, Parsed, Empty;
    if lines == [] {
      FoldNone(parse, mem);
    } else {
      assert lines == lines[..|lines| - 1] + [lines[|lines| - 1]];
      FoldIsTabs(parse, mem, lines[..|lines| - 1]);
      FoldOne(parse, mem, lines[..|lines| - 1], lines[|lines| - 1]);
    }
  }

  lemma FoldNone(parse: Parser, mem: MemoryHistory.MemView)
    ensures Parsed(parse, []) == [] && Fold(parse, Empty(mem), []) == Tabs([], mem, 0)
  {
  }

  lemma {:induction false} FoldOne(parse: Parser, mem: MemoryHistory.MemView, ls: seq<string>, l: string)
    requires Fold(parse, Empty(mem), ls) == Tabs(Parsed(parse, ls), mem, |ls| - |Parsed(parse, ls)|)
    ensures var ds := Parsed(parse, ls + [l]);
      Fold(parse, Empty(mem), ls + [l]) == Tabs(ds, mem, |ls| + 1 - |ds|)
  {
    hide Fold, Tabs, Parsed, HandleLine, Accept, Empty;
    var ds := Parsed(parse, ls);
    ParsedSnoc(parse, ls, l);
    FoldSnoc(parse, Empty(mem), ls, l);
    TabsLine(parse, ds, mem, |ls| - |ds|, l);
  }

  /** One more line, whether it parses or not. */
  lemma {:induction false} TabsLine(parse: Parser, ds: seq<ParsedData>, mem: MemoryHistory.MemView, errors: nat,
                                    line: string)
    ensures HandleLine(parse, Tabs(ds, mem, errors), line)
         == match Accept(parse, line) {
              case None => Tabs(ds, mem, errors + 1)
              case Some(d) => Tabs(ds + [d], mem, errors)
            }
  {
    TabsError(ds, mem, errors);
    hide Tabs, ProcessView, Accept;
    if Accept(parse, line).Some? {
      TabsStep(ds, Accept(parse, line).value, mem, errors);
    }
  }

  lemma ParsedSnoc(parse: Parser, lines: seq<string>, line: string)
    ensures Parsed(parse, lines + [line])
         == match Accept(parse, line) { case None => Parsed(parse, lines) case Some(d) => Parsed(parse, lines) + [d] }
  {
    assert (lines + [line])[..|lines|] == lines;
  }

  lemma TabsError(ds: seq<ParsedData>, mem: MemoryHistory.MemView, errors: nat)
    ensures var v := Tabs(ds, mem, errors);
      Tabs(ds, mem, errors + 1) == v.(errors := Inc(v.errors))
  {
    IncModulo(errors);
    hide Inc, OfCategory, Writes, MemMessages, TextMessages, IoHistory.Replay, CpuHistory.Replay;
  }

  lemma {:induction false} CategoriesDisjoint(ds: seq<ParsedData>)
    ensures |OfCategory(ds, "io")| + |OfCategory(ds, "cpu")| + |OfCategory(ds, "mem")| <= |ds|
    ensures MemMessages(ds) + TextMessages(ds) == |OfCategory(ds, "mem")|
  {
    if ds != [] {
      CategoriesDisjoint(ds[..|ds| - 1]);
    }
  }

  /** Accounting since the last clear: every line is either a processed message or a parse
      error, and the four tab counters account for exactly the io, cpu and mem messages, all
      modulo 2^64. */
  lemma {:induction false} Accounting(parse: Parser, mem: MemoryHistory.MemView, lines: seq<string>)
    ensures var v, ds := Fold(parse, Empty(mem), lines), Parsed(parse, lines);
      v.total == |ds| % WORD64 && v.errors == (|lines| - |ds|) % WORD64 &&
      v.ioCount == |OfCategory(ds, "io")| % WORD64 && v.cpuCount == |OfCategory(ds, "cpu")| % WORD64 &&
      v.memCount == MemMessages(ds) % WORD64 && v.textCount == TextMessages(ds) % WORD64 &&
      MemMessages(ds) + TextMessages(ds) == |OfCategory(ds, "mem")|
  {
    hide Fold, Parsed, OfCategory, MemMessages, TextMessages, Empty, Writes, IoHistory.Replay,
      CpuHistory.Replay, MemoryHistory.Replay;
    FoldIsTabs(parse, mem, lines);
    CategoriesDisjoint(Parsed(parse, lines));
  }

  /** Below 2^64 lines the counters simply add up, and no tab counts more than there were
      messages. */
  lemma {:induction false} CountersAddUp(parse: Parser, mem: MemoryHistory.MemView, lines: seq<string>)
    requires |lines| < 0x1_0000_0000_0000_0000
    ensures var v := Fold(parse, Empty(mem), lines);
      v.total + v.errors == |lines| &&
      v.ioCount + v.cpuCount + v.memCount + v.textCount <= v.total
  {
    hide Fold, Parsed, OfCategory, MemMessages, TextMessages, Empty;
    var ds := Parsed(parse, lines);
    Accounting(parse, mem, lines);
    CategoriesDisjoint(ds);
    Small(|ds|);
    Small(|lines| - |ds|);
    Small(|OfCategory(ds, "io")|);
    Small(|OfCategory(ds, "cpu")|);
    Small(MemMessages(ds));
    Small(TextMessages(ds));
  }

  lemma Small(n: nat)
    requires n < WORD64
    ensures n % WORD64 == n
  {
  }

  // ---------------------------------------------------------------- the store

  class Store {
    const io: IOData
    const cpu: CPUData
    const memory: MemoryData
    var totalMessages: Word64
    var parseErrors: Word64
    var ioMessages: Word64
    var cpuMessages: Word64
    var memMessages: Word64
    var textMessages: Word64

    ghost predicate Valid()
      reads this, io, io.entries, cpu, cpu.entries, memory, memory.lines
    {
      io.Valid() && cpu.Valid() && memory.Valid()
    }

    ghost function View(): StoreView
      requires Valid()
      reads this, io, io.entries, cpu, cpu.entries, memory, memory.lines
    {
      StoreView(io.Rows, io.nextOrder, cpu.View(), memory.View(), totalMessages, parseErrors,
                ioMessages, cpuMessages, memMessages, textMessages)
    }

    /** datastore_init. */
    constructor ()
      ensures Valid() && View() == INITIAL
      ensures fresh(io) && fresh(io.entries) && fresh(cpu) && fresh(cpu.entries)
      ensures fresh(memory) && fresh(memory.lines)
    {
      io := new IOData();
      cpu := new CPUData();
      memory := new MemoryData();
      totalMessages, parseErrors := 0, 0;
      ioMessages, cpuMessages, memMessages, textMessages := 0, 0, 0, 0;
    }

    /** datastore_clear. */
    method Clear()
      requires Valid()
      modifies this, io, io.entries, cpu, cpu.entries, memory, memory.lines
      ensures Valid() && View() == CLEARED
      ensures io.entries == old(io.entries) && cpu.entries == old(cpu.entries) && fresh(memory.lines)
    {
      hide IOData.Valid, CPUData.Valid, MemoryData.Valid;
      io.Clear();
      cpu.Clear();
      memory.Clear();
      totalMessages, parseErrors := 0, 0;
      ioMessages, cpuMessages, memMessages, textMessages := 0, 0, 0, 0;
    }

    /** datastore_process. */
    method Process(d: ParsedData, alloc: nat -> bool)
      requires Valid() && (d.cat == "io" ==> io.nextOrder < INT_MAX)
      modifies this, io, io.entries, cpu, cpu.entries, memory, memory.lines
      ensures Valid() && io.entries == old(io.entries) && cpu.entries == old(cpu.entries)
      ensures memory.lines == old(memory.lines) || fresh(memory.lines)
      ensures View() == ProcessUnder(old(View()), d, alloc)
    {
      hide IOData.Valid, CPUData.Valid, MemoryData.Valid, IoHistory.Touch, CpuHistory.Step,
        StepOpt, Stored, TakeUnder, Inc;
      totalMessages := Inc(totalMessages);
      if d.cat == "cpu" {
        cpu.Process(d);
        cpuMessages := Inc(cpuMessages);
      } else if d.cat == "io" {
        io.Process(d);
        ioMessages := Inc(ioMessages);
      } else if d.cat == "mem" {
        if d.sec == "zp" || d.sec == "stackpage" || d.sec == "flag" {
          memMessages := Inc(memMessages);
        } else if d.sec == "text" {
          textMessages := Inc(textMessages);
        } else {
          memory.Process(d, alloc);
          memMessages := Inc(memMessages);
        }
      }
    }
  }
}
