/** Hexadecimal text: the two payload parsers and `parse_hex` of data_store.c, and the
    line rendering of the snapshot writer in main.c, which the parsers undo. */
module HexText {
  import opened Basics

  predicate IsHex(c: char) {
    '0' <= c <= '9' || 'a' <= c <= 'f' || 'A' <= c <= 'F'
  }

  function HexVal(c: char): (v: nat)
    requires IsHex(c)
    ensures v < 16
  {
    if c <= '9' then (c - '0') as int
    else if c <= 'F' then (c - 'A') as int + 10
    else (c - 'a') as int + 10
  }

  /** The upper-case digit "%X" prints. */
  function HexDigit(v: nat): (c: char)
    requires v < 16
    ensures IsHex(c) && HexVal(c) == v
  {
    "0123456789ABCDEF"[v]
  }

  function Pair(hi: char, lo: char): Byte
    requires IsHex(hi) && IsHex(lo)
  {
    16 * HexVal(hi) + HexVal(lo)
  }

  // ---------------------------------------------------------------- payloads

  /** Meaning of an unseparated payload: two digits a byte, up to the first fault. */
  function HexBytes(hex: string, max: nat): seq<Byte> {
    if max == 0 || |hex| < 2 || !IsHex(hex[0]) || !IsHex(hex[1]) then []
    else [Pair(hex[0], hex[1])] + HexBytes(hex[2..], max - 1)
  }

  function SkipSpaces(s: string): string {
    if s != [] && s[0] == ' ' then SkipSpaces(s[1..]) else s
  }

  /** Meaning of a payload whose bytes may be separated by blanks. */
  function SpacedBytes(hex: string, max: nat): seq<Byte>
    decreases max
  {
    var t := SkipSpaces(hex);
    if max == 0 || |t| < 2 || !IsHex(t[0]) || !IsHex(t[1]) then []
    else [Pair(t[0], t[1])] + SpacedBytes(t[2..], max - 1)
  }

  /** parse_hex_data. */
  method ParseHexData(hex: string, maxBytes: nat) returns (out: seq<Byte>)
    ensures out == HexBytes(hex, maxBytes)
    ensures |out| <= maxBytes && 2 * |out| <= |hex|
  {
    out := [];
    var i := 0;
    ghost var todo := HexBytes(hex, maxBytes);
    assert hex[0..] == hex;
    while i < |hex| && |out| < maxBytes
      invariant i == 2 * |out| && i <= |hex| && |out| <= maxBytes
      invariant todo == HexBytes(hex[i..], maxBytes - |out|)
      invariant out + todo == HexBytes(hex, maxBytes)
    {
      if !IsHex(hex[i]) { break; }
      if i + 1 >= |hex| || !IsHex(hex[i + 1]) { break; }
      CompactStep(hex, i, maxBytes - |out|);
      var b := Pair(hex[i], hex[i + 1]);
      MoveHead(out, todo);
      todo := todo[1..];
      out := out + [b];
      i := i + 2;
    }
    assert todo == [];
  }

  lemma MoveHead(out: seq<Byte>, todo: seq<Byte>)
    requires todo != []
    ensures out + [todo[0]] + todo[1..] == out + todo
  {
  }

  lemma CompactStep(hex: string, i: nat, max: nat)
    requires i + 1 < |hex| && max > 0 && IsHex(hex[i]) && IsHex(hex[i + 1])
    ensures HexBytes(hex[i..], max) == [Pair(hex[i], hex[i + 1])] + HexBytes(hex[i + 2..], max - 1)
  {
    assert hex[i..][2..] == hex[i + 2..];
  }

  /** parse_hex_data_spaced. */
  method ParseHexDataSpaced(hex: string, maxBytes: nat) returns (out: seq<Byte>)
    ensures out == SpacedBytes(hex, maxBytes)
    ensures |out| <= maxBytes
  {
    out := [];
    var p := 0;
    ghost var todo := SpacedBytes(hex, maxBytes);
    assert hex[0..] == hex;
    while p < |hex| && |out| < maxBytes
      invariant p <= |hex| && |out| <= maxBytes
      invariant todo == SpacedBytes(hex[p..], maxBytes - |out|)
      invariant out + todo == SpacedBytes(hex, maxBytes)
      decreases |hex| - p
    {
      ghost var blanks := p;
      while p < |hex| && hex[p] == ' '
        invariant blanks <= p <= |hex|
        invariant SkipSpaces(hex[blanks..]) == SkipSpaces(hex[p..])
      {
        assert hex[p..][1..] == hex[p + 1..];
        p := p + 1;
      }
      if p == |hex| { break; }
      if IsHex(hex[p]) && p + 1 < |hex| && IsHex(hex[p + 1]) {
        SpacedStep(hex, p, blanks, maxBytes - |out|);
        var b := Pair(hex[p], hex[p + 1]);
        MoveHead(out, todo);
        todo := todo[1..];
        out := out + [b];
        p := p + 2;
      } else {
        break;
      }
    }
    assert todo == [];
  }

  lemma SpacedStep(hex: string, p: nat, from: nat, max: nat)
    requires from <= p && p + 1 < |hex| && max > 0
    requires SkipSpaces(hex[from..]) == SkipSpaces(hex[p..])
    requires IsHex(hex[p]) && IsHex(hex[p + 1])
    ensures SpacedBytes(hex[from..], max)
         == [Pair(hex[p], hex[p + 1])] + SpacedBytes(hex[p + 2..], max - 1)
  {
    var t := hex[p..];
    assert SkipSpaces(t) == t;
    assert t[2..] == hex[p + 2..];
  }

  // ---------------------------------------------------------------- rendering

  function Render2(b: Byte): (s: string)
    ensures |s| == 2
  {
    [HexDigit(b / 16), HexDigit(b % 16)]
  }

  /** "%02X " for a valid byte, "-- " for a gap. */
  function RenderCell(b: Byte, valid: bool): string {
    if valid then Render2(b) + " " else "-- "
  }

  function RenderCells(data: seq<Byte>, valid: seq<bool>): string
    requires |data| == |valid|
  {
    if data == [] then ""
    else RenderCell(data[0], valid[0]) + RenderCells(data[1..], valid[1..])
  }

  function RenderCompact(data: seq<Byte>): string {
    if data == [] then "" else Render2(data[0]) + RenderCompact(data[1..])
  }

  /** The byte loop of save_snapshot, printing to a string. */
  method RenderLine(data: seq<Byte>, valid: seq<bool>) returns (text: string)
    requires |data| == |valid|
    ensures text == RenderCells(data, valid)
  {
    text := "";
    for j := 0 to |data|
      invariant text + RenderCells(data[j..], valid[j..]) == RenderCells(data, valid)
    {
      RenderStep(data[j..], valid[j..], text);
      assert data[j..][1..] == data[j + 1..] && valid[j..][1..] == valid[j + 1..];
      if valid[j] {
        text := text + (Render2(data[j]) + " ");
      } else {
        text := text + "-- ";
      }
    }
    assert text + "" == text;
  }

  lemma RenderStep(data: seq<Byte>, valid: seq<bool>, text: string)
    requires |data| == |valid| > 0
    ensures text + RenderCells(data, valid)
         == text + RenderCell(data[0], valid[0]) + RenderCells(data[1..], valid[1..])
  {
  }

  lemma {:induction false} CellsLength(data: seq<Byte>, valid: seq<bool>)
    requires |data| == |valid|
    ensures |RenderCells(data, valid)| == 3 * |data|
  {
    if data != [] {
      CellsLength(data[1..], valid[1..]);
    }
  }

  lemma CellsCons(data: seq<Byte>, valid: seq<bool>)
    requires |data| == |valid| > 0
    ensures RenderCells(data, valid) == RenderCell(data[0], valid[0]) + RenderCells(data[1..], valid[1..])
    ensures |RenderCell(data[0], valid[0])| == 3
  {
  }

  lemma {:induction false} CellAt(data: seq<Byte>, valid: seq<bool>, j: nat)
    requires |data| == |valid| && j < |data|
    ensures 3 * j + 3 <= |RenderCells(data, valid)|
    ensures RenderCells(data, valid)[3 * j..3 * j + 3] == RenderCell(data[j], valid[j])
  {
    hide *;
    CellsLength(data, valid);
    CellsCons(data, valid);
    var cell, rest := RenderCell(data[0], valid[0]), RenderCells(data[1..], valid[1..]);
    if j == 0 {
      HeadColumns(cell, rest);
    } else {
      CellAt(data[1..], valid[1..], j - 1);
      TailColumns(cell, rest, 3 * (j - 1), 3);
    }
  }

  /** The cell of each byte has its own three columns, also behind a gap. */
  lemma {:induction false} CellColumns(data: seq<Byte>, valid: seq<bool>, j: nat)
    requires |data| == |valid| && j < |data|
    ensures |RenderCells(data, valid)| == 3 * |data|
    ensures RenderCells(data, valid)[3 * j..3 * j + 3] == if valid[j] then Render2(data[j]) + " " else "-- "
  {
    CellsLength(data, valid);
    CellAt(data, valid, j);
    hide RenderCells, Render2;
  }

  lemma HeadColumns(a: string, b: string)
    requires |a| == 3
    ensures (a + b)[3 * 0..3 * 0 + 3] == a
  {
  }

  lemma TailColumns(a: string, b: string, i: nat, n: nat)
    requires i + n <= |b|
    ensures (a + b)[|a| + i..|a| + i + n] == b[i..i + n]
  {
  }

  /** Number of bytes before the first gap. */
  function FirstGap(valid: seq<bool>): (k: nat)
    ensures k <= |valid|
    ensures forall i :: 0 <= i < k ==> valid[i]
    ensures k < |valid| ==> !valid[k]
  {
    if valid == [] || !valid[0] then 0 else 1 + FirstGap(valid[1..])
  }

  lemma PairUndoesRender2(b: Byte)
    ensures Pair(Render2(b)[0], Render2(b)[1]) == b
  {
  }

  /** Reading back a rendered line, whatever follows it, gives exactly the bytes before the
      first gap, up to the reader's limit; what follows must not look like another byte. */
  lemma {:induction false} ParseUndoesRender(data: seq<Byte>, valid: seq<bool>, rest: string, max: nat)
    requires |data| == |valid|
    requires SpacedBytes(rest, 1) == []
    ensures SpacedBytes(RenderCells(data, valid) + rest, max) == data[..Min(max, FirstGap(valid))]
  {
    if max == 0 {
    } else if data == [] {
      assert RenderCells(data, valid) + rest == rest;
    } else {
      var tail := RenderCells(data[1..], valid[1..]) + rest;
      assert RenderCells(data, valid) + rest == RenderCell(data[0], valid[0]) + tail;
      if valid[0] {
        ParseOneByte(data[0], tail, max);
        ParseUndoesRender(data[1..], valid[1..], rest, max - 1);
        ConsTake(data, Min(max - 1, FirstGap(valid[1..])));
      } else {
        ParseGap(data[0], tail, max);
      }
    }
  }

  lemma ConsTake(data: seq<Byte>, k: nat)
    requires k < |data|
    ensures [data[0]] + data[1..][..k] == data[..k + 1]
  {
  }

  lemma ParseGap(b: Byte, tail: string, max: nat)
    ensures SpacedBytes(RenderCell(b, false) + tail, max) == []
  {
    assert (RenderCell(b, false) + tail)[0] == '-';
  }

  lemma ParseOneByte(b: Byte, tail: string, max: nat)
    requires max > 0
    ensures SpacedBytes(RenderCell(b, true) + tail, max) == [b] + SpacedBytes(tail, max - 1)
  {
    var text := RenderCell(b, true) + tail;
    assert text[0] == Render2(b)[0] && text[1] == Render2(b)[1];
    assert text[2..] == " " + tail;
    PairUndoesRender2(b);
    SpacedIgnoresBlank(tail, max - 1);
  }

  lemma SpacedIgnoresBlank(s: string, max: nat)
    ensures SpacedBytes(" " + s, max) == SpacedBytes(s, max)
  {
    assert (" " + s)[1..] == s;
  }

  function AllTrue(n: nat): (v: seq<bool>)
    ensures |v| == n && forall i :: 0 <= i < n ==> v[i]
  {
    seq(n, _ => true)
  }

  /** A fully valid line of bytes survives printing and parsing. */
  lemma SpacedRoundTrip(data: seq<Byte>, max: nat)
    ensures SpacedBytes(RenderCells(data, AllTrue(|data|)), max) == data[..Min(max, |data|)]
  {
    var text := RenderCells(data, AllTrue(|data|));
    assert text + "" == text;
    ParseUndoesRender(data, AllTrue(|data|), "", max);
  }

  /** The unseparated form round-trips through parse_hex_data. */
  lemma {:induction false} CompactRoundTrip(data: seq<Byte>, max: nat)
    ensures HexBytes(RenderCompact(data), max) == data[..Min(max, |data|)]
  {
    if max > 0 && data != [] {
      PairUndoesRender2(data[0]);
      var text := RenderCompact(data);
      assert text[2..] == RenderCompact(data[1..]);
      CompactRoundTrip(data[1..], max - 1);
      assert [data[0]] + data[1..][..Min(max - 1, |data| - 1)] == data[..Min(max, |data|)];
    }
  }

  /** The two parsers agree on text without blanks; with blanks they need not (see below). */
  lemma {:induction false} ParsersAgreeWithoutBlanks(hex: string, max: nat)
    requires ' ' !in hex
    ensures SpacedBytes(hex, max) == HexBytes(hex, max)
  {
    if max > 0 && |hex| >= 2 && IsHex(hex[0]) && IsHex(hex[1]) {
      ParsersAgreeWithoutBlanks(hex[2..], max - 1);
    }
  }

  /** Exactly the blanks in front of a byte matter: the compact parser stops where the spaced
      one goes on, so on a rendered line of two or more bytes it keeps only the first. */
  lemma CompactParserStopsAtBlank(a: Byte, rest: string, max: nat)
    requires max > 0
    ensures HexBytes(Render2(a) + " " + rest, max) == [a]
  {
    PairUndoesRender2(a);
    assert (Render2(a) + " " + rest)[2..] == " " + rest;
  }

  // ---------------------------------------------------------------- addresses

  predicate IsSpace(c: char) {
    c == ' ' || '\t' <= c <= '\r'
  }

  function SkipWhite(s: string): string {
    if s != [] && IsSpace(s[0]) then SkipWhite(s[1..]) else s
  }

  /** Length of the leading run of hexadecimal digits. */
  function DigitRun(s: string): (k: nat)
    ensures k <= |s|
    ensures forall i :: 0 <= i < k ==> IsHex(s[i])
    ensures k < |s| ==> !IsHex(s[k])
  {
    if s == [] || !IsHex(s[0]) then 0 else 1 + DigitRun(s[1..])
  }

  predicate AllHex(s: string) {
    forall i :: 0 <= i < |s| ==> IsHex(s[i])
  }

  function HexValue(s: string): nat
    requires AllHex(s)
  {
    if s == [] then 0 else 16 * HexValue(s[..|s| - 1]) + HexVal(s[|s| - 1])
  }

  const ULONG_RANGE := 0x1_0000_0000_0000_0000

  function StripSign(t: string): string {
    if t != [] && (t[0] == '-' || t[0] == '+') then t[1..] else t
  }

  function StripBase(u: string): string {
    if |u| >= 3 && u[0] == '0' && (u[1] == 'x' || u[1] == 'X') && IsHex(u[2]) then u[2..] else u
  }

  /** The digits strtoul reads in base 16, after blanks, a sign and an optional "0x". */
  function Digits(hex: string): string {
    var d := StripBase(StripSign(SkipWhite(hex)));
    d[..DigitRun(d)]
  }

  /** parse_hex: strtoul in base 16, saturating at 64 bits, then cut to 32 bits. */
  function ParseHex(hex: string): Word32 {
    var t := SkipWhite(hex);
    var v := HexValue(Digits(hex));
    if v >= ULONG_RANGE then Wrap(ULONG_RANGE - 1)
    else if t != [] && t[0] == '-' then Wrap(ULONG_RANGE - v)
    else Wrap(v)
  }

  /** "%X". */
  function UpperHex(n: nat): (s: string)
    ensures |s| > 0 && AllHex(s)
  {
    if n < 16 then [HexDigit(n)] else UpperHex(n / 16) + [HexDigit(n % 16)]
  }

  function PadTo(s: string, width: nat): string
    decreases width - |s|
  {
    if |s| >= width then s else PadTo("0" + s, width)
  }

  lemma HexValueOfUpperHex(n: nat)
    ensures HexValue(UpperHex(n)) == n
  {
    if n >= 16 {
      HexValueOfUpperHex(n / 16);
      assert UpperHex(n)[..|UpperHex(n)| - 1] == UpperHex(n / 16);
    }
  }

  lemma HexValueLeadingZero(s: string)
    requires AllHex(s)
    ensures AllHex("0" + s) && HexValue("0" + s) == HexValue(s)
  {
    if s != [] {
      HexValueLeadingZero(s[..|s| - 1]);
      assert ("0" + s)[..|s|] == "0" + s[..|s| - 1];
    }
  }

  lemma HexValuePadded(s: string, width: nat)
    requires AllHex(s) && |s| > 0
    ensures AllHex(PadTo(s, width)) && HexValue(PadTo(s, width)) == HexValue(s)
    ensures |PadTo(s, width)| > 0
    decreases width - |s|
  {
    if |s| < width {
      HexValueLeadingZero(s);
      HexValuePadded("0" + s, width);
    }
  }

  lemma {:induction false} DigitRunOf(s: string, rest: string)
    requires AllHex(s)
    requires rest == [] || !IsHex(rest[0])
    ensures DigitRun(s + rest) == |s|
  {
    var t := s + rest;
    if s == [] {
      assert t == rest;
    } else {
      DigitRunOf(s[1..], rest);
      assert t[1..] == s[1..] + rest;
    }
  }

  /** "%04X" loses nothing: reading the printed address back gives the address, also when it
      is followed by the ": " of a snapshot line. */
  lemma AddressRoundTrip(a: Word32, rest: string)
    requires rest == [] || (!IsHex(rest[0]) && rest[0] != 'x' && rest[0] != 'X')
    ensures ParseHex(PadTo(UpperHex(a), 4) + rest) == a
  {
    HexValueOfUpperHex(a);
    HexValuePadded(UpperHex(a), 4);
    ParseDigits(PadTo(UpperHex(a), 4), rest);
  }

  lemma ParseDigits(s: string, rest: string)
    requires s != [] && AllHex(s) && HexValue(s) < WORD
    requires rest == [] || (!IsHex(rest[0]) && rest[0] != 'x' && rest[0] != 'X')
    ensures ParseHex(s + rest) == HexValue(s)
  {
    assert Digits(s + rest) == s by { PlainDigits(s, rest); }
    assert SkipWhite(s + rest)[0] == s[0];
  }

  /** Text starting with a digit and not with "0x" is read as its leading digits. */
  lemma PlainDigits(s: string, rest: string)
    requires s != [] && AllHex(s)
    requires rest == [] || (!IsHex(rest[0]) && rest[0] != 'x' && rest[0] != 'X')
    ensures Digits(s + rest) == s
  {
    var t := s + rest;
    DigitRunOf(s, rest);
    assert IsHex(t[0]) && t[..|s|] == s;
    if |s| >= 2 {
      assert IsHex(t[1]);
    } else if rest != [] {
      assert t[1] == rest[0];
    }
    assert StripBase(t) == t;
  }

  // ---------------------------------------------------------------- digit by digit

  /** Both cases of the sixteen digits, by value. */
  lemma DigitValues(k: nat)
    requires k < 16
    ensures IsHex("0123456789ABCDEF"[k]) && HexVal("0123456789ABCDEF"[k]) == k
    ensures IsHex("0123456789abcdef"[k]) && HexVal("0123456789abcdef"[k]) == k
  {
  }

  /** And there are no others. */
  lemma OnlyHexDigits(c: char)
    ensures IsHex(c) <==> c in "0123456789ABCDEFabcdef"
  {
    var all := "0123456789ABCDEFabcdef";
    if IsHex(c) {
      var k := if c <= '9' then (c - '0') as int else if c <= 'F' then (c - 'A') as int + 10 else (c - 'a') as int + 16;
      assert all[k] == c;
    }
  }

  /** What is printed is printed in upper case. */
  lemma PrintsUpperCase(b: Byte, n: nat)
    ensures Render2(b) == ["0123456789ABCDEF"[b / 16], "0123456789ABCDEF"[b % 16]]
    ensures forall i :: 0 <= i < |UpperHex(n)| ==> UpperHex(n)[i] in "0123456789ABCDEF"
  {
    if n >= 16 {
      PrintsUpperCase(b, n / 16);
    }
  }

  /** A printed number has no digit too many and is filled up with zeros to the width. */
  lemma {:induction false} NumberWidth(n: nat, s: string, width: nat)
    ensures n >= 16 ==> UpperHex(n)[0] != '0'
    ensures |PadTo(s, width)| == if |s| < width then width else |s|
    ensures |s| < width ==> PadTo(s, width) == PadTo("0" + s, width)
    decreases n, width - |s|
  {
    LeadingDigit(n);
    if |s| < width {
      PadLength("0" + s, width);
    }
  }

  lemma {:induction false} LeadingDigit(n: nat)
    ensures n > 0 ==> UpperHex(n)[0] != '0'
  {
    if n >= 16 {
      LeadingDigit(n / 16);
    }
  }

  lemma {:induction false} PadLength(s: string, width: nat)
    ensures |PadTo(s, width)| == if |s| < width then width else |s|
    decreases width - |s|
  {
    if |s| < width {
      PadLength("0" + s, width);
    }
  }

  /** The digit pair that starts at place i of hex. */
  predicate PairAt(hex: string, i: nat) {
    i + 1 < |hex| && IsHex(hex[i]) && IsHex(hex[i + 1])
  }

  /** The payload parser, byte by byte: byte i is the i-th digit pair, and it stops at the limit or
      at the first place where there is no pair. */
  lemma {:induction false} PayloadIs(hex: string, max: nat)
    ensures var r := HexBytes(hex, max);
      |r| <= max && (|r| == max || !PairAt(hex, 2 * |r|)) &&
      forall i :: 0 <= i < |r| ==>
        PairAt(hex, 2 * i) && r[i] == 16 * HexVal(hex[2 * i]) + HexVal(hex[2 * i + 1])
  {
    var r := HexBytes(hex, max);
    if max > 0 && PairAt(hex, 0) {
      var rest, r' := hex[2..], HexBytes(hex[2..], max - 1);
      PayloadIs(rest, max - 1);
      assert r == [Pair(hex[0], hex[1])] + r';
      hide HexBytes, IsHex, HexVal;
      assert forall i: nat :: PairAt(rest, i) <==> PairAt(hex, i + 2);
      forall i | 0 <= i < |r|
        ensures PairAt(hex, 2 * i) && r[i] == 16 * HexVal(hex[2 * i]) + HexVal(hex[2 * i + 1])
      {
        if i > 0 {
          assert PairAt(rest, 2 * (i - 1));
        }
      }
    }
  }

  /** The spaced parser stops at anything but a blank or a pair. */
  lemma SpacedStops(c: char, rest: string, max: nat)
    requires c != ' ' && !PairAt([c] + rest, 0)
    ensures SpacedBytes([c] + rest, max) == []
  {
    assert ([c] + rest)[0] == c;
  }

  lemma SameDigit(c: char, d: char)
    requires SameLetter(c, d)
    ensures IsHex(c) == IsHex(d) && (IsHex(c) ==> HexVal(c) == HexVal(d))
  {
  }

  /** The case of a payload's digits does not matter. */
  lemma {:induction false} PayloadIgnoresCase(s: string, t: string, max: nat)
    requires SameLetters(s, t)
    ensures HexBytes(s, max) == HexBytes(t, max) && SpacedBytes(s, max) == SpacedBytes(t, max)
  {
    CompactIgnoresCase(s, t, max);
    SpacedIgnoresCase(s, t, max);
  }

  lemma SameTail(s: string, t: string, k: nat)
    requires SameLetters(s, t) && k <= |s|
    ensures |s| == |t| && SameLetters(s[k..], t[k..])
  {
    hide SameLetter;
  }

  /** What the pair that starts a text says does not depend on case. */
  lemma SamePair(s: string, t: string)
    requires SameLetters(s, t)
    ensures |s| == |t| && PairAt(s, 0) == PairAt(t, 0)
    ensures PairAt(s, 0) ==> |s| >= 2 && Pair(s[0], s[1]) == Pair(t[0], t[1])
  {
    if |s| >= 2 {
      SameDigit(s[0], t[0]);
      SameDigit(s[1], t[1]);
    }
    hide SameLetter, IsHex, HexVal;
  }

  lemma CompactUnfolds(s: string, max: nat)
    ensures HexBytes(s, max)
         == if max == 0 || !PairAt(s, 0) then [] else [Pair(s[0], s[1])] + HexBytes(s[2..], max - 1)
  {
    hide IsHex, Pair;
  }

  lemma SpacedUnfolds(s: string, max: nat)
    ensures var t := SkipSpaces(s);
      SpacedBytes(s, max)
        == if max == 0 || !PairAt(t, 0) then [] else [Pair(t[0], t[1])] + SpacedBytes(t[2..], max - 1)
  {
    hide IsHex, Pair, SkipSpaces;
  }

  lemma {:induction false} CompactIgnoresCase(s: string, t: string, max: nat)
    requires SameLetters(s, t)
    ensures HexBytes(s, max) == HexBytes(t, max)
  {
    hide *;
    CompactUnfolds(s, max);
    CompactUnfolds(t, max);
    SamePair(s, t);
    if max > 0 && |s| >= 2 {
      SameTail(s, t, 2);
      CompactIgnoresCase(s[2..], t[2..], max - 1);
    }
  }

  lemma {:induction false} BlanksIgnoreCase(s: string, t: string)
    requires SameLetters(s, t)
    ensures SameLetters(SkipSpaces(s), SkipSpaces(t))
  {
    if s != [] {
      assert s[0] == ' ' <==> t[0] == ' ';
      SameTail(s, t, 1);
      hide SameLetters, SameLetter;
      BlanksIgnoreCase(s[1..], t[1..]);
    }
  }

  lemma {:induction false} SpacedIgnoresCase(s: string, t: string, max: nat)
    requires SameLetters(s, t)
    ensures SpacedBytes(s, max) == SpacedBytes(t, max)
    decreases max
  {
    hide *;
    BlanksIgnoreCase(s, t);
    var s', t' := SkipSpaces(s), SkipSpaces(t);
    SpacedUnfolds(s, max);
    SpacedUnfolds(t, max);
    SamePair(s', t');
    if max > 0 && |s'| >= 2 {
      SameTail(s', t', 2);
      SpacedIgnoresCase(s'[2..], t'[2..], max - 1);
    }
  }

  /** Nor does that of an address or number. */
  lemma {:induction false} NumberIgnoresCase(s: string, t: string)
    requires SameLetters(s, t)
    ensures ParseHex(s) == ParseHex(t)
  {
    WhiteIgnoresCase(s, t);
    SignIgnoresCase(SkipWhite(s), SkipWhite(t));
    PrefixIgnoresCase(SkipWhite(s), SkipWhite(t));
    DigitsIgnoreCase(StripBase(StripSign(SkipWhite(s))), StripBase(StripSign(SkipWhite(t))));
    hide SkipWhite, StripBase, StripSign, SameLetters, DigitRun, HexValue;
  }

  lemma SignIgnoresCase(s: string, t: string)
    requires SameLetters(s, t)
    ensures (s != [] && s[0] == '-') <==> (t != [] && t[0] == '-')
  {
  }

  lemma DigitsIgnoreCase(s: string, t: string)
    requires SameLetters(s, t)
    ensures HexValue(s[..DigitRun(s)]) == HexValue(t[..DigitRun(t)])
  {
    RunIgnoresCase(s, t);
    SameHead(s, t, DigitRun(s));
    hide SameLetters, IsHex;
    ValueIgnoresCase(s[..DigitRun(s)], t[..DigitRun(t)]);
  }

  lemma SameHead(s: string, t: string, k: nat)
    requires SameLetters(s, t) && k <= |s|
    ensures |s| == |t| && SameLetters(s[..k], t[..k])
  {
    hide SameLetter;
  }

  lemma {:induction false} WhiteIgnoresCase(s: string, t: string)
    requires SameLetters(s, t)
    ensures SameLetters(SkipWhite(s), SkipWhite(t))
  {
    if s != [] {
      assert IsSpace(s[0]) <==> IsSpace(t[0]);
      SameTail(s, t, 1);
      hide SameLetters, SameLetter, IsSpace;
      WhiteIgnoresCase(s[1..], t[1..]);
    }
  }

  lemma PrefixIgnoresCase(s: string, t: string)
    requires SameLetters(s, t)
    ensures SameLetters(StripBase(StripSign(s)), StripBase(StripSign(t)))
  {
    StripSignIgnoresCase(s, t);
    hide StripSign;
    StripBaseIgnoresCase(StripSign(s), StripSign(t));
  }

  lemma StripSignIgnoresCase(s: string, t: string)
    requires SameLetters(s, t)
    ensures SameLetters(StripSign(s), StripSign(t))
  {
    if s != [] {
      assert (s[0] == '-' || s[0] == '+') == (t[0] == '-' || t[0] == '+');
      SameTail(s, t, 1);
    }
    hide SameLetters;
  }

  lemma StripBaseIgnoresCase(s: string, t: string)
    requires SameLetters(s, t)
    ensures SameLetters(StripBase(s), StripBase(t))
  {
    if |s| >= 3 {
      SameDigit(s[2], t[2]);
      SameTail(s, t, 2);
      assert (s[0] == '0') == (t[0] == '0');
      assert (s[1] == 'x' || s[1] == 'X') == (t[1] == 'x' || t[1] == 'X');
    }
    assert |s| == |t|;
    hide SameLetters, SameLetter, IsHex;
  }

  lemma {:induction false} RunIgnoresCase(s: string, t: string)
    requires SameLetters(s, t)
    ensures DigitRun(s) == DigitRun(t)
  {
    if s != [] {
      SameDigit(s[0], t[0]);
      SameTail(s, t, 1);
      hide SameLetters, SameLetter, IsHex;
      RunIgnoresCase(s[1..], t[1..]);
    }
  }

  lemma {:induction false} ValueIgnoresCase(s: string, t: string)
    requires SameLetters(s, t) && AllHex(s) && AllHex(t)
    ensures HexValue(s) == HexValue(t)
  {
    if s != [] {
      var n := |s| - 1;
      SameDigit(s[n], t[n]);
      SameHead(s, t, n);
      hide SameLetters, SameLetter, IsHex, HexVal;
      ValueIgnoresCase(s[..n], t[..n]);
    }
  }

  /** parse_hex on a printed number, with a sign, a "0x" or blanks in front: the low 32 bits of the
      number or of its negation, and all ones when it needs more than 64 bits. */
  lemma {:induction false} NumberIs(n: nat)
    ensures var s, low := UpperHex(n), if n < 0x1_0000_0000_0000_0000 then n % 0x1_0000_0000 else 0xFFFF_FFFF;
      ParseHex(s) == ParseHex("+" + s) == ParseHex("0x" + s) == ParseHex("0X" + s) == low &&
      ParseHex("-" + s)
        == if n < 0x1_0000_0000_0000_0000 then (0x1_0000_0000_0000_0000 - n) % 0x1_0000_0000 else 0xFFFF_FFFF
  {
    hide *;
    var s := UpperHex(n);
    HexValueOfUpperHex(n);
    PlainNumber(s);
    SignedDigits(s);
    BasedDigits(s);
    ParsedAs(s, s);
    ParsedAs("+" + s, s);
    ParsedAs("-" + s, s);
    ParsedAs("0x" + s, s);
    ParsedAs("0X" + s, s);
  }

  lemma PlainNumber(s: string)
    requires s != "" && AllHex(s)
    ensures Digits(s) == s && SkipWhite(s) == s && s[0] != '-'
  {
    PlainDigits(s, "");
    assert s + "" == s;
    hide Digits;
  }

  lemma ParsedAs(text: string, s: string)
    requires AllHex(s) && Digits(text) == s && SkipWhite(text) != ""
    ensures var n := HexValue(s);
      ParseHex(text)
        == if n >= 0x1_0000_0000_0000_0000 then 0xFFFF_FFFF
           else if SkipWhite(text)[0] == '-' then (0x1_0000_0000_0000_0000 - n) % 0x1_0000_0000
           else n % 0x1_0000_0000
  {
    hide Digits, SkipWhite, HexValue;
  }

  lemma SignedDigits(s: string)
    requires s != "" && AllHex(s)
    ensures Digits("+" + s) == s && SkipWhite("+" + s) != "" && SkipWhite("+" + s)[0] == '+'
    ensures Digits("-" + s) == s && SkipWhite("-" + s) != "" && SkipWhite("-" + s)[0] == '-'
  {
    PlainDigits(s, "");
    assert s + "" == s;
    assert SkipWhite(s) == s;
    assert StripSign(s) == s;
    assert ("+" + s)[1..] == s && ("-" + s)[1..] == s;
    hide StripBase;
  }

  lemma BasedDigits(s: string)
    requires s != "" && AllHex(s)
    ensures Digits("0x" + s) == s && SkipWhite("0x" + s) != "" && SkipWhite("0x" + s)[0] == '0'
    ensures Digits("0X" + s) == s && SkipWhite("0X" + s) != "" && SkipWhite("0X" + s)[0] == '0'
  {
    DigitRunOf(s, "");
    assert s + "" == s;
    assert ("0x" + s)[2..] == s && ("0X" + s)[2..] == s;
    assert ("0x" + s)[2] == s[0] && ("0X" + s)[2] == s[0];
    hide DigitRun;
  }

  /** White space in front is skipped. */
  lemma WhiteIsSkipped(c: char, s: string)
    requires c in " \t\n\r" || c == '\U{000B}' || c == '\U{000C}'
    ensures ParseHex([c] + s) == ParseHex(s)
  {
    assert ([c] + s)[1..] == s;
    assert IsSpace(c);
    assert SkipWhite([c] + s) == SkipWhite(s);
  }

  /** The empty text denotes 0, and so does any that starts with no digit, sign or white space. */
  lemma NoNumber(c: char, rest: string)
    requires !IsSpace(c) && !IsHex(c) && c != '+' && c != '-'
    ensures ParseHex([c] + rest) == ParseHex("") == 0
  {
    assert ([c] + rest)[0] == c;
  }

  /** No digit pair starts the text. */
  predicate NoPair(rest: string) {
    |rest| < 2 || rest[0] !in "0123456789ABCDEFabcdef" || rest[1] !in "0123456789ABCDEFabcdef"
  }

  lemma NoPairIff(rest: string)
    ensures NoPair(rest) <==> !PairAt(rest, 0)
  {
    if |rest| >= 2 {
      OnlyHexDigits(rest[0]);
      OnlyHexDigits(rest[1]);
    }
    hide IsHex;
  }

  lemma FirstPair(b: Byte, tail: string)
    ensures var text := Render2(b) + tail;
      PairAt(text, 0) && |text| >= 2 && Pair(text[0], text[1]) == b && text[2..] == tail
  {
    PairUndoesRender2(b);
    hide HexVal;
  }

  /** The pairs of some bytes, and then no other pair, parse back to the bytes. */
  lemma {:induction false} CompactThen(bs: seq<Byte>, rest: string, max: nat)
    requires NoPair(rest) && |bs| <= max
    ensures HexBytes(RenderCompact(bs) + rest, max) == bs
  {
    hide *;
    if bs == [] {
      NoBytesThen(rest, max);
    } else {
      CompactCons(bs, rest);
      FirstPair(bs[0], RenderCompact(bs[1..]) + rest);
      CompactUnfolds(RenderCompact(bs) + rest, max);
      CompactThen(bs[1..], rest, max - 1);
      assert [bs[0]] + bs[1..] == bs;
    }
  }

  lemma NoBytesThen(rest: string, max: nat)
    requires NoPair(rest)
    ensures HexBytes(RenderCompact([]) + rest, max) == []
  {
    NoPairIff(rest);
    CompactUnfolds(rest, max);
    hide HexBytes, NoPair, IsHex;
    assert RenderCompact([]) + rest == rest;
  }

  lemma CompactCons(bs: seq<Byte>, rest: string)
    requires bs != []
    ensures RenderCompact(bs) + rest == Render2(bs[0]) + (RenderCompact(bs[1..]) + rest)
  {
    hide Render2;
  }

  lemma {:induction false} CompactLength(bs: seq<Byte>)
    ensures |RenderCompact(bs)| == 2 * |bs|
  {
    if bs != [] {
      CompactLength(bs[1..]);
    }
  }
}
