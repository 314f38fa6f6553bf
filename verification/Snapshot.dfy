/** A snapshot line (save_snapshot of main.c) against the memory map it prints. */
module Snapshot {
  import opened Basics
  import opened HexText
  import opened MemoryLines

  /** "%04X: ", the sixteen cells and the text column. */
  function RenderRow(l: MemLine, ascii: string): string
    requires |l.data| == |l.valid|
  {
    PadTo(UpperHex(l.address), 4) + ": " + RenderCells(l.data, l.valid) + " |" + ascii + "|\n"
  }

  /** Where things stand in a row: four digits or more of address, a colon and a blank, three
      columns for each byte, and the text column between bars. */
  lemma {:induction false} RowLayout(l: MemLine, ascii: string, j: nat)
    requires |l.data| == |l.valid| == 16 && j < 16
    ensures var row, w := RenderRow(l, ascii), |PadTo(UpperHex(l.address), 4)|;
      w >= 4 && |row| == w + 2 + 48 + 2 + |ascii| + 2 &&
      row[..w] == PadTo(UpperHex(l.address), 4) && row[w..w + 2] == ": " &&
      row[w + 2 + 3 * j..w + 2 + 3 * j + 3] == (if l.valid[j] then Render2(l.data[j]) + " " else "-- ") &&
      row[w + 50..] == " |" + ascii + "|\n"
  {
    hide *;
    NumberWidth(l.address, UpperHex(l.address), 4);
    CellColumns(l.data, l.valid, j);
    RowSlices(PadTo(UpperHex(l.address), 4), RenderCells(l.data, l.valid), " |" + ascii + "|\n", 3 * j);
    RowIs(l, ascii);
    TailLength(ascii);
  }

  lemma TailLength(ascii: string)
    ensures |" |" + ascii + "|\n"| == |ascii| + 4
  {
  }

  lemma RowIs(l: MemLine, ascii: string)
    requires |l.data| == |l.valid|
    ensures RenderRow(l, ascii)
         == PadTo(UpperHex(l.address), 4) + ": " + RenderCells(l.data, l.valid) + (" |" + ascii + "|\n")
  {
    hide UpperHex, PadTo, RenderCells;
    RowParts(PadTo(UpperHex(l.address), 4) + ": ", RenderCells(l.data, l.valid), " |" + ascii, "|\n", " |", ascii);
    assert " |" + ascii + "|\n" == (" |" + ascii) + "|\n";
  }

  lemma RowSlices(head: string, cells: string, tail: string, i: nat)
    requires i + 3 <= |cells|
    ensures var row, w := head + ": " + cells + tail, |head|;
      |row| == w + 2 + |cells| + |tail| && row[..w] == head && row[w..w + 2] == ": " &&
      row[w + 2 + i..w + 2 + i + 3] == cells[i..i + 3] && row[w + 2 + |cells|..] == tail
  {
  }

  ghost predicate Known(m: Bytes, address: Word32, k: nat, b: Byte) {
    address + k < WORD && address + k in m && m[address + k] == b
  }

  /** run is the longest stretch of known bytes from address on, within one line. */
  ghost predicate KnownRun(m: Bytes, address: Word32, run: seq<Byte>) {
    |run| <= LINE && address + LINE <= WORD &&
    (forall k :: 0 <= k < |run| ==> Known(m, address, k, run[k])) &&
    (|run| < LINE ==> address + |run| !in m)
  }

  /** Reading a printed row back gives the line's address and exactly the known bytes of the map
      from there up to the first unknown one, whatever the text column shows. */
  lemma RowShowsMap(ls: seq<MemLine>, m: Bytes, i: nat, ascii: string)
    requires Ordered(ls) && Represents(ls, m) && i < |ls|
    ensures ParseHex(RenderRow(ls[i], ascii)) == ls[i].address
    ensures KnownRun(m, ls[i].address,
                     SpacedBytes(RenderCells(ls[i].data, ls[i].valid) + (" |" + ascii + "|\n"), LINE))
  {
    var l := ls[i];
    var cells, rest := RenderCells(l.data, l.valid), " |" + ascii + "|\n";
    assert RenderRow(l, ascii) == PadTo(UpperHex(l.address), 4) + ": " + (cells + rest) by {
      RowParts(PadTo(UpperHex(l.address), 4) + ": ", cells, " |" + ascii, "|\n", " |", ascii);
    }
    RowAddress(l.address, cells + rest, RenderRow(l, ascii));
    assert SpacedBytes(rest, 1) == [] by {
      ColumnIsNoByte(ascii + "|\n");
      assert " |" + (ascii + "|\n") == rest;
    }
    hide SpacedBytes, RenderCells, ParseHex, RenderRow, UpperHex, PadTo;
    ParseUndoesRender(l.data, l.valid, rest, LINE);
    KnownPrefix(l, m);
  }

  lemma RowParts(head: string, cells: string, column: string, end: string, bar: string, ascii: string)
    requires column == bar + ascii
    ensures head + cells + bar + ascii + end == head + (cells + (column + end))
  {
  }

  lemma KnownPrefix(l: MemLine, m: Bytes)
    requires Shaped(l) && LineAgrees(l, m)
    ensures KnownRun(m, l.address, l.data[..FirstGap(l.valid)])
  {
    hide CountTrue;
    TopLine(l.address);
    var run := l.data[..FirstGap(l.valid)];
    forall j | 0 <= j < |run|
      ensures Known(m, l.address, j, run[j])
    {
      assert l.valid[j];
    }
    if |run| < LINE {
      assert !l.valid[|run|];
    }
    hide Known;
  }

  lemma TopLine(a: Word32)
    requires a % 16 == 0
    ensures a + 16 <= WORD
  {
  }

  lemma RowAddress(a: Word32, tail: string, row: string)
    requires row == PadTo(UpperHex(a), 4) + ": " + tail
    ensures ParseHex(row) == a
  {
    hide ParseHex, PadTo, UpperHex;
    AddressRoundTrip(a, ": " + tail);
    assert row == PadTo(UpperHex(a), 4) + (": " + tail);
  }

  lemma ColumnIsNoByte(text: string)
    ensures SpacedBytes(" |" + text, 1) == []
  {
    var t := " |" + text;
    assert t[1..] == "|" + text;
    assert SkipSpaces(t) == "|" + text;
  }
}
