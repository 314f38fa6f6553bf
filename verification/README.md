# rdemonitor: a verified model

`rdemonitor` reads a line-oriented debug stream from an emulator over TCP and keeps live views
of it: an I/O table, CPU registers and a memory map. This project models the stateful core in
Dafny and proves what each part means and that the parts keep that meaning over whole runs.

- `HexText`: the two hexadecimal payload parsers, `parse_hex`, and the snapshot's byte rendering.
- `MemoryLines`, `MemoryHistory`, `MemoryStore`: the sorted, growing array of 16-byte lines,
  proved to be exactly the map from 32-bit address to last byte written.
- `Allocation`: when that array needs memory, and exactly what it holds when it does not get it.
- `Scroll`: the scroll position of the memory tab over any interleaving of messages, scrolls and clears.
- `Snapshot`: a printed memory row against the map it shows.
- `IoHistory`, `IoTable`: the 2048-slot stamped table, proved to be an exact LRU.
- `CpuHistory`, `CpuTable`: the 64-slot table, proved to be the first 64 distinct keys with
  their last values, and its five register shortcuts.
- `LineStream`, `Network`: the receive buffer and line framer, proved independent of chunking.
- `Messages`, `DataStore`: routing of messages to tabs and the message counters.
- `Outage`: the reconnect throttle, outage timer and one-shot reset, with its event trace.
- `Runs`, `Program`: connections, store and outage machine together over whole runs, and the
  globals and event loop of `main.c` that refine them.
- `Highlight`: case-insensitive search and search highlighting.

Each class keeps the fields and loops of the C code (`MemoryData`, `IOData`, `CPUData`,
`NetworkContext`, the globals of `main.c`). Its methods are proved against functions on values,
and the properties of those functions are lemmas. Ghost fields (`Contents`, `Rows`, `Raws`, `Trace`
and the like) hold the abstract value that `Valid()` ties to the real fields.

Main results, each for all inputs and all runs:

1. `Runs.StoreIsRecentLines`: in every run, over any connections, losses and clears, the store is
   the fold of parse-then-process over exactly the lines delivered after the last check that
   cleared it. `Runs.DataSurvives`: between two clears nothing else changes it, so data outlives
   any shorter outage. `Program.Monitor.EventLoop` shows that the event loop of `main.c` makes these
   runs, and `Program.Monitor.ShowsRecentLines` says it of the program's own fields, under any
   allocator.
2. `Runs.LinesStayOnTheirConnection`: every connection delivers the first lines its own peer sent,
   and no line mixes two connections.
3. `Runs.StoreIgnoresChunks`, `Runs.SameBytesSameStore`, `Runs.SentIsStored`,
   `Runs.ShortLinesAreStored`: on any connection of any run, as long as it stays up, the store moves
   by a function of the bytes sent alone, however they were cut, delayed, polled and interleaved with
   attempts and reset checks; and as many passes as there are answers and bytes left get it there, if
   `select` reports what is there.
4. `Outage.ClearedIffDue`, `Outage.OneClearPerOutage`, `Outage.TryAttemptsIff`: when data is
   cleared and connections are tried, as an equivalence on the event trace.
5. `IoHistory.ExactLru` with `IoTable.IOData.GetSorted`: the stamped array is the last 2048
   distinct keys in order of last touch.
6. `MemoryHistory.ReplayHoldsLastWrite` with `MemoryStore.MemoryData.PutByte`, and
   `MemoryLines.Canonical`: bisection, shifting and growth refine a map, and the map fixes the array.
   `Allocation.LinesNeverLoseBytes`: a block that has a line loses nothing, whatever the allocator does.
7. `LineStream.ChunkIndependence`, `LineStream.AllLinesArriveIff`, `LineStream.AllArriveIff`: what the
   framer delivers on a connection that stays up and on one that ends.
8. `CpuHistory.TableIsFirstKeys`, `CpuHistory.QuickIndexIsLastSlot`: what the CPU table and its
   shortcuts hold.
9. `Highlight.DrawWithHighlight` with `Highlight.PictureFromLeft`, and `Snapshot.RowShowsMap`.

Under them, what one line and one message do is stated without the definitions that compute it:
`DataStore.LineIsParsed`, `MessagesAreResults`, `ByteIs` and `DumpIs`, `HexText.PayloadIs` and `NumberIs`,
`Highlight.LettersMatchIff`, `LineStream.CleanIs`, `Scroll.ScrollsBy`.

`Runs.IoOfRun`, `CpuOfRun`, `MemoryOfRun`, `RangeOfRun` and `CountersOfRun` carry 5, 6 and 8 and the
counters over to whole runs.

Conventions. `int` is `Int32` and `uint32_t` is `Word32`, so an assignment that could overflow
would not verify; `byte_addr` wraps modulo 2^32 explicitly. A NULL line array is an array of
length 0. `realloc` succeeds or fails as a parameter says. `recv` answers from a script of
pieces, pauses, closes and errors; a pause is one `recv` that finds nothing although more follows.
The clock is a parameter and needs only to be positive. The JSON parser is any total function from a
line to an optional message within the field limits of `parser.h`. Library calls (`memmove`, `memchr`, `qsort`,
`realloc`) are written out with their usual contracts; for `qsort` only "sorted by stamp and a
permutation" is used, and `OneSortedOrder` shows that this determines the result.

Where code and documentation differ, the code is followed: the receive buffer has 8192 bytes and
the I/O table evicts its oldest stamp, while `DEV_PLAN.md` (lines 86 and 150-152) plans 4096
bytes and a circular buffer.

Results that qualify what the program does. Each names its exact condition and a failing input:

- The address range printed by the snapshot is exact only under the condition of `RangeExactIff`
  (no dump wraps past 0xFFFFFFFF, or both ends of the address space were hit), and before the
  first clear only under that of `InitialRangeIff`, because `datastore_init` leaves the minimum
  at 0. Inputs: `WrappingDumpBreaksRange`, `DumpBeforeClearBreaksRange`.
- A line of more than 8190 bytes stops its connection for good (`StuckForever`); all lines
  arrive if and only if there is none (`AllLinesArriveIff`). Input: `LongLineIsLost`.
- A connection that ends drops complete lines still in the buffer, at most one line being taken
  per call: all lines received are delivered if and only if the buffer held no newline when the
  end was heard (`EndDeliversAllIff`), which `AllArriveIff` reads off what the socket answered
  before. Input: `ClosingLosesLines`.
- A byte is lost exactly when its line does not exist, the number of lines is itself a capacity and
  the allocator refuses (`Allocation.Room`, `PutByte`). Input: `FirstByteNeedsMemory`.
- I/O messages that share a key name the same field if and only if their sections and fields have
  the same lengths (`SharedKeyIff`). Input: `ColonsCollide`.
- A row of the I/O tab keeps the columns of the message that opened it; `RowColumnsIff` says when
  they are those of its last touch. Input: `StaleColumns`, which needs no colon.
- A looked-up CPU slot is the one asked for if and only if the section of the first message with
  its key has the right length (`LookupIsRightIff`), and a register shortcut names one of its
  registers if and only if the field of the first message with the key of the last stored message
  for it has no colon (`QuickSlotRightIff`). Inputs: `LookupCanMislead`, `QuickSlotCanMislead`.
- A scroll lands on data exactly under the condition of `Scroll.Lands`: for
  `datastore_memory_scroll_end`, that a line is visible, or that there is no line and the window
  has height 0. Input: `EndCanMiss`.
- A CRLF line is not delivered like an LF line exactly when it fits and ends in a CR of its own
  (`CrLfLikeLf`). Input: `CrLfCanDiffer`.

## Model

| member | source | states |
|---|---|---|
| HexText.ParseHexData | src/data_store.c:36-52 | the loop returns the bytes of the longest valid prefix of digit pairs, at most the limit |
| HexText.ParseHexDataSpaced | src/data_store.c:478-501 | the nested loops return the digit pairs up to the first fault, skipping blanks between them |
| HexText.RenderLine | src/main.c:156-162 | the snapshot loop prints every valid byte as two digits and every gap as dashes, in order |
| HexText.CellColumns | src/main.c:156-162 | each byte has its own three columns, two digits or two dashes and a blank, also behind a gap |
| Snapshot.RowLayout | src/main.c:151-175 | where address, colon, cells and text column stand in a row |
| HexText.DigitValues | src/data_store.c:43-47 | the value of each of the sixteen digits, in both cases |
| HexText.OnlyHexDigits | src/data_store.c:43-44 | no other character is a digit |
| HexText.PayloadIs | src/data_store.c:36-52 | byte i of a payload is its i-th digit pair, up to the limit or the first place without a pair |
| HexText.SpacedStops | src/data_store.c:478-501 | the spaced parser stops at anything but a blank or a pair |
| HexText.PayloadIgnoresCase | src/data_store.c:43-47 | payloads that differ in the case of letters parse to the same bytes |
| HexText.NumberIgnoresCase | src/data_store.c:29-33 | so do addresses and numbers |
| HexText.NumberIs | src/data_store.c:29-33 | a printed number, plain, signed or with 0x, reads as its low 32 bits, negated if signed so, and as all ones above 64 bits |
| HexText.WhiteIsSkipped | src/data_store.c:29-33 | white space in front of a number is skipped |
| HexText.NoNumber | src/data_store.c:29-33 | a text without a number reads as 0 |
| HexText.PrintsUpperCase | src/main.c:152-158 | bytes and addresses are printed with the upper-case digits of their value |
| HexText.NumberWidth | src/main.c:152 | an address has no digit too many and is filled up to its width |
| HexText.ParseUndoesRender | src/data_store.c:478-501 | parsing a rendered line returns exactly the bytes before its first gap, up to the limit, whatever follows the line |
| Snapshot.RowShowsMap | src/main.c:151-175 | a printed row reads back as the line's address and exactly the map's known bytes from there to the first unknown one |
| HexText.SpacedRoundTrip | src/main.c:156-162 | a fully valid line of any length survives printing and parsing up to the limit |
| HexText.CompactRoundTrip | src/data_store.c:36-52 | the unseparated form of any bytes parses back to them |
| HexText.ParsersAgreeWithoutBlanks | src/data_store.c:478-501 | both payload parsers agree on every text without blanks |
| HexText.CompactParserStopsAtBlank | src/data_store.c:43-49 | the dump parser keeps only the first byte of a rendered line |
| HexText.AddressRoundTrip | src/data_store.c:29-33 | an address printed as in the snapshot reads back as itself, also with the colon after it |
| Highlight.LettersMatchIff | src/ui_tabs.c:27 | two characters match if and only if they are equal or the two cases of one of the 26 letters |
| Highlight.MatchAtIff | src/ui_tabs.c:27-32 | a term occurs where each of its characters matches so |
| Highlight.FindIgnoreCase | src/ui_tabs.c:19-36 | returns the first such occurrence, or none when there is none |
| Highlight.SearchMatch | src/ui_tabs.c:38-43 | true exactly when a non-empty term occurs |
| Highlight.DrawWithHighlight | src/ui_tabs.c:45-80 | prints the whole text and lights exactly the occurrences that overlap no earlier lit one |
| Highlight.HighlightKeepsText | src/ui_tabs.c:61-79 | the printed characters are the text |
| Highlight.SomethingLitIffMatch | src/ui_tabs.c:38-80 | drawing lights something exactly when the search reports a match |
| Highlight.EarlierChosen | src/ui_tabs.c:61-73 | every occurrence is lit or overlaps a lit one that starts no later |
| Highlight.ChosenDisjoint | src/ui_tabs.c:61-73 | lit occurrences never overlap |
| Highlight.ChoiceIgnoresCase | src/ui_tabs.c:27 | replacing letters of text or term by their other case changes neither what occurs where nor the choice |
| Highlight.FindIgnoresCase | src/ui_tabs.c:19-36 | nor what the search returns |
| Highlight.PictureFromLeft | src/ui_tabs.c:61-79 | the picture is the text before the first occurrence plain, the occurrence lit, and then the picture of the rest |
| Highlight.NoTermNoLight | src/ui_tabs.c:52-55 | without a term all is plain |
| MemoryLines.InsertBlank | src/data_store.c:405-415 | opening a line at its place keeps the order and the represented map |
| MemoryLines.StoreRepresents | src/data_store.c:443-448 | storing a byte in its line is exactly one map update |
| MemoryLines.AddressFloor | src/data_store.c:386-398 | line i starts at 16*i or later, so there are at most 2^28 lines |
| MemoryLines.LineIffByte | src/data_store.c:720-738 | a line exists exactly when a byte of its block was stored |
| MemoryLines.Canonical | src/data_store.c:384-449 | stores that hold the same bytes are equal line by line, in whatever order the bytes came |
| MemoryHistory.ReplayHoldsLastWrite | src/data_store.c:420-475 | after any history each address holds the byte last written there, and no other address is valid |
| MemoryHistory.RangeOfReplay | src/data_store.c:430-432 | the stored range is the least start and greatest end of all messages |
| MemoryHistory.RangeExactIff | src/data_store.c:349-360 | after a clear the range is the true range of the stored bytes if and only if nothing wrapped or both ends were hit |
| MemoryHistory.InitialRangeIff | src/data_store.c:746-752 | the same before the first clear, when the minimum starts at 0: exact if and only if address 0 was stored and no wrap hides the top |
| MemoryStore.WrappingDumpBreaksRange | src/data_store.c:420-450 | after a clear, the dump "0102" at "FFFFFFFF" gives the range FFFFFFFF to 0, which is not exact |
| MemoryStore.DumpBeforeClearBreaksRange | src/data_store.c:420-450 | before the first clear, the dump "01" at "0100" leaves the minimum at 0, where nothing is stored |
| MemoryHistory.RangeNamesEndLines | src/main.c:147-149 | an exact range lies in the first and the last line |
| MemoryStore.NextCapacity | src/data_store.c:368-371 | doubling stays within int and reaches the needed size |
| MemoryStore.OneDoublingSuffices | src/data_store.c:368-371 | asked for one more line, one doubling is enough, so the inner loop never runs |
| MemoryStore.OpenSlot | src/data_store.c:405-415 | the shift moves every later line up by one and loses none |
| Allocation.FullIff | src/data_store.c:362-371 | the array is full exactly when the number of its lines is itself a capacity |
| Allocation.LinesAreBlocks | src/data_store.c:384-418 | there are as many lines as blocks of 16 addresses with a stored byte, and they are those blocks |
| Allocation.RoomIff | src/data_store.c:401-403 | whether a byte finds a line depends on the stored bytes and the allocator alone |
| Allocation.WriteUnderAt | src/data_store.c:434-449 | what one message leaves at an address under any allocator |
| Allocation.LinesNeverLoseBytes | src/data_store.c:384-449 | from the time a block has a line each of its addresses holds the last byte written to it, whatever the allocator does |
| Allocation.OnlyWrittenBytes | src/data_store.c:420-475 | under any allocator every stored byte was written at its address by some message |
| Allocation.RangeUnder | src/data_store.c:430-432 | the address range does not depend on the allocator |
| Allocation.ReplaySucceeds | src/data_store.c:362-381 | with memory to be had the history is stored whole |
| Allocation.FirstByteNeedsMemory | src/data_store.c:401-403 | the first byte of all is lost when the allocator refuses |
| MemoryStore.MemoryData.constructor | src/data_store.c:746-752 | starts empty with the range at 0 |
| MemoryStore.MemoryData.Clear | src/data_store.c:349-360 | empties the store, its capacity, its scroll position and its range |
| MemoryStore.MemoryData.EnsureCapacity | src/data_store.c:362-381 | grows without changing the lines; fails exactly when growth is needed and realloc fails, changing nothing |
| MemoryStore.MemoryData.Search | src/data_store.c:386-398 | bisection finds the line or the only place it could go; no index sum overflows |
| MemoryStore.MemoryData.FindOrCreate | src/data_store.c:384-418 | returns the line, inserting a blank one if absent; every other line is kept; fails exactly when full without memory |
| MemoryStore.MemoryData.Mark | src/data_store.c:443-448 | sets one byte, its flag and the count |
| MemoryStore.MemoryData.PutByte | src/data_store.c:435-449 | the store's map gains exactly one entry, or nothing at all changes, exactly when the byte's block has no line, the lines fill a capacity and the allocator refuses |
| MemoryStore.MemoryData.PutBytes | src/data_store.c:434-449 | the bytes are written upwards from the address, wrapping, each kept or lost by that exact condition at its turn |
| MemoryStore.MemoryData.ProcessDump | src/data_store.c:420-450 | a dump stores its bytes so and widens the range, or does nothing without address or bytes |
| MemoryStore.MemoryData.ProcessByte | src/data_store.c:452-475 | a byte message stores its low byte so and widens the range |
| MemoryStore.MemoryData.Process | src/data_store.c:656-668 | exactly dump, read byte and write byte messages change the store; scrolling stays on data |
| MemoryStore.MemoryData.FindAddr | src/data_store.c:720-738 | returns the line around an address exactly when its block was stored, else -1 |
| MemoryStore.MemoryData.ScrollUp | src/data_store.c:671-677 | the position takes the `Up` step of `Scroll` |
| MemoryStore.MemoryData.ScrollDown | src/data_store.c:679-687 | the position takes the `Down` step of `Scroll`, for every window height |
| MemoryStore.MemoryData.ScrollHome | src/data_store.c:699-702 | the position takes the `Home` step of `Scroll` |
| MemoryStore.MemoryData.ScrollEnd | src/data_store.c:704-710 | the position takes the `End` step of `Scroll`, for every window height |
| Scroll.ScrollsBy | src/data_store.c:671-710 | how far each scroll moves and where it stops |
| Scroll.UpUndoesDown | src/data_store.c:671-687 | down and up again is where one started, away from the ends |
| Scroll.ApplyLandsIff | src/data_store.c:671-710 | a scroll, message or clear lands on data if and only if a line is visible, or there is nothing to show in a window of height 0, or the step stays on the lines anyway |
| Scroll.EndCanMiss | src/data_store.c:704-710 | a window without a line: the end of a one-line store is past it |
| Scroll.AlwaysOnDataIff | src/data_store.c:671-710 | over every interleaving the position always names a line if and only if each scroll met that condition when made |
| Scroll.VisibleStaysOnData | src/ui_tabs.c:800-826 | with at least one visible line it never leaves the data |
| MemoryStore.MemoryData.ArithmeticBounds | src/data_store.c:362-415 | in every valid store count and capacity are at most 2^28 and all copying so far moved fewer than 2*count lines |
| Messages.FieldLimits | src/parser.h:12-17 | how long each field of a message can be |
| IoHistory.KeyNotCut | src/data_store.c:153-164 | keys are never truncated |
| IoHistory.DecimalIs | src/data_store.c:159 | an index is printed with decimal digits, none too many, behind a minus only when negative |
| IoHistory.SameRowIff | src/data_store.c:153-164 | which two messages without colons share a row, by section, field, address and index |
| IoHistory.SharedKeyIff | src/data_store.c:153-164 | messages with one key have the same section, field and suffix if and only if sections and fields have the same lengths, which colon-free ones always have |
| IoHistory.ColonsCollide | src/data_store.c:153-164 | "a:b" "c" and "a" "b:c" share a key |
| IoHistory.LastTouchesMembers | src/data_store.c:183-189 | the recency order lists exactly the messages that are the last with their key |
| IoHistory.LastTouchesAscend | src/data_store.c:188-188 | and lists them oldest first |
| IoHistory.ExactLru | src/data_store.c:176-225 | after any history the rows are the last 2048 last-touches in order, each with that message's key, value and time |
| IoHistory.RowCount | src/data_store.c:192-223 | the table holds min(2048, distinct keys) rows |
| IoHistory.ReplayKeeps | src/data_store.c:188-222 | stamps strictly increase along the rows and stay below the next stamp; keys are distinct |
| IoHistory.RowColumnsIff | src/data_store.c:194-222 | a row shows section, field, address and index of its last touch if and only if that message and the one that opened the row agree in the lengths of section and field, in having an address, and then in the index |
| IoHistory.StaleColumns | src/data_store.c:155-199 | address "5" and then index 5, without any colon: the row keeps showing the address |
| IoTable.IOData.constructor | src/data_store.c:146-151 | starts empty |
| IoTable.IOData.Clear | src/data_store.c:146-151 | empties the table and restarts the stamps |
| IoTable.IOData.Find | src/data_store.c:166-174 | finds a slot with the key or shows there is none |
| IoTable.IOData.Oldest | src/data_store.c:206-213 | finds the slot with the least stamp |
| IoTable.IOData.Process | src/data_store.c:176-225 | update, append or evict in place keeps the slots a rearrangement of the touched rows |
| IoTable.IOData.GetSorted | src/data_store.c:235-248 | asked for all entries, returns exactly the rows from least to most recently touched |
| IoTable.OneSortedOrder | src/data_store.c:228-245 | any sort by stamp gives the same list, so ties never decide |
| IoTable.CompareFits | src/data_store.c:228-233 | the comparison's subtraction stays within int and orders the rows |
| CpuHistory.CpuKeyParts | src/data_store.c:267-270 | keys within the parser's limits are never truncated and a colon-free section can be read off |
| CpuHistory.TableIsFirstKeys | src/data_store.c:292-317 | after any history the slots are the first 64 distinct keys with opening section and field and last value |
| CpuHistory.LookupIsLastValue | src/data_store.c:319-329 | a lookup yields the last value, cut to 63, exactly for keys among the first 64 |
| CpuHistory.LookupIsRightIff | src/data_store.c:319-329 | in every history the slot found is that of the field asked for if and only if the first message with the key has a section of its length, its value is that field's if and only if the last such message has, and both hold with colon-free sections |
| CpuHistory.LookupCanMislead | src/data_store.c:319-329 | after "reg" "x:pc" and "reg:x" "pc" a lookup of the second finds a slot of section "reg" |
| CpuHistory.SlotsAreStable | src/data_store.c:299-312 | slots never move or change key, section or field |
| CpuHistory.QuickIndexIsLastSlot | src/data_store.c:282-290 | each shortcut names the slot of the last stored message for its registers, or is -1 when there was none |
| CpuHistory.QuickSlotRightIff | src/data_store.c:282-290 | in every history a shortcut is unset if and only if no message for its registers was stored, and its slot is one of theirs if and only if the first message with the key of the last one stored has a colon-free field |
| CpuHistory.QuickSlotCanMislead | src/data_store.c:282-317 | a history in which the program counter shortcut names the slot of a field "x:pc" |
| CpuTable.CPUData.constructor | src/data_store.c:256-265 | starts empty |
| CpuTable.CPUData.Clear | src/data_store.c:256-265 | empties the table and unsets the shortcuts |
| CpuTable.CPUData.Find | src/data_store.c:272-280 | returns the first slot with the key or -1 |
| CpuTable.CPUData.UpdateQuickAccess | src/data_store.c:282-290 | sets the shortcut of the named register and no other |
| CpuTable.CPUData.Process | src/data_store.c:292-317 | the array takes the step of the specification |
| CpuTable.CPUData.GetEntry | src/data_store.c:319-329 | returns the slot the specification's lookup returns |
| LineStream.CrLfLikeLf | src/network.c:163-176 | a line is delivered alike with CRLF and LF if and only if it does not both fit and end in a CR of its own |
| LineStream.CrLfCanDiffer | src/network.c:163-176 | "x" with a CR of its own is delivered differently with CRLF and LF |
| LineStream.CleanFits | src/network.c:163-176 | a delivered line is a prefix of the line sent, fits the caller's buffer and holds no newline |
| LineStream.CleanIs | src/network.c:163-176 | a line that fits is delivered whole less one CR at its end, and of a longer one as much as fits |
| LineStream.RecvConserves | src/network.c:132-156 | receiving neither loses nor invents bytes |
| LineStream.CallKeeps | src/network.c:125-188 | every call conserves bytes, only appends to the lines delivered, and makes progress or changes nothing |
| LineStream.ResultReports | src/network.c:125-188 | the return code says exactly what the call did; every line returned is progress |
| LineStream.CodesOf | src/network.c:137-149 | a close gives the code for a disconnect and an error that for an error; a full buffer or no data gives neither |
| LineStream.PrefixSafety | src/network.c:131-187 | the lines delivered are the first lines the peer sent, however chopped and whenever it ends |
| LineStream.CallsFallQuiet | src/network.c:131-187 | a finite connection falls quiet within its work bound |
| LineStream.QuietIff | src/network.c:131-161 | a live connection is quiet if and only if no complete line is held and the socket is empty or the buffer full |
| LineStream.QuietDelivers | src/network.c:131-161 | a quiet live connection has delivered exactly the lines before the first over-long one |
| LineStream.ChunkIndependence | src/network.c:125-188 | the lines delivered depend only on the bytes sent, not on pieces or pauses |
| LineStream.AllLinesArriveIff | src/network.c:132-161 | all complete lines arrive if and only if none has more than 8190 characters |
| LineStream.LongLineIsLost | src/network.c:132-161 | a line of 8191 characters is sent and never delivered |
| LineStream.EndDeliversAllIff | src/network.c:137-149 | when the end is heard, this and all later calls have delivered every complete line received if and only if the buffer held no newline |
| LineStream.AllArriveIff | src/network.c:131-187 | on every connection that ends, every complete line arrives if and only if, by what recv answered call by call, no line was left waiting |
| LineStream.AllArriveBeforeEndIff | src/network.c:131-187 | the same read off what the peer sent, when it all fits the buffer |
| LineStream.ClosingLosesLines | src/network.c:137-149 | two lines arrive together and the peer closes: only the first is ever delivered |
| LineStream.RoomForNewline | src/network.c:132 | with no over-long line a newline-free buffer has room while a newline is to come |
| LineStream.StuckForever | src/network.c:132-161 | a full buffer without a newline never delivers again |
| Network.NetworkContext.constructor | src/network.c:18-26 | starts disconnected with an empty buffer |
| Network.NetworkContext.Close | src/network.c:190-198 | disconnects and drops the buffer |
| Network.NetworkContext.Connect | src/network.c:28-88 | a successful connection starts with an empty buffer; a failed one leaves none |
| Network.NetworkContext.Receive | src/network.c:131-156 | bytes are appended within the buffer; close and error disconnect |
| Network.NetworkContext.Take | src/network.c:163-185 | the first line leaves, cut and cleaned, and the rest moves to the front intact |
| Network.NetworkContext.ReadLine | src/network.c:125-188 | the buffer code takes the step and returns the code of the specification |
| DataStore.LineIsParsed | src/main.c:240-253 | a line of text is one message when the parser makes one of it and one more error otherwise |
| DataStore.EmptyLineIsError | src/parser.c:37-43 | an empty line is an error without asking the parser |
| DataStore.NulEndsLine | src/parser.c:37-45 | a NUL ends the line |
| DataStore.MessagesAreResults | src/main.c:240-253 | the messages among lines of text are exactly the parser's results, in order |
| DataStore.DumpIs | src/data_store.c:420-450 | a dump puts the i-th digit pair of its payload at its address plus i, wrapping, and touches nothing else |
| DataStore.ByteIs | src/data_store.c:452-475 | a byte message puts the low 8 bits of its value at its address and touches nothing else |
| DataStore.OthersStoreNothing | src/data_store.c:656-668 | a message of another kind or without an address stores nothing |
| DataStore.FoldIsTabs | src/data_store.c:793-858 | after any lines each tab is the replay of its own messages and nothing else |
| DataStore.Accounting | src/data_store.c:795-848 | modulo 2^64, lines are messages plus parse errors and the tab counters count exactly their messages |
| DataStore.CountersAddUp | src/data_store.c:795-848 | below 2^64 lines the counters add up and no tab counts more than there were messages |
| DataStore.FailureStaysInMemory | src/data_store.c:793-858 | running out of memory shows in the bytes of the memory tab and nowhere else |
| DataStore.MemoryUnder | src/data_store.c:656-668 | under any allocator the memory tab is the replay of its own messages under the answers to them |
| DataStore.Store.constructor | src/data_store.c:746-762 | starts with empty tabs and counters |
| DataStore.Store.Clear | src/data_store.c:769-791 | empties every modelled tab and counter |
| DataStore.Store.Process | src/data_store.c:793-858 | routes a message to its tab and wrapping counter, under any allocator |
| Outage.ConnectedIsClean | src/main.c:212-221 | while connected there is no outage timer and no reset flag |
| Outage.ClearedIffDue | src/main.c:375-387 | a check clears the data if and only if it is the first at least 10 seconds after a loss not yet ended by a reconnection |
| Outage.OneClearPerOutage | src/main.c:375-387 | between two clears the connection came back and was lost again |
| Outage.AttemptsAreSpaced | src/main.c:190-198 | any two connection attempts are at least 3 seconds apart |
| Outage.TryAttemptsIff | src/main.c:184-228 | in every run a pass through try_connect makes an attempt if and only if it is disconnected and every earlier attempt is 3 seconds old, and is connected after it if and only if the peer is reachable |
| Outage.LossIsNoticed | src/main.c:363-371 | in every run a connection found lost is logged, down, and starts the timer |
| Outage.CheckIsLogged | src/main.c:375-387 | in every run each reset check is logged, clearing if and only if a clear is due |
| Outage.ConnectedIff | src/main.c:208-222 | in every run the program is connected if and only if no loss followed its last successful attempt |
| Runs.TraceObeysRules | src/main.c:325-387 | the trace of every run clears exactly where due, spaces attempts and separates losses by reconnections |
| Runs.ConnectAttemptsIff | src/main.c:184-228 | the same of whole runs: exactly then an attempt is made, and a reachable peer opens a session with an empty buffer |
| Runs.EndIsNoticed | src/main.c:359-371 | a ready pass whose next answer ends the connection takes it down, logs the loss and starts the timer |
| Runs.CheckIsMade | src/main.c:375-387 | each reset check empties the store if and only if a clear is due |
| Runs.StepEffect | src/main.c:184-391 | a step whose log shows a cleared check empties the store; any other step, a reconnection included, changes it exactly by the lines it delivers |
| Runs.DataSurvives | src/main.c:315-391 | from any point of a run to any later one with no cleared check between, the store changes exactly by the lines delivered between |
| Runs.StoreIsRecentLines | src/main.c:231-255 | in every run the store is the fold of parse-then-process over exactly the lines delivered after the last cleared check |
| Runs.TabsOfRun | src/main.c:231-255 | in every run each tab is the replay of its own messages since the last clear |
| Runs.IoOfRun | src/data_store.c:176-225 | in every run the I/O tab is the exact LRU of those messages |
| Runs.CpuOfRun | src/data_store.c:282-317 | in every run the CPU tab is the first 64 keys with their last values and each shortcut the slot of the last stored message for its registers |
| Runs.MemoryOfRun | src/data_store.c:420-475 | in every run each address holds the last byte written since the last clear |
| Runs.RangeOfRun | src/data_store.c:349-360 | when the address range of a run is exact, before and after the first clear |
| Runs.CountersOfRun | src/data_store.c:795-848 | in every run the counters account for the lines delivered since the last clear, modulo 2^64 |
| Runs.LinesStayOnTheirConnection | src/network.c:28-88 | over any connects, closes and errors each connection received a prefix of what its own peer sent and delivers the first lines of that |
| Runs.EndedDeliversAllIff | src/network.c:137-149 | a connection of a run that is over received all its peer sent, and delivered every complete line if and only if none was left in the buffer |
| Runs.EarlierConnectionsEnded | src/main.c:184-190 | every connection of a run but the last is over |
| Runs.RunLeavesNoLine | src/main.c:236-254 | between steps no complete line waits in the buffer of a live connection |
| Runs.DataFrozenWhileDown | src/main.c:334-387 | while disconnected the data changes only by a due clear |
| Runs.StaysCleared | src/main.c:375-387 | once cleared the data stays cleared until a reconnection |
| Runs.StoreIgnoresChunks | src/main.c:231-255 | after any run, a connection that stays up moves the store by exactly its delivered lines, and once the socket is empty or the buffer full by its complete cleaned lines, whatever passes, attempts and checks come between |
| Runs.SameBytesSameStore | src/main.c:231-255 | two connections over the same bytes from the same store end with the same store, in any two runs |
| Runs.PollingFallsQuiet | src/main.c:354-361 | with select reporting what is there, any connection is read to its end and quiet after as many passes as it has answers and bytes left, whatever comes between |
| Runs.SentIsStored | src/main.c:325-391 | once the peer pauses, that many passes put exactly the lines it sent into the store |
| Runs.ShortLinesAreStored | src/main.c:231-391 | lines of at most 8190 characters are all stored, and those of at most 4095 without a CR at the end exactly as sent |
| Program.Monitor.constructor | src/main.c:36-39 | starts in the initial state of the runs |
| Program.Monitor.TryConnect | src/main.c:184-228 | throttles, connects and resets the outage state as the run step does; it attempts exactly when every earlier attempt is 3 seconds old |
| Program.Monitor.HandleText | src/main.c:240-253 | stores a parsed line or counts an error, whatever the allocator does |
| Program.Monitor.DrainOne | src/main.c:236-253 | one turn of the drain loop |
| Program.Monitor.ProcessNetworkData | src/main.c:231-255 | the drain loop ends, and delivers and stores exactly the lines of the specification's drain |
| Program.Monitor.Receive | src/main.c:359-372 | processes the data and starts the outage timer on a loss |
| Program.Monitor.Service | src/main.c:359-372 | the network part of a pass is one step of the run |
| Program.Monitor.CheckReset | src/main.c:375-387 | clears the store once when the outage is old enough |
| Program.Monitor.Pass | src/main.c:325-387 | a pass of the event loop is the three run steps in order |
| Program.Monitor.EventLoop | src/main.c:315-391 | the first attempt and any number of passes lead to the state of the run made of their steps, under any allocator |
| Program.Monitor.ShowsRecentLines | src/main.c:231-391 | in every state the program reaches its store is exactly the fold over the lines delivered since the last cleared check under the allocator's answers, and that of the run but for bytes the allocator lost |
| Program.ShownMemory | src/data_store.c:384-475 | in every such state the memory tab is the replay of the bytes written since the last clear under those answers |

## Left out

- The JSON grammar and cJSON (`src/parser.c`): the parser is any function within the field limits.
- The info, text-screen, annunciator, disassembly, CPU-stack, memory-flag, zero-page and
  stack-page handlers: they only copy fields; their messages are still routed and counted.
- Logging, snapshots other than the byte rendering, configuration, signals, curses layout and keys.
- The reconnect-attempt counter: its limit is 0, which means none, so it decides nothing.
- Address resolution and `select`: whether a connection succeeds and data is ready are inputs.
- IoTable.IOData.Process: requires a stamp below 2^31 - 1, because the stamp is an `int` whose
  overflow is undefined.
- Program.Monitor.EventLoop: requires the same and no more: that no pass of the run brings the io
  messages since the last clear above 2^31 - 1. Keys pressed between passes are not part of it.
- MemoryStore.MemoryData.ScrollDown: requires that the step and the window height do not overflow `int`.
- MemoryStore.MemoryData.ScrollEnd: requires that the window height does not overflow `int`.
- LineStream.AllArriveBeforeEndIff: is stated for connections of fewer than 8191 bytes, where no
  answer is split; AllArriveIff has no such bound.
- IoTable.IOData.GetSorted: returns the entries themselves where the program returns pointers to them.
- Highlight.DrawWithHighlight: NULL arguments behave as empty ones, and cells stand for curses calls.
