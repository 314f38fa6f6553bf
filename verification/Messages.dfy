/** One parsed message (parser.h). The JSON grammar is not part of this model: a parser is any
    total function from a line to an optional message that respects the field limits. */
module Messages {
  import opened Basics

  datatype Fields = Fields(
    emu: string, cat: string, sec: string, fld: string, val: string, addr: string,
    idx: Int32, ts: int, hasAddr: bool, hasIdx: bool)

  /** The buffer sizes of ParsedData, each less its terminator, and the defaults of the optional
      fields. */
  predicate Fits(d: Fields) {
    |d.emu| <= 15 && |d.cat| <= 15 && |d.sec| <= 31 && |d.fld| <= 31 && |d.val| <= 511 && |d.addr| <= 15 &&
    (!d.hasAddr ==> d.addr == "") && (!d.hasIdx ==> d.idx == -1)
  }

  type ParsedData = d: Fields | Fits(d)
    witness Fields("", "", "", "", "", "", -1, -1, false, false)

  /** Fields as long as the buffers allow fit, and any longer one does not. */
  lemma FieldLimits(c: char, n: nat)
    ensures Fits(Fields(seq(15, _ => c), seq(15, _ => c), seq(31, _ => c), seq(31, _ => c), seq(511, _ => c),
                        seq(15, _ => c), 0, 0, true, true))
    ensures Fits(Fields(seq(n, _ => c), "", "", "", "", "", -1, -1, false, false)) <==> n <= 15
    ensures Fits(Fields("", seq(n, _ => c), "", "", "", "", -1, -1, false, false)) <==> n <= 15
    ensures Fits(Fields("", "", seq(n, _ => c), "", "", "", -1, -1, false, false)) <==> n <= 31
    ensures Fits(Fields("", "", "", seq(n, _ => c), "", "", -1, -1, false, false)) <==> n <= 31
    ensures Fits(Fields("", "", "", "", seq(n, _ => c), "", -1, -1, false, false)) <==> n <= 511
    ensures Fits(Fields("", "", "", "", "", seq(n, _ => c), -1, -1, true, false)) <==> n <= 15
  {
  }

  type Parser = string -> Option<ParsedData>

  /** parser_parse_line refuses an empty line and reads up to the first NUL. */
  function Accept(parse: Parser, line: string): Option<ParsedData> {
    if CString(line) == "" then None else parse(CString(line))
  }
}
