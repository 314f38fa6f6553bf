/** One connection as a sequence of read calls: bytes come from the kernel in arbitrary pieces,
    pass through a buffer of 8191 bytes and leave as lines (network.c, network_read_line). */
module LineStream {
  import opened Basics

  const ROOM := 8191       // NETWORK_RECV_BUFFER_SIZE less the terminator
  const NL := '\n'

  // ---------------------------------------------------------------- the socket

  type Chunk = s: string | s != "" witness "x"

  /** What recv can answer. */
  datatype Answer = Data(bytes: Chunk) | WouldBlock | Closed | Failed

  /** recv with room free bytes: a longer piece is split, and a closed or broken socket stays so. */
  function Recv(script: seq<Answer>, room: nat): (r: (Answer, seq<Answer>))
    requires room > 0
    ensures r.0.Data? ==> |r.0.bytes| <= room
  {
    if script == [] then (WouldBlock, [])
    else
      match script[0]
      case Data(bs) =>
        if |bs| <= room then (script[0], script[1..])
        else (Data(bs[..room]), [Data(bs[room..])] + script[1..])
      case WouldBlock => (WouldBlock, script[1..])
      case Closed => (Closed, script)
      case Failed => (Failed, script)
  }

  function Bytes(a: Answer): string {
    if a.Data? then a.bytes else ""
  }

  /** Everything the peer still has to send before the connection ends. */
  function Pending(script: seq<Answer>): string {
    if script == [] || script[0].Closed? || script[0].Failed? then ""
    else Bytes(script[0]) + Pending(script[1..])
  }

  lemma {:induction false} RecvConserves(script: seq<Answer>, room: nat)
    requires room > 0
    ensures var (a, rest) := Recv(script, room);
      Pending(script) == Bytes(a) + Pending(rest)
  {
    if script != [] && script[0].Data? {
      var bs, t := script[0].bytes, script[1..];
      assert script == [script[0]] + t;
      PendingCons(script[0], t);
      if |bs| > room {
        PendingCons(Data(bs[room..]), t);
        hide Pending;
        Assoc(bs[..room], bs[room..], Pending(t));
        assert bs == bs[..room] + bs[room..];
      }
    }
  }

  lemma PendingCons(a: Answer, rest: seq<Answer>)
    requires a.Data?
    ensures Pending([a] + rest) == a.bytes + Pending(rest)
  {
    assert ([a] + rest)[1..] == rest;
  }

  lemma Assoc(a: string, b: string, c: string)
    ensures a + (b + c) == (a + b) + c
  {
  }

  predicate Open(script: seq<Answer>) {
    forall i :: 0 <= i < |script| ==> script[i].Data? || script[i].WouldBlock?
  }

  // ---------------------------------------------------------------- lines

  predicate NoNewline(s: string) {
    NL !in s
  }

  /** The newline-terminated lines of s, without their newlines. */
  function Lines(s: string): seq<string> {
    var k := IndexOf(s, NL);
    if k == |s| then [] else [s[..k]] + Lines(s[k + 1..])
  }

  function Unsplit(ls: seq<string>): string {
    if ls == [] then "" else ls[0] + [NL] + Unsplit(ls[1..])
  }

  ghost predicate AllNoNewline(ls: seq<string>) {
    forall i :: 0 <= i < |ls| ==> NoNewline(ls[i])
  }

  lemma LinesOne(l: string, rest: string)
    requires NoNewline(l)
    ensures Lines(l + [NL] + rest) == [l] + Lines(rest)
  {
    var s := l + [NL] + rest;
    assert s[|l|] == NL && forall i :: 0 <= i < |l| ==> s[i] == l[i];
    IndexOfUnique(s, NL, |l|);
    assert s[..|l|] == l && s[|l| + 1..] == rest;
  }

  lemma LinesNone(s: string)
    requires NoNewline(s)
    ensures Lines(s) == []
  {
    IndexOfUnique(s, NL, |s|);
  }

  /** Splitting undoes joining. */
  lemma {:induction false} LinesOfUnsplit(ls: seq<string>, rest: string)
    requires AllNoNewline(ls)
    ensures Lines(Unsplit(ls) + rest) == ls + Lines(rest)
  {
    if ls == [] {
      assert Unsplit(ls) + rest == rest;
    } else {
      UnsplitCons(ls);
      hide Lines, Unsplit, NoNewline, AllNoNewline;
      LinesOfUnsplit(ls[1..], rest);
      LinesOne(ls[0], Unsplit(ls[1..]) + rest);
      Assoc(ls[0] + [NL], Unsplit(ls[1..]), rest);
      ConsAssoc(ls, Lines(rest));
    }
  }

  lemma UnsplitCons(ls: seq<string>)
    requires ls != [] && AllNoNewline(ls)
    ensures NoNewline(ls[0]) && AllNoNewline(ls[1..])
    ensures Unsplit(ls) == ls[0] + [NL] + Unsplit(ls[1..])
  {
    hide NoNewline;
  }

  lemma ConsAssoc(ls: seq<string>, rest: seq<string>)
    requires ls != []
    ensures ls + rest == [ls[0]] + (ls[1..] + rest)
  {
  }

  lemma {:induction false} UnsplitSnoc(ls: seq<string>, l: string)
    ensures Unsplit(ls + [l]) == Unsplit(ls) + l + [NL]
  {
    if ls == [] {
      assert [] + [l] == [l];
      assert Unsplit([l]) == l + [NL] + Unsplit([l][1..]);
    } else {
      UnsplitSnoc(ls[1..], l);
      assert (ls + [l])[1..] == ls[1..] + [l];
    }
  }

  /** The lines up to the first that cannot fit in the buffer with its newline. */
  function Fitting(ls: seq<string>): seq<string> {
    if ls == [] || |ls[0]| >= ROOM then [] else [ls[0]] + Fitting(ls[1..])
  }

  predicate AllFit(ls: seq<string>) {
    forall i :: 0 <= i < |ls| ==> |ls[i]| < ROOM
  }

  lemma {:induction false} FittingOfFit(ls: seq<string>, rest: seq<string>)
    requires AllFit(ls) && (rest == [] || |rest[0]| >= ROOM)
    ensures Fitting(ls + rest) == ls
  {
    if ls == [] {
      assert ls + rest == rest;
    } else {
      FittingOfFit(ls[1..], rest);
      assert (ls + rest)[1..] == ls[1..] + rest;
    }
  }

  lemma {:induction false} FittingIffFit(ls: seq<string>)
    ensures Fitting(ls) == ls <==> AllFit(ls)
  {
    if ls != [] {
      FittingIffFit(ls[1..]);
      assert ls == [ls[0]] + ls[1..];
      if AllFit(ls[1..]) && |ls[0]| < ROOM {
        assert forall i :: 0 < i < |ls| ==> ls[i] == ls[1..][i - 1];
      }
      if AllFit(ls) {
        assert forall i :: 0 <= i < |ls[1..]| ==> ls[1..][i] == ls[i + 1];
      }
    }
  }

  /** What the caller is given for a line: cut to its buffer, then one trailing CR dropped. */
  function Clean(raw: string, maxLen: nat): string
    requires maxLen >= 1
  {
    var c := Cut(raw, maxLen - 1);
    if c != "" && c[|c| - 1] == '\r' then c[..|c| - 1] else c
  }

  /** A line sent with CRLF is delivered like one sent with LF, unless it ends in a CR of its own
      and the whole of it fits. */
  lemma CrLfLikeLf(l: string, maxLen: nat)
    requires maxLen >= 1
    ensures Clean(l + "\r", maxLen) == Clean(l, maxLen)
       <==> |l| >= maxLen - 1 || l == "" || l[|l| - 1] != '\r'
  {
    var r := l + "\r";
    if |l| >= maxLen - 1 {
      assert Cut(r, maxLen - 1) == Cut(l, maxLen - 1);
    } else {
      assert Clean(r, maxLen) == l;
    }
  }

  /** A line that fits the caller's buffer is delivered whole, less one CR at its end; of a longer
      one as much as fits, likewise. */
  lemma CleanIs(l: string, maxLen: nat)
    requires maxLen >= 1
    ensures |l| < maxLen && (l == "" || l[|l| - 1] != '\r') ==> Clean(l, maxLen) == l
    ensures |l| < maxLen && l != "" && l[|l| - 1] == '\r' ==> Clean(l, maxLen) == l[..|l| - 1]
    ensures |l| >= maxLen ==>
      Clean(l, maxLen) == if maxLen > 1 && l[maxLen - 2] == '\r' then l[..maxLen - 2] else l[..maxLen - 1]
  {
    if |l| >= maxLen {
      assert maxLen > 1 ==> l[..maxLen - 1][..maxLen - 2] == l[..maxLen - 2];
    }
  }

  /** A failing input: "x" and a CR of its own, sent with CRLF, keeps the CR; sent with LF it
      loses it. */
  lemma CrLfCanDiffer()
    ensures Clean("x\r" + "\r", 4096) == "x\r" && Clean("x\r", 4096) == "x"
  {
    assert "x\r" + "\r" == ['x', '\r', '\r'];
  }

  /** A delivered line fits its buffer and holds no newline. */
  lemma CleanFits(raw: string, maxLen: nat)
    requires maxLen >= 1 && NoNewline(raw)
    ensures |Clean(raw, maxLen)| < maxLen && NoNewline(Clean(raw, maxLen)) && Clean(raw, maxLen) <= raw
  {
  }

  function CleanAll(raws: seq<string>, maxLen: nat): seq<string>
    requires maxLen >= 1
  {
    seq(|raws|, i requires 0 <= i < |raws| => Clean(raws[i], maxLen))
  }

  // ---------------------------------------------------------------- calls

  /** One connection: the buffer, the socket, and what has gone in and come out so far. */
  datatype Session = Session(
    buf: string, script: seq<Answer>, connected: bool, received: string, raws: seq<string>)

  datatype Outcome = Line(raw: string) | NoData | Disconnected | Error

  function Fresh(script: seq<Answer>): (s: Session)
    ensures Sound(s) && Stream(s) == Pending(script)
  {
    Session("", script, true, "", [])
  }

  /** The receiving half of a call, when there is room. */
  function Fill(s: Session): Session
    requires |s.buf| <= ROOM
  {
    if |s.buf| == ROOM then s
    else
      var (a, rest) := Recv(s.script, ROOM - |s.buf|);
      s.(buf := s.buf + Bytes(a), script := rest, received := s.received + Bytes(a),
         connected := !a.Closed? && !a.Failed?)
  }

  /** The answer of recv in this call. */
  function Heard(s: Session): Answer
    requires |s.buf| <= ROOM
  {
    if |s.buf| == ROOM then WouldBlock else Recv(s.script, ROOM - |s.buf|).0
  }

  /** The line half of a call. */
  function Pop(s: Session): Session {
    var k := IndexOf(s.buf, NL);
    if k == |s.buf| then s else s.(buf := s.buf[k + 1..], raws := s.raws + [s.buf[..k]])
  }

  /** The session after one call of network_read_line. */
  function Call(s: Session): Session
    requires |s.buf| <= ROOM
  {
    if !s.connected then s
    else
      var f := Fill(s);
      if f.connected then Pop(f) else f
  }

  /** What the call returns. */
  function Result(s: Session): Outcome
    requires |s.buf| <= ROOM
  {
    if !s.connected || Heard(s).Closed? then Disconnected
    else if Heard(s).Failed? then Error
    else
      var b := Fill(s).buf;
      var k := IndexOf(b, NL);
      if k == |b| then NoData else Line(b[..k])
  }

  /** Conservation: what came in is what went out followed by what is held. */
  ghost predicate Sound(s: Session) {
    s.received == Unsplit(s.raws) + s.buf && |s.buf| <= ROOM &&
    AllNoNewline(s.raws) && AllFit(s.raws)
  }

  /** All bytes of the connection: those received and those still to come. */
  ghost function Stream(s: Session): string {
    s.received + Pending(s.script)
  }

  /** Room for bytes, lines and changes a session has left. */
  function Work(s: Session): nat {
    |s.script| + 2 * |Pending(s.script)| + |s.buf| + if s.connected then 1 else 0
  }

  lemma FillKeeps(s: Session)
    requires Sound(s) && s.connected
    ensures Sound(Fill(s)) && Stream(Fill(s)) == Stream(s) && Fill(s).raws == s.raws
    ensures Fill(s) == s || Work(Fill(s)) < Work(s)
    ensures Fill(s).connected <==> !Heard(s).Closed? && !Heard(s).Failed?
  {
    if |s.buf| < ROOM {
      var room := ROOM - |s.buf|;
      var (a, rest) := Recv(s.script, room);
      RecvConserves(s.script, room);
      RecvWorks(s.script, room);
      Assoc(s.received, Bytes(a), Pending(rest));
      Assoc(Unsplit(s.raws), s.buf, Bytes(a));
      hide Recv, Pending, Unsplit, AllNoNewline, AllFit;
    }
  }

  /** recv uses up the script, or has nothing to say. */
  lemma RecvWorks(script: seq<Answer>, room: nat)
    requires room > 0
    ensures var (a, rest) := Recv(script, room);
      |rest| <= |script| &&
      (|rest| < |script| || a.Data? || a.Closed? || a.Failed? || (script == [] && rest == []))
  {
  }

  lemma PopKeeps(s: Session)
    requires Sound(s)
    ensures Sound(Pop(s)) && Stream(Pop(s)) == Stream(s) && s.raws <= Pop(s).raws
    ensures Pop(s) == s || Work(Pop(s)) < Work(s)
    ensures Pop(s) == s <==> NoNewline(s.buf)
  {
    var k := IndexOf(s.buf, NL);
    if k < |s.buf| {
      PopConserves(s);
      PopFits(s);
      hide Sound, AllNoNewline, AllFit, Unsplit, Pending;
    }
  }

  lemma PopConserves(s: Session)
    requires s.received == Unsplit(s.raws) + s.buf
    ensures s.received == Unsplit(Pop(s).raws) + Pop(s).buf
  {
    var k := IndexOf(s.buf, NL);
    if k < |s.buf| {
      var l, rest := s.buf[..k], s.buf[k + 1..];
      assert s.buf == l + [NL] + rest;
      hide Unsplit, NoNewline, IndexOf;
      UnsplitSnoc(s.raws, l);
      Regroup(Unsplit(s.raws), l, rest);
    }
  }

  lemma Regroup(a: string, l: string, rest: string)
    ensures a + (l + [NL] + rest) == (a + l + [NL]) + rest
  {
  }

  lemma PopFits(s: Session)
    requires Sound(s)
    ensures Sound(Pop(s))
  {
    PopConserves(s);
    hide Unsplit;
  }

  /** Every call conserves the stream, only adds to the lines delivered, and either leaves less
      to do or changes nothing. */
  lemma {:induction false} CallKeeps(s: Session)
    requires Sound(s)
    ensures Sound(Call(s)) && Stream(Call(s)) == Stream(s) && s.raws <= Call(s).raws
    ensures Call(s) == s || Work(Call(s)) < Work(s)
  {
    if s.connected {
      FillKeeps(s);
      PopKeeps(Fill(s));
      hide Sound, Stream, Work, Fill, Pop;
    }
  }

  /** The return value reports exactly what the call did. */
  lemma {:induction false} ResultReports(s: Session)
    requires Sound(s)
    ensures match Result(s)
      case Line(raw) => Call(s).raws == s.raws + [raw] && Call(s).connected && Work(Call(s)) < Work(s)
      case NoData => Call(s).raws == s.raws && Call(s).connected && NoNewline(Call(s).buf)
      case Disconnected => Call(s).raws == s.raws && !Call(s).connected
      case Error => Call(s).raws == s.raws && !Call(s).connected
  {
    if s.connected {
      FillKeeps(s);
      PopKeeps(Fill(s));
      hide Sound, Stream, Work;
    }
  }

  /** Which answer of recv gives which code: an end is told apart from an error, and neither is
      heard over a connection that is already down or a buffer that holds 8191 characters. */
  lemma CodesOf(s: Session)
    requires Sound(s)
    ensures !s.connected ==> Result(s) == Disconnected
    ensures s.connected && |s.buf| < 8191 && s.script != [] && s.script[0] == Closed ==> Result(s) == Disconnected
    ensures s.connected && |s.buf| < 8191 && s.script != [] && s.script[0] == Failed ==> Result(s) == Error
    ensures s.connected && (|s.buf| == 8191 || s.script == [] || s.script[0].Data? || s.script[0].WouldBlock?) ==>
      Result(s).NoData? || Result(s).Line?
  {
    hide Unsplit, AllNoNewline, AllFit;
  }

  // ---------------------------------------------------------------- whole connections

  /** The session after n calls. */
  function Calls(s: Session, n: nat): Session
    requires Sound(s)
    ensures Sound(Calls(s, n))
    decreases n
  {
    if n == 0 then s
    else
      CallKeeps(Calls(s, n - 1));
      Call(Calls(s, n - 1))
  }

  lemma {:induction false} CallsKeep(s: Session, n: nat)
    requires Sound(s)
    ensures Stream(Calls(s, n)) == Stream(s) && s.raws <= Calls(s, n).raws
  {
    if n > 0 {
      CallsKeep(s, n - 1);
      CallKeeps(Calls(s, n - 1));
      hide Sound, Stream, Call;
    }
  }

  lemma {:induction false} SoundLines(s: Session)
    requires Sound(s)
    ensures Lines(Stream(s)) == s.raws + Lines(s.buf + Pending(s.script))
  {
    LinesOfUnsplit(s.raws, s.buf + Pending(s.script));
    Assoc(Unsplit(s.raws), s.buf, Pending(s.script));
  }

  /** However a connection is chopped and whenever it ends, the lines delivered are the first
      lines the peer sent on it, whole and in order. */
  lemma {:induction false} PrefixSafety(script: seq<Answer>, n: nat)
    ensures Calls(Fresh(script), n).raws <= Lines(Pending(script))
  {
    CallsKeep(Fresh(script), n);
    SoundLines(Calls(Fresh(script), n));
  }

  /** Nothing more can happen: another call would change nothing. */
  predicate Quiet(s: Session)
    requires |s.buf| <= ROOM
  {
    Call(s) == s
  }

  lemma CallsStep(s: Session, n: nat)
    requires Sound(s) && n > 0
    ensures Calls(s, n) == Call(Calls(s, n - 1))
  {
  }

  lemma CallsStart(s: Session)
    requires Sound(s)
    ensures Calls(s, 0) == s
  {
  }

  /** A connection falls quiet within its work bound. */
  lemma {:induction false} CallsFallQuiet(s: Session, n: nat)
    requires Sound(s)
    ensures n >= Work(s) ==> Quiet(Calls(s, n))
    ensures Quiet(Calls(s, n)) || Work(Calls(s, n)) + n <= Work(s)
    decreases n
  {
    hide Sound, Stream, Call, Work, Calls;
    if n > 0 {
      CallsFallQuiet(s, n - 1);
      CallKeeps(Calls(s, n - 1));
      CallsStep(s, n);
    } else {
      CallsStart(s);
    }
    CallKeeps(Calls(s, n));
  }

  /** While the connection is up, quiet means: no complete line is held, and either everything
      has been received or the buffer is full. */
  lemma QuietMeans(s: Session)
    requires Sound(s) && s.connected && Quiet(s)
    ensures NoNewline(s.buf) && (s.script == [] || |s.buf| == ROOM)
  {
    FillKeeps(s);
    PopKeeps(Fill(s));
    if |s.buf| < ROOM {
      RecvWorks(s.script, ROOM - |s.buf|);
    }
  }

  /** The socket has nothing more to say, or the buffer no room for it. */
  predicate AllRead(s: Session) {
    s.script == [] || |s.buf| == ROOM
  }

  /** A live connection is quiet if and only if no complete line is held and all is read. */
  lemma {:induction false} QuietIff(s: Session)
    requires Sound(s) && s.connected
    ensures Quiet(s) <==> NoNewline(s.buf) && AllRead(s)
  {
    if Quiet(s) {
      QuietMeans(s);
    } else if AllRead(s) {
      assert s.buf + "" == s.buf && s.received + "" == s.received;
      FillKeeps(s);
      PopKeeps(Fill(s));
      assert Fill(s) == s;
    }
    hide Sound, Stream, Work;
  }

  /** What a live connection has delivered once it is quiet: exactly the lines before the first
      one too long for the buffer. */
  lemma {:induction false} QuietDelivers(s: Session)
    requires Sound(s) && s.connected && Quiet(s)
    ensures s.raws == Fitting(Lines(Stream(s)))
  {
    QuietMeans(s);
    SoundLines(s);
    var rest := s.buf + Pending(s.script);
    if s.script == [] {
      assert rest == s.buf;
      LinesNone(rest);
    } else {
      LongLine(s.buf, Pending(s.script));
    }
    FittingOfFit(s.raws, Lines(rest));
  }

  lemma LongLine(buf: string, pending: string)
    requires NoNewline(buf)
    ensures Lines(buf + pending) == [] || |Lines(buf + pending)[0]| >= |buf|
  {
    var s := buf + pending;
    assert forall i :: 0 <= i < |buf| ==> s[i] == buf[i];
    assert IndexOf(s, NL) >= |buf|;
  }

  /** A failing input: a line of 8191 characters is sent whole and never delivered. */
  lemma LongLineIsLost(n: nat)
    ensures var script := [Data(seq(8191, _ => 'x') + [NL])];
      Lines(Pending(script)) == [seq(8191, _ => 'x')] &&
      (n >= Work(Fresh(script)) ==> Calls(Fresh(script), n).raws == [])
  {
    var l := seq(8191, _ => 'x');
    var script := [Data(l + [NL])];
    assert l + [NL] + "" == l + [NL];
    LinesOne(l, "");
    LinesNone("");
    assert Pending(script) == l + [NL] by { assert script[1..] == []; }
    if n >= Work(Fresh(script)) {
      ChunkIndependence(script, n);
    }
  }

  /** If no line is too long, a buffer without a newline has room as long as one is to come. */
  lemma RoomForNewline(s: Session)
    requires Sound(s) && AllFit(Lines(Stream(s))) && NoNewline(s.buf) && NL in Pending(s.script)
    ensures |s.buf| < ROOM
  {
    SoundLines(s);
    var rest := s.buf + Pending(s.script);
    LinesSome(rest);
    assert Lines(Stream(s))[|s.raws|] == Lines(rest)[0];
    LongLine(s.buf, Pending(s.script));
  }

  lemma LinesSome(s: string)
    requires NL in s
    ensures Lines(s) != []
  {
  }

  /** More answers behind an open script are heard; behind a close or an error they are not. */
  lemma {:induction false} PendingAppend(a: seq<Answer>, b: seq<Answer>)
    ensures Pending(a + b) == if Open(a) then Pending(a) + Pending(b) else Pending(a)
    ensures Open(a + b) <==> Open(a) && Open(b)
  {
    if a == [] {
      assert a + b == b;
    } else {
      assert (a + b)[1..] == a[1..] + b;
      OpenCons(a);
      OpenCons(a + b);
      hide Open;
      if a[0].Data? || a[0].WouldBlock? {
        PendingAppend(a[1..], b);
        Assoc(Bytes(a[0]), Pending(a[1..]), Pending(b));
      }
    }
  }

  lemma OpenCons(a: seq<Answer>)
    requires a != []
    ensures Open(a) <==> (a[0].Data? || a[0].WouldBlock?) && Open(a[1..])
  {
    assert a == [a[0]] + a[1..];
  }

  /** No call can make a script end, or outlive its end. */
  lemma CallKeepsOpen(s: Session)
    requires |s.buf| <= ROOM
    ensures Open(Call(s).script) <==> Open(s.script)
  {
    if s.connected && |s.buf| < ROOM && s.script != [] {
      var (a, rest) := Recv(s.script, ROOM - |s.buf|);
      OpenCons(s.script);
      if rest != [] {
        OpenCons(rest);
        assert rest == s.script || rest == s.script[1..] || rest[1..] == s.script[1..];
      }
      hide Open;
    }
  }

  lemma {:induction false} OpenStaysUp(s: Session, n: nat)
    requires Sound(s) && s.connected && Open(s.script)
    ensures Calls(s, n).connected && Open(Calls(s, n).script)
  {
    if n > 0 {
      OpenStaysUp(s, n - 1);
      CallStaysUp(Calls(s, n - 1));
    }
  }

  lemma CallStaysUp(s: Session)
    requires |s.buf| <= ROOM && s.connected && Open(s.script)
    ensures Call(s).connected && Open(Call(s).script)
  {
    if |s.buf| < ROOM {
      var (a, rest) := Recv(s.script, ROOM - |s.buf|);
      assert Open(rest) && !a.Closed? && !a.Failed?;
    }
  }

  /** Chunk independence. On a connection that stays up, whatever the pieces and pauses, the
      lines delivered once all is quiet depend only on the bytes sent: they are its complete
      lines up to the first of more than 8190 bytes. */
  lemma {:induction false} ChunkIndependence(script: seq<Answer>, n: nat)
    requires Open(script) && n >= Work(Fresh(script))
    ensures Calls(Fresh(script), n).raws == Fitting(Lines(Pending(script)))
  {
    var s := Fresh(script);
    OpenStaysUp(s, n);
    CallsFallQuiet(s, n);
    CallsKeep(s, n);
    QuietDelivers(Calls(s, n));
  }

  /** All complete lines arrive if and only if none has more than 8190 characters. */
  lemma {:induction false} AllLinesArriveIff(script: seq<Answer>, n: nat)
    requires Open(script) && n >= Work(Fresh(script))
    ensures var ls := Lines(Pending(script));
      Calls(Fresh(script), n).raws == ls <==> forall i :: 0 <= i < |ls| ==> |ls[i]| <= 8190
  {
    ChunkIndependence(script, n);
    FittingIffFit(Lines(Pending(script)));
    hide Calls, Lines, Pending, Work, Fitting, Open;
    assert ROOM == 8191;
  }

  /** A full buffer without a newline is final: the connection delivers nothing ever again. */
  lemma {:induction false} StuckForever(s: Session, n: nat)
    requires Sound(s) && s.connected && |s.buf| == ROOM && NoNewline(s.buf)
    ensures Calls(s, n) == s && Result(s) == NoData
  {
    IndexOfUnique(s.buf, NL, |s.buf|);
    if n > 0 {
      StuckForever(s, n - 1);
    }
  }

  // ---------------------------------------------------------------- when the connection ends

  /** When a call hears that the connection is over, what was received but not yet delivered is
      lost: this and all later calls have delivered every complete line received if and only if
      the buffer held no newline. */
  lemma {:induction false} EndDeliversAllIff(s: Session, n: nat)
    requires Sound(s) && s.connected && n >= 1
    requires Heard(s).Closed? || Heard(s).Failed?
    ensures Calls(s, n) == Call(s) && !Call(s).connected
    ensures Calls(s, n).raws == Lines(s.received) <==> NoNewline(s.buf)
  {
    EndStays(s, n);
    LinesOfUnsplit(s.raws, s.buf);
    if NoNewline(s.buf) {
      LinesNone(s.buf);
    } else {
      LinesSome(s.buf);
    }
  }

  lemma {:induction false} EndStays(s: Session, n: nat)
    requires Sound(s) && s.connected && n >= 1
    requires Heard(s).Closed? || Heard(s).Failed?
    ensures Calls(s, n) == Call(s) && Call(s).raws == s.raws && !Call(s).connected
  {
    CallsStart(s);
    CallsStep(s, n);
    if n > 1 {
      EndStays(s, n - 1);
    }
  }

  /** A failing input: two lines arrive together and the peer closes; only the first is
      delivered, however often the program reads. */
  lemma ClosingLosesLines(n: nat)
    requires n >= 2
    ensures var script := [Data("a\nb\n"), Closed];
      Lines(Pending(script)) == ["a", "b"] && Calls(Fresh(script), n).raws == ["a"]
  {
    var script := [Data("a\nb\n"), Closed];
    TwoSent(script);
    FirstOfTwo(script);
    EndAfterFirst(script, n);
    hide *;
  }

  lemma EndAfterFirst(script: seq<Answer>, n: nat)
    requires n >= 2
    requires var s := Call(Fresh(script)); Sound(s) && s.connected && Heard(s).Closed?
    ensures Calls(Fresh(script), n).raws == Call(Fresh(script)).raws
  {
    hide Call, Calls, Pending, Sound, Heard;
    CallsStart(Fresh(script));
    CallsStep(Fresh(script), 1);
    LaterCalls(Fresh(script), 1, n);
    EndStays(Call(Fresh(script)), n - 1);
  }

  lemma TwoSent(script: seq<Answer>)
    requires script == [Data("a\nb\n"), Closed]
    ensures Lines(Pending(script)) == ["a", "b"]
  {
    TwoLines();
    assert script[1..] == [Closed] && Pending([Closed]) == "";
    hide Lines;
    var text := "a\nb\n";
    assert text + "" == text;
  }

  lemma FirstOfTwo(script: seq<Answer>)
    requires script == [Data("a\nb\n"), Closed]
    ensures var s := Call(Fresh(script));
      Sound(s) && s.connected && s.raws == ["a"] && Heard(s).Closed?
  {
    TwoLines();
    CallKeeps(Fresh(script));
    var text: Chunk := "a\nb\n";
    hide Lines, IndexOf, Sound, Stream, Work;
    assert script[1..] == [Closed] && "" + text == text;
    assert Recv(script, ROOM) == (Data(text), [Closed]);
    assert Fill(Fresh(script)) == Session(text, [Closed], true, text, []);
    assert [] + ["a"] == ["a"];
    assert Pop(Fill(Fresh(script))) == Session("b\n", [Closed], true, text, ["a"]);
  }

  lemma TwoLines()
    ensures Lines("a\nb\n") == ["a", "b"]
    ensures IndexOf("a\nb\n", NL) == 1 && "a\nb\n"[..1] == "a" && "a\nb\n"[2..] == "b\n"
  {
    IndexOfUnique("a\nb\n", NL, 1);
    hide Lines, IndexOf;
    LinesNone("");
    LinesOne("b", "");
    LinesOne("a", "b\n");
    assert "b" + [NL] + "" == "b\n";
    assert "a" + [NL] + "b\n" == "a\nb\n";
  }

  lemma {:induction false} LaterCalls(s: Session, k: nat, n: nat)
    requires Sound(s) && k <= n
    ensures Calls(s, n) == Calls(Calls(s, k), n - k)
    decreases n
  {
    CallsStart(Calls(s, k));
    hide Sound, Call, Calls;
    if k < n {
      LaterCalls(s, k, n - 1);
      CallsStep(s, n);
      CallsStep(Calls(s, k), n - k);
    }
  }

  function Newlines(s: string): nat {
    if s == "" then 0 else Newlines(s[1..]) + if s[0] == NL then 1 else 0
  }

  lemma {:induction false} NewlinesAppend(a: string, b: string)
    ensures Newlines(a + b) == Newlines(a) + Newlines(b)
  {
    if a == "" {
      assert a + b == b;
    } else {
      NewlinesAppend(a[1..], b);
      assert (a + b)[1..] == a[1..] + b;
    }
  }

  lemma NewlinesZero(s: string)
    ensures Newlines(s) == 0 <==> NoNewline(s)
  {
    if s != "" {
      NewlinesZero(s[1..]);
      assert s == [s[0]] + s[1..];
    }
  }

  /** Lines still waiting after one call for each of the answers: each brings its newlines, and
      each call takes one line if there is one. */
  function Backlog(answers: seq<Answer>): nat {
    if answers == [] then 0
    else Max(0, Backlog(answers[..|answers| - 1]) + Newlines(Bytes(answers[|answers| - 1])) - 1)
  }

  lemma PopCounts(s: Session)
    ensures Newlines(Pop(s).buf) == Max(0, Newlines(s.buf) - 1)
  {
    var k := IndexOf(s.buf, NL);
    if k < |s.buf| {
      var l, rest := s.buf[..k], s.buf[k + 1..];
      assert s.buf == l + [NL] + rest && NoNewline(l);
      hide IndexOf;
      OneNewline(l, rest);
    } else {
      NewlinesZero(s.buf);
    }
  }

  lemma OneNewline(l: string, rest: string)
    requires NoNewline(l)
    ensures Newlines(l + [NL] + rest) == 1 + Newlines(rest)
  {
    NewlinesAppend(l + [NL], rest);
    NewlinesAppend(l, [NL]);
    NewlinesZero(l);
    assert Newlines([NL]) == 1 by { assert [NL][1..] == ""; }
  }

  lemma PendingSnoc(a: seq<Answer>, x: Answer)
    requires Open(a) && (x.Data? || x.WouldBlock?)
    ensures Pending(a + [x]) == Pending(a) + Bytes(x) && Open(a + [x])
  {
    if a == [] {
      assert a + [x] == [x] && [x][1..] == [];
    } else {
      assert a[0].Data? || a[0].WouldBlock?;
      assert (a + [x])[1..] == a[1..] + [x];
      assert Open(a[1..]);
      PendingSnoc(a[1..], x);
      Assoc(Bytes(a[0]), Pending(a[1..]), Bytes(x));
    }
  }

  /** What recv answers in the first n calls. */
  function HeardIn(s: Session, n: nat): (heard: seq<Answer>)
    requires Sound(s)
    ensures |heard| == n
    decreases n
  {
    if n == 0 then [] else HeardIn(s, n - 1) + [Heard(Calls(s, n - 1))]
  }

  lemma {:induction false} BacklogIsHeld(s: Session, n: nat)
    requires Sound(s) && s.buf == "" && Calls(s, n).connected
    ensures Newlines(Calls(s, n).buf) == Backlog(HeardIn(s, n))
  {
    hide *;
    if n == 0 {
      HeardInNone(s);
    } else {
      HeardInLast(s, n);
      CallsStep(s, n);
      CallHolds(Calls(s, n - 1));
      BacklogIsHeld(s, n - 1);
      BacklogSnoc(HeardIn(s, n - 1), Heard(Calls(s, n - 1)));
    }
  }

  lemma HeardInNone(s: Session)
    requires Sound(s) && s.buf == ""
    ensures Newlines(Calls(s, 0).buf) == Backlog(HeardIn(s, 0)) == 0
  {
  }

  lemma HeardInLast(s: Session, n: nat)
    requires Sound(s) && n > 0
    ensures Sound(Calls(s, n - 1)) && |Calls(s, n - 1).buf| <= ROOM
    ensures HeardIn(s, n) == HeardIn(s, n - 1) + [Heard(Calls(s, n - 1))]
  {
    hide Call, Heard;
  }

  /** A call adds the newlines it hears and takes one if there is one. */
  lemma CallHolds(s: Session)
    requires Sound(s) && Call(s).connected
    ensures s.connected
    ensures Newlines(Call(s).buf) == Max(0, Newlines(s.buf) + Newlines(Bytes(Heard(s))) - 1)
  {
    FillKeeps(s);
    var f := Fill(s);
    assert f.buf == s.buf + Bytes(Heard(s)) by {
      hide Recv;
      assert s.buf + "" == s.buf;
    }
    NewlinesAppend(s.buf, Bytes(Heard(s)));
    PopCounts(f);
    hide Newlines, Sound, Stream, Work, Fill, Pop, Heard;
  }

  /** Whatever the peer sent and however it was cut: on a connection whose end is heard after k
      calls, every complete line arrives if and only if, by what recv answered in those calls, no
      line was left waiting. */
  lemma {:induction false} AllArriveIff(script: seq<Answer>, k: nat, n: nat)
    requires var s := Calls(Fresh(script), k); s.connected && (Heard(s).Closed? || Heard(s).Failed?)
    requires n > k
    ensures Calls(Fresh(script), n).raws == Lines(Pending(script)) <==> Backlog(HeardIn(Fresh(script), k)) == 0
  {
    AllReceivedAtEnd(script, k);
    FreshIsEmpty(script);
    EndsAfter(Fresh(script), k, n);
    hide *;
  }

  lemma {:induction false} EndsAfter(s: Session, k: nat, n: nat)
    requires Sound(s) && s.buf == "" && n > k
    requires var c := Calls(s, k); |c.buf| <= ROOM && c.connected && (Heard(c).Closed? || Heard(c).Failed?)
    ensures Calls(s, n).raws == Lines(Calls(s, k).received) <==> Backlog(HeardIn(s, k)) == 0
  {
    hide *;
    var c := Calls(s, k);
    BacklogIsHeld(s, k);
    NewlinesZero(c.buf);
    LaterCalls(s, k, n);
    EndDeliversAllIff(c, n - k);
  }

  lemma FreshIsEmpty(script: seq<Answer>)
    ensures Fresh(script).buf == ""
  {
  }

  lemma AllReceivedAtEnd(script: seq<Answer>, k: nat)
    requires var s := Calls(Fresh(script), k); Heard(s).Closed? || Heard(s).Failed?
    ensures Sound(Calls(Fresh(script), k)) && |Calls(Fresh(script), k).buf| <= ROOM
    ensures Calls(Fresh(script), k).received == Pending(script)
  {
    CallsKeep(Fresh(script), k);
    hide Calls, Call, Pending;
    EndMeansAllReceived(Calls(Fresh(script), k));
  }

  lemma EndMeansAllReceived(s: Session)
    requires Sound(s) && (Heard(s).Closed? || Heard(s).Failed?)
    ensures Stream(s) == s.received
  {
    assert s.received + "" == s.received;
  }

  /** After one call per answer, on a connection whose bytes all fit the buffer. */
  ghost predicate InStep(s: Session, pre: seq<Answer>, rest: seq<Answer>) {
    Sound(s) && s.connected && s.script == rest && s.received == Pending(pre) &&
    Newlines(s.buf) == Backlog(pre)
  }

  lemma InStepCall(s: Session, pre: seq<Answer>, x: Answer, rest: seq<Answer>)
    requires InStep(s, pre, [x] + rest) && Open(pre) && (x.Data? || x.WouldBlock?)
    requires |Pending(pre + [x])| < ROOM
    ensures Sound(Call(s)) && InStep(Call(s), pre + [x], rest)
  {
    PendingSnoc(pre, x);
    CallKeeps(s);
    InStepFill(s, pre, x, rest);
    var f := Fill(s);
    NewlinesAppend(s.buf, Bytes(x));
    PopCounts(f);
    BacklogSnoc(pre, x);
    hide Sound, Newlines, Pending, Recv, Stream, Work, Fill, IndexOf, Backlog, Open;
  }

  lemma BacklogSnoc(pre: seq<Answer>, x: Answer)
    ensures Backlog(pre + [x]) == Max(0, Backlog(pre) + Newlines(Bytes(x)) - 1)
  {
    assert (pre + [x])[..|pre|] == pre;
  }

  lemma InStepFill(s: Session, pre: seq<Answer>, x: Answer, rest: seq<Answer>)
    requires Sound(s) && s.connected && s.script == [x] + rest && (x.Data? || x.WouldBlock?)
    requires |s.received + Bytes(x)| < ROOM
    ensures Fill(s) == s.(buf := s.buf + Bytes(x), script := rest, received := s.received + Bytes(x))
  {
    hide Unsplit, AllNoNewline, AllFit;
    assert |s.received| >= |s.buf|;
    assert ([x] + rest)[1..] == rest;
    assert Recv([x] + rest, ROOM - |s.buf|) == (x, rest);
  }

  lemma {:induction false} InStepAfter(pre: seq<Answer>, rest: seq<Answer>)
    requires Open(pre) && |Pending(pre)| < ROOM
    ensures InStep(Calls(Fresh(pre + rest), |pre|), pre, rest)
  {
    if pre == [] {
      CallsStart(Fresh(pre + rest));
      assert pre + rest == rest;
    } else {
      var n := |pre| - 1;
      var p, x := pre[..n], pre[n];
      assert Open(p) && (x.Data? || x.WouldBlock?);
      hide InStep, Pending, Call, Calls, Open, Sound, Fresh;
      assert pre == p + [x];
      assert pre + rest == p + ([x] + rest);
      PendingSnoc(p, x);
      InStepAfter(p, [x] + rest);
      InStepCall(Calls(Fresh(pre + rest), n), p, x, rest);
      CallsStep(Fresh(pre + rest), n + 1);
    }
  }

  /** Below 8191 bytes recv answers just what the script holds, so the condition can be read off
      the script. */
  lemma {:induction false} AllArriveBeforeEndIff(pre: seq<Answer>, rest: seq<Answer>, n: nat)
    requires Open(pre) && |Pending(pre)| < ROOM && rest != [] && (rest[0].Closed? || rest[0].Failed?)
    requires n > |pre|
    ensures Calls(Fresh(pre + rest), n).raws == Lines(Pending(pre)) <==> Backlog(pre) == 0
  {
    hide Calls, Call, Pending, Lines, Newlines, NoNewline, Open, Sound, Heard, Backlog, Fresh;
    var s := Calls(Fresh(pre + rest), |pre|);
    InStepAfter(pre, rest);
    HearsEnd(s, pre, rest);
    NewlinesZero(s.buf);
    LaterCalls(Fresh(pre + rest), |pre|, n);
    EndDeliversAllIff(s, n - |pre|);
  }

  lemma HearsEnd(s: Session, pre: seq<Answer>, rest: seq<Answer>)
    requires InStep(s, pre, rest) && |Pending(pre)| < ROOM
    requires rest != [] && (rest[0].Closed? || rest[0].Failed?)
    ensures Heard(s).Closed? || Heard(s).Failed?
  {
    hide Pending, Unsplit;
    assert |s.received| >= |s.buf|;
  }

  /** The drain loop: call until something other than a line comes back. */
  function Drain(s: Session): (r: Session)
    requires Sound(s)
    ensures Sound(r) && s.raws <= r.raws && Stream(r) == Stream(s) && Work(r) <= Work(s)
    decreases Work(s)
  {
    CallKeeps(s);
    ResultReports(s);
    if Result(s).Line? then Drain(Call(s)) else Call(s)
  }

  lemma {:induction false} DrainKeepsOpen(s: Session)
    requires Sound(s)
    ensures Open(Drain(s).script) <==> Open(s.script)
    decreases Work(s)
  {
    CallKeeps(s);
    ResultReports(s);
    CallKeepsOpen(s);
    hide Open, Call, Result, Sound, Work;
    if Result(s).Line? {
      DrainKeepsOpen(Call(s));
    }
  }

  lemma {:induction false} DrainStaysUp(s: Session)
    requires Sound(s) && s.connected && Open(s.script)
    ensures Drain(s).connected && Open(Drain(s).script)
    decreases Work(s)
  {
    CallStaysUp(s);
    CallKeeps(s);
    ResultReports(s);
    if Result(s).Line? {
      DrainStaysUp(Call(s));
    }
  }

  /** A drain makes progress unless nothing is left to do. */
  lemma DrainWorks(s: Session)
    requires Sound(s)
    ensures Quiet(s) ==> Drain(s) == s
    ensures !Quiet(s) ==> Work(Drain(s)) < Work(s)
  {
    CallKeeps(s);
    ResultReports(s);
  }

  // ---------------------------------------------------------------- drains

  /** No complete line is left in the buffer of a live connection. */
  predicate NoLineWaits(s: Session) {
    s.connected ==> NoNewline(s.buf)
  }

  lemma {:induction false} DrainEmpties(s: Session)
    requires Sound(s)
    ensures NoLineWaits(Drain(s))
    decreases Work(s)
  {
    CallKeeps(s);
    ResultReports(s);
    hide Sound, Call, Result, Work, Stream;
    if Result(s).Line? {
      DrainEmpties(Call(s));
    }
  }

  /** Answers and bytes still to be read. */
  function Left(s: Session): nat {
    |s.script| + |Pending(s.script)|
  }

  /** Reading uses up an answer, or part of one, or hears the end. */
  lemma CallReads(s: Session)
    requires |s.buf| <= ROOM
    ensures Left(Call(s)) <= Left(s)
    ensures s.connected && !AllRead(s) ==> !Call(s).connected || Left(Call(s)) < Left(s)
  {
    if s.connected && |s.buf| < ROOM {
      RecvConserves(s.script, ROOM - |s.buf|);
      RecvWorks(s.script, ROOM - |s.buf|);
      hide Pending, Recv;
    }
  }

  lemma {:induction false} DrainReads(s: Session)
    requires Sound(s)
    ensures Left(Drain(s)) <= Left(s)
    ensures s.connected && !AllRead(s) ==> !Drain(s).connected || Left(Drain(s)) < Left(s)
    decreases Work(s)
  {
    CallKeeps(s);
    ResultReports(s);
    CallReads(s);
    hide Sound, Call, Result, Work, Stream, Left, AllRead;
    if Result(s).Line? {
      DrainReads(Call(s));
    }
  }

  /** A connection that is over has heard all there was to hear. */
  predicate EndIsLast(s: Session) {
    !s.connected ==> Pending(s.script) == ""
  }

  lemma CallEnds(s: Session)
    requires |s.buf| <= ROOM && EndIsLast(s)
    ensures EndIsLast(Call(s))
  {
  }

  lemma {:induction false} DrainEnds(s: Session)
    requires Sound(s) && EndIsLast(s)
    ensures EndIsLast(Drain(s))
    decreases Work(s)
  {
    CallKeeps(s);
    ResultReports(s);
    CallEnds(s);
    hide Sound, Call, Result, Work, Stream, EndIsLast;
    if Result(s).Line? {
      DrainEnds(Call(s));
    }
  }
}
