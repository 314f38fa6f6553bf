/** The receiving side of network.c: a fixed buffer filled at the end and shifted down as lines
    are taken from the front. The socket is the script of answers its peer and kernel will give. */
module Network {
  import opened Basics
  import opened LineStream

  const BUFFER_SIZE := 8192

  class NetworkContext {
    var sockfd: int
    var recvBuffer: array<char>
    var bufferLen: Int32
    var connected: bool

    /** What the socket will answer. */
    var wire: seq<Answer>

    /** Bytes received and lines taken on the current connection. */
    ghost var Received: string
    ghost var Raws: seq<string>

    ghost predicate Valid()
      reads this, recvBuffer
      ensures Valid() ==> 0 <= bufferLen <= recvBuffer.Length && Sound(View())
    {
      recvBuffer.Length == BUFFER_SIZE && 0 <= bufferLen <= ROOM &&
      (connected ==> sockfd >= 0) && (sockfd < 0 ==> View() == NONE) && Sound(View())
    }

    ghost function View(): Session
      requires 0 <= bufferLen <= recvBuffer.Length
      reads this, recvBuffer
    {
      Session(recvBuffer[..bufferLen], wire, connected, Received, Raws)
    }

    /** network_init. */
    constructor ()
      ensures Valid() && fresh(recvBuffer) && !connected && View() == NONE
    {
      sockfd := -1;
      recvBuffer := new char[BUFFER_SIZE](_ => '\0');
      bufferLen := 0;
      connected := false;
      wire, Received, Raws := [], "", [];
      new;
      assert recvBuffer[..bufferLen] == "";
    }

    /** network_close: whatever the buffer still held is dropped. */
    method Close()
      requires Valid()
      modifies this
      ensures Valid() && recvBuffer == old(recvBuffer) && sockfd < 0 && View() == NONE
    {
      if sockfd >= 0 { sockfd := -1; }
      connected := false;
      bufferLen := 0;
      wire, Received, Raws := [], "", [];
      assert recvBuffer[..bufferLen] == "";
    }

    /** network_connect; peer is the script of the new socket, or None when no address could be
        reached. A connection starts with an empty buffer. */
    method Connect(peer: Option<seq<Answer>>, fd: nat) returns (ok: bool)
      requires Valid()
      modifies this
      ensures Valid() && recvBuffer == old(recvBuffer)
      ensures ok == peer.Some? == connected
      ensures ok ==> View() == Fresh(peer.value)
      ensures !ok ==> View() == NONE
    {
      if sockfd >= 0 { Close(); }
      if peer.None? { return false; }
      sockfd := fd;
      connected := true;
      bufferLen := 0;
      wire, Received, Raws := peer.value, "", [];
      assert recvBuffer[..bufferLen] == "";
      return true;
    }

    /** More answers reach the socket. */
    method Arrive(arrivals: seq<Answer>)
      requires Valid() && connected
      modifies `wire
      ensures Valid() && View() == old(View()).(script := old(wire) + arrivals)
    {
      wire := wire + arrivals;
    }

    /** memchr for a newline in the filled part of the buffer. */
    method FindNewline() returns (k: int)
      requires Valid()
      ensures k == IndexOf(recvBuffer[..bufferLen], NL)
    {
      ghost var b := recvBuffer[..bufferLen];
      k := 0;
      while k < bufferLen && recvBuffer[k] != NL
        invariant 0 <= k <= bufferLen
        invariant forall i :: 0 <= i < k ==> b[i] != NL
      {
        k := k + 1;
      }
      IndexOfUnique(b, NL, k);
    }

    /** Put received bytes at the end of the buffer and terminate it. */
    method Append(bytes: string)
      requires 0 <= bufferLen && bufferLen + |bytes| <= ROOM < recvBuffer.Length
      modifies `bufferLen, recvBuffer
      ensures bufferLen == old(bufferLen) + |bytes|
      ensures recvBuffer[..bufferLen] == old(recvBuffer[..bufferLen]) + bytes
    {
      Copy(recvBuffer, bufferLen, bytes);
      bufferLen := bufferLen + |bytes|;
      recvBuffer[bufferLen] := '\0';
    }

    /** The receive half of network_read_line. */
    method Receive() returns (answer: Answer)
      requires Valid() && connected
      modifies this, recvBuffer
      ensures Valid() && recvBuffer == old(recvBuffer)
      ensures View() == Fill(old(View())) && answer == Heard(old(View()))
    {
      hide Sound, Recv, Fill, Heard, Stream, Work;
      FillKeeps(View());
      FillFields(View());
      if bufferLen == ROOM { return WouldBlock; }
      ghost var was, now := View(), Fill(View());
      var (a, rest) := Recv(wire, ROOM - bufferLen);
      wire := rest;
      Received := Received + Bytes(a);
      if a.Data? {
        Append(a.bytes);
      } else if !a.WouldBlock? {
        connected := false;
      }
      assert recvBuffer[..bufferLen] == now.buf;
      assert View() == now;
      return a;
    }

    /** The line half: take the line that ends at k and shift the rest down. */
    method Take(k: nat, maxLen: Int32) returns (line: string)
      requires Valid() && connected && maxLen >= 1
      requires k == IndexOf(View().buf, NL) && k < bufferLen
      modifies this, recvBuffer
      ensures Valid() && recvBuffer == old(recvBuffer)
      ensures View() == Pop(old(View())) && line == Clean(old(View()).buf[..k], maxLen)
    {
      PopKeeps(View());
      hide Sound, Clean, Stream, Work, NoNewline;
      ghost var was := View();
      assert recvBuffer[..k] == was.buf[..k];
      line := CopyLine(recvBuffer, k, maxLen);
      Raws := Raws + [recvBuffer[..k]];
      var consumed := k + 1;
      var remaining := bufferLen - consumed;
      assert recvBuffer[consumed..consumed + remaining] == was.buf[consumed..];
      ShiftDown(recvBuffer, consumed, remaining);
      bufferLen := remaining;
      recvBuffer[bufferLen] := '\0';
      assert recvBuffer[..bufferLen] == was.buf[consumed..];
    }

    /** network_read_line. */
    method ReadLine(maxLen: Int32) returns (r: Outcome)
      requires Valid() && maxLen >= 1
      modifies this, recvBuffer
      ensures Valid() && recvBuffer == old(recvBuffer)
      ensures View() == Call(old(View())) && r == Delivered(Result(old(View())), maxLen)
    {
      hide Sound, Fill, Pop, Heard, Clean, Recv;
      if !connected || sockfd < 0 { return Disconnected; }
      FillKeeps(View());
      var answer := Receive();
      if answer.Closed? { return Disconnected; }
      if answer.Failed? { return Error; }
      var k := FindNewline();
      if k == bufferLen {
        PopKeeps(View());
        PopNothing(View());
        return NoData;
      }
      var line := Take(k, maxLen);
      return Line(line);
    }
  }

  /** No connection. */
  const NONE := Session("", [], false, "", [])

  lemma PopNothing(s: Session)
    requires IndexOf(s.buf, NL) == |s.buf|
    ensures Pop(s) == s
  {
  }

  /** Fill, field by field. */
  lemma FillFields(s: Session)
    requires |s.buf| <= ROOM
    ensures |s.buf| == ROOM ==> Fill(s) == s && Heard(s) == WouldBlock
    ensures |s.buf| < ROOM ==>
      var (a, rest) := Recv(s.script, ROOM - |s.buf|);
      Heard(s) == a && Fill(s).raws == s.raws && Fill(s).buf == s.buf + Bytes(a) && Fill(s).script == rest &&
      Fill(s).received == s.received + Bytes(a) && (Fill(s).connected <==> !a.Closed? && !a.Failed?)
  {
  }

  function Delivered(o: Outcome, maxLen: nat): Outcome
    requires maxLen >= 1
  {
    if o.Line? then Line(Clean(o.raw, maxLen)) else o
  }

  /** Copy the k bytes before the newline, as many as fit, and drop a trailing CR. */
  method CopyLine(buffer: array<char>, k: nat, maxLen: Int32) returns (line: string)
    requires k <= buffer.Length && maxLen >= 1
    ensures line == Clean(buffer[..k], maxLen)
  {
    var lineLen := k;
    if lineLen >= maxLen { lineLen := maxLen - 1; }
    line := buffer[..lineLen];
    assert line == Cut(buffer[..k], maxLen - 1);
    if lineLen > 0 && line[lineLen - 1] == '\r' {
      line := line[..lineLen - 1];
    }
  }

  /** memmove of n bytes to the front. */
  method ShiftDown(buffer: array<char>, from: nat, n: nat)
    requires from + n <= buffer.Length
    modifies buffer
    ensures buffer[..n] == old(buffer[from..from + n])
  {
    forall i | 0 <= i < n {
      buffer[i] := buffer[from + i];
    }
  }

  /** The part of recv that stores the received bytes. */
  method Copy(buffer: array<char>, at: nat, bytes: string)
    requires at + |bytes| <= buffer.Length
    modifies buffer
    ensures buffer[..at + |bytes|] == old(buffer[..at]) + bytes
  {
    forall i | 0 <= i < |bytes| {
      buffer[at + i] := bytes[i];
    }
    CopiedBytes(old(buffer[..at]), bytes, buffer[..at + |bytes|]);
  }

  lemma CopiedBytes(before: string, bytes: string, after: string)
    requires |after| == |before| + |bytes|
    requires forall i :: 0 <= i < |before| ==> after[i] == before[i]
    requires forall i :: 0 <= i < |bytes| ==> after[|before| + i] == bytes[i]
    ensures after == before + bytes
  {
    forall j | 0 <= j < |after|
      ensures after[j] == (before + bytes)[j]
    {
      if j >= |before| {
        assert after[|before| + (j - |before|)] == bytes[j - |before|];
      }
    }
  }
}
