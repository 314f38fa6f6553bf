/** main.c: the globals of the program and its event loop. */
module Program {
  import opened Basics
  import opened Messages
  import opened LineStream
  import opened Network
  import opened DataStore
  import opened Runs
  import Allocation
  import Outage
  import IoTable
  import CpuTable
  import MemoryStore

  /** What a pass of the event loop meets: the clock at each of its readings, the socket an
      attempt would get, what arrives, whether select reports it, and for each line the answers of
      the allocator. */
  datatype PassInput = PassInput(
    tryNow: int, peer: Option<seq<Answer>>, fd: nat, arrivals: seq<Answer>, ready: bool,
    lossNow: int, checkNow: int, alloc: nat -> nat -> bool)

  /** The steps of a pass. */
  function PassSteps(p: PassInput): seq<Input> {
    [Connect(p.tryNow, p.peer), Service(p.arrivals, p.ready, p.lossNow), Check(p.checkNow)]
  }

  function LoopSteps(passes: seq<PassInput>): seq<Input> {
    if passes == [] then []
    else LoopSteps(passes[..|passes| - 1]) + PassSteps(passes[|passes| - 1])
  }

  /** The stamps of the I/O table are still within `int` after the network part of a pass. */
  ghost predicate PassFits(parse: Parser, trace: seq<Input>, p: PassInput) {
    Run(parse, trace + [Connect(p.tryNow, p.peer)] + [Service(p.arrivals, p.ready, p.lossNow)]).view.ioNext <= INT_MAX
  }

  /** So they are in every pass, counted from the last clear. */
  ghost predicate LoopFits(parse: Parser, trace: seq<Input>, passes: seq<PassInput>) {
    forall k :: 0 <= k < |passes| ==> PassFits(parse, trace + LoopSteps(passes[..k]), passes[k])
  }

  /** What the store shows after the steps of trace, when the allocator answered the lines
      delivered since the last clear as allocs say. */
  ghost function Shown(parse: Parser, trace: seq<Input>, allocs: seq<nat -> bool>): StoreView
    requires |allocs| == |Recent(parse, trace)|
  {
    FoldUnder(parse, Origin(parse, trace), Recent(parse, trace), allocs)
  }

  class Monitor {
    const network: NetworkContext
    const store: Store
    const parse: Parser
    var disconnectTime: int
    var dataResetDone: bool
    var lastReconnectAttempt: int

    /** The steps so far, and the allocator's answers to the lines since the last clear. */
    ghost var Trace: seq<Input>
    ghost var Allocs: seq<nat -> bool>

    /** The parts are in order. */
    ghost predicate Intact()
      reads this, network, network.recvBuffer, store, store.io, store.io.entries, store.cpu, store.cpu.entries,
        store.memory, store.memory.lines
    {
      network.Valid() && store.Valid()
    }

    ghost function Timers(): Outage.State
      reads this, network
    {
      Outage.State(network.connected, disconnectTime, dataResetDone, lastReconnectAttempt)
    }

    /** The fields are the state that the steps so far lead to. */
    ghost predicate Valid()
      reads this, network, network.recvBuffer, store, store.io, store.io.entries, store.cpu, store.cpu.entries,
        store.memory, store.memory.lines
    {
      Intact() && Agree(parse, Trace, Allocs, network.View(), Timers(), store.View())
    }

    constructor (parse: Parser)
      ensures Valid() && Trace == [] && this.parse == parse
    {
      hide Store.Valid, Sound, IoTable.IOData.Valid, CpuTable.CPUData.Valid, MemoryStore.MemoryData.Valid, Agree;
      network := new NetworkContext();
      store := new Store();
      this.parse := parse;
      disconnectTime, dataResetDone, lastReconnectAttempt := 0, false, 0;
      Trace, Allocs := [], [];
      AgreeStart(parse);
    }

    /** try_connect; peer is the socket it gets, if any. */
    method TryConnect(now: int, peer: Option<seq<Answer>>, fd: nat) returns (r: int)
      requires Valid()
      modifies this, network
      ensures Valid() && network.recvBuffer == old(network.recvBuffer)
      ensures Trace == old(Trace) + [Connect(now, peer)]
      ensures r == 0 <==> network.connected
      ensures Positive(old(Trace)) && now > 0 ==>
        network.connected
          == (old(network.connected) || (peer.Some? && Outage.MayAttempt(Run(parse, old(Trace)).machine.log, now)))
    {
      hide Store.Valid, Store.View, NetworkContext.Valid, Sound, Agree, Fresh, Run, Outage.MayAttempt;
      ThrottleIs(parse, Trace, Allocs, network.View(), Timers(), store.View(), now);
      AgreeConnect(parse, Trace, Allocs, network.View(), Timers(), store.View(), now, peer);
      Trace := Trace + [Connect(now, peer)];
      if network.connected { return 0; }
      if lastReconnectAttempt > 0 && now - lastReconnectAttempt < Outage.RECONNECT_INTERVAL {
        return -1;
      }
      lastReconnectAttempt := now;
      var ok := network.Connect(peer, fd);
      if ok {
        disconnectTime := 0;
        dataResetDone := false;
        return 0;
      }
      return -1;
    }

    /** One line of the drain loop: parse it and store it, or count an error. */
    method HandleText(line: string, alloc: nat -> bool)
      requires store.Valid() && HandleLine(parse, store.View(), line).ioNext <= INT_MAX
      modifies store, store.io, store.io.entries, store.cpu, store.cpu.entries, store.memory, store.memory.lines
      ensures store.Valid()
      ensures store.io.entries == old(store.io.entries) && store.cpu.entries == old(store.cpu.entries)
      ensures store.memory.lines == old(store.memory.lines) || fresh(store.memory.lines)
      ensures store.View() == HandleUnder(parse, old(store.View()), line, alloc)
    {
      hide IoTable.IOData.Valid, CpuTable.CPUData.Valid, MemoryStore.MemoryData.Valid, ProcessUnder, ProcessView, Inc;
      match Accept(parse, line) {
        case None =>
          store.parseErrors := Inc(store.parseErrors);
        case Some(d) =>
          StampNeeded(store.View(), d);
          store.Process(d, alloc);
      }
    }

    /** One turn of the drain loop. */
    method DrainOne(alloc: nat -> bool) returns (r: Outcome)
      requires Intact()
      requires var o := Delivered(Result(network.View()), MAX_LINE);
        o.Line? ==> HandleLine(parse, store.View(), o.raw).ioNext <= INT_MAX
      modifies network, network.recvBuffer,
        store, store.io, store.io.entries, store.cpu, store.cpu.entries, store.memory, store.memory.lines
      ensures Intact() && network.recvBuffer == old(network.recvBuffer)
      ensures store.io.entries == old(store.io.entries) && store.cpu.entries == old(store.cpu.entries)
      ensures store.memory.lines == old(store.memory.lines) || fresh(store.memory.lines)
      ensures network.View() == Call(old(network.View()))
      ensures r == Delivered(Result(old(network.View())), MAX_LINE)
      ensures store.View() == if r.Line? then HandleUnder(parse, old(store.View()), r.raw, alloc) else old(store.View())
    {
      hide Sound, Call, Result, Delivered, HandleLine, HandleUnder, Store.View,
        IoTable.IOData.Valid, CpuTable.CPUData.Valid, MemoryStore.MemoryData.Valid;
      r := network.ReadLine(MAX_LINE);
      if r.Line? {
        HandleText(r.raw, alloc);
      }
    }

    /** process_network_data: read and handle lines until the network has no line to give. */
    method ProcessNetworkData(alloc: nat -> nat -> bool)
      requires Intact()
      requires Fold(parse, store.View(), NewLines(network.View())).ioNext <= INT_MAX
      modifies network, network.recvBuffer,
        store, store.io, store.io.entries, store.cpu, store.cpu.entries, store.memory, store.memory.lines
      ensures Intact() && network.recvBuffer == old(network.recvBuffer)
      ensures store.io.entries == old(store.io.entries) && store.cpu.entries == old(store.cpu.entries)
      ensures store.memory.lines == old(store.memory.lines) || fresh(store.memory.lines)
      ensures network.View() == Drain(old(network.View()))
      ensures store.View() == HandledAll(parse, old(store.View()), NewLines(old(network.View())), alloc)
    {
      hide Store.Valid, Store.View, Sound, Fold, Drain, Call, Work, Clean, CleanAll, HandleLine, HandleUnder,
        Draining, NewLines, Result, HandledAll;
      ghost var s, v := network.View(), store.View();
      ghost var lines: seq<string> := [];
      var i: nat := 0;
      DrainNothing(s);
      HandledNothing(parse, v, alloc);
      while true
        invariant Intact() && network.recvBuffer == old(network.recvBuffer)
        invariant store.io.entries == old(store.io.entries) && store.cpu.entries == old(store.cpu.entries)
        invariant store.memory.lines == old(store.memory.lines) || fresh(store.memory.lines)
        invariant Draining(s, network.View(), lines) && i == |lines|
        invariant store.View() == HandledAll(parse, v, lines, alloc)
        decreases Work(network.View())
      {
        DrainStep(s, network.View(), lines);
        NextLineFits(parse, v, s, network.View(), lines, alloc);
        var r := DrainOne(alloc(i));
        if !r.Line? { break; }
        HandledOne(parse, v, lines, r.raw, alloc);
        lines := lines + [r.raw];
        i := i + 1;
      }
    }

    /** The socket is reported ready: process the data and notice a lost connection. */
    method Receive(now: int, alloc: nat -> nat -> bool)
      requires Intact() && network.connected
      requires Fold(parse, store.View(), NewLines(network.View())).ioNext <= INT_MAX
      modifies this`disconnectTime, network, network.recvBuffer,
        store, store.io, store.io.entries, store.cpu, store.cpu.entries, store.memory, store.memory.lines
      ensures Intact() && network.recvBuffer == old(network.recvBuffer)
      ensures store.io.entries == old(store.io.entries) && store.cpu.entries == old(store.cpu.entries)
      ensures store.memory.lines == old(store.memory.lines) || fresh(store.memory.lines)
      ensures network.View() == Drain(old(network.View()))
      ensures store.View() == HandledAll(parse, old(store.View()), NewLines(old(network.View())), alloc)
      ensures disconnectTime == if network.connected || old(disconnectTime) != 0 then old(disconnectTime) else now
    {
      hide Store.Valid, Store.View, Sound, Drain, Fold, NewLines, HandledAll;
      ProcessNetworkData(alloc);
      if !network.connected {
        if disconnectTime == 0 {
          disconnectTime := now;
        }
      }
    }

    /** The network part of a pass: arrivals reach the socket, and if select reports it the data
        is processed and a lost connection noticed. */
    method Service(arrivals: seq<Answer>, ready: bool, now: int, alloc: nat -> nat -> bool)
      requires Valid()
      requires Run(parse, Trace + [Runs.Service(arrivals, ready, now)]).view.ioNext <= INT_MAX
      modifies this, network, network.recvBuffer,
        store, store.io, store.io.entries, store.cpu, store.cpu.entries, store.memory, store.memory.lines
      ensures Valid() && network.recvBuffer == old(network.recvBuffer)
      ensures store.io.entries == old(store.io.entries) && store.cpu.entries == old(store.cpu.entries)
      ensures store.memory.lines == old(store.memory.lines) || fresh(store.memory.lines)
      ensures Trace == old(Trace) + [Runs.Service(arrivals, ready, now)]
      ensures Allocs == old(Allocs) + LineAllocs(Run(parse, old(Trace)), Runs.Service(arrivals, ready, now), alloc)
    {
      hide Store.Valid, Store.View, NetworkContext.Valid, Sound, Drain, Fold, NewLines, Run, Agree, HandledAll,
        LineAllocs;
      ghost var i: Input := Runs.Service(arrivals, ready, now);
      ghost var s, timers, v := network.View(), Timers(), store.View();
      AgreedSession(parse, Trace, Allocs, s, timers, v);
      if network.connected {
        ArrivedSound(s, arrivals);
        ServiceFits(parse, Trace, Allocs, s, timers, v, i);
        network.Arrive(arrivals);
        if ready {
          Receive(now, alloc);
        }
      }
      AgreeService(parse, Trace, Allocs, s, timers, v, i, alloc, network.View(), Timers(), store.View());
      Allocs := Allocs + LineAllocs(Run(parse, Trace), i, alloc);
      Trace := Trace + [i];
    }

    /** The reset check that ends a pass. */
    method CheckReset(now: int)
      requires Valid()
      modifies this,
        store, store.io, store.io.entries, store.cpu, store.cpu.entries, store.memory, store.memory.lines
      ensures Valid() && network.recvBuffer == old(network.recvBuffer)
      ensures store.io.entries == old(store.io.entries) && store.cpu.entries == old(store.cpu.entries)
      ensures store.memory.lines == old(store.memory.lines) || fresh(store.memory.lines)
      ensures Trace == old(Trace) + [Check(now)]
      ensures Allocs == if old(Outage.ResetDue(Run(parse, Trace).machine.s, now)) then [] else old(Allocs)
    {
      hide Sound, IoTable.IOData.Valid, CpuTable.CPUData.Valid, MemoryStore.MemoryData.Valid, Store.View,
        NetworkContext.Valid, Run, Agree;
      AgreedSession(parse, Trace, Allocs, network.View(), Timers(), store.View());
      AgreeCheck(parse, Trace, Allocs, network.View(), Timers(), store.View(), now);
      Trace := Trace + [Check(now)];
      if disconnectTime > 0 && !dataResetDone {
        if now - disconnectTime >= Outage.RESET_AFTER {
          store.Clear();
          dataResetDone := true;
          Allocs := [];
        }
      }
    }

    /** One pass of the event loop. */
    method Pass(p: PassInput)
      requires Valid() && PassFits(parse, Trace, p)
      modifies this, network, network.recvBuffer,
        store, store.io, store.io.entries, store.cpu, store.cpu.entries, store.memory, store.memory.lines
      ensures Valid() && network.recvBuffer == old(network.recvBuffer)
      ensures store.io.entries == old(store.io.entries) && store.cpu.entries == old(store.cpu.entries)
      ensures store.memory.lines == old(store.memory.lines) || fresh(store.memory.lines)
      ensures Trace == old(Trace) + PassSteps(p)
      ensures Trace == old(Trace) +
        [Connect(p.tryNow, p.peer), Runs.Service(p.arrivals, p.ready, p.lossNow), Check(p.checkNow)]
    {
      hide Store.Valid, Store.View, NetworkContext.Valid, Sound, Run, Agree;
      if !network.connected {
        var r := TryConnect(p.tryNow, p.peer, p.fd);
      } else {
        AgreeConnect(parse, Trace, Allocs, network.View(), Timers(), store.View(), p.tryNow, p.peer);
        Trace := Trace + [Connect(p.tryNow, p.peer)];
      }
      Service(p.arrivals, p.ready, p.lossNow, p.alloc);
      CheckReset(p.checkNow);
    }

    /** The program from its first connection attempt on, for as many passes as it keeps running. */
    method EventLoop(now: int, peer: Option<seq<Answer>>, fd: nat, passes: seq<PassInput>)
      requires Valid() && LoopFits(parse, Trace + [Connect(now, peer)], passes)
      modifies this, network, network.recvBuffer,
        store, store.io, store.io.entries, store.cpu, store.cpu.entries, store.memory, store.memory.lines
      ensures Valid() && network.recvBuffer == old(network.recvBuffer)
      ensures Trace == old(Trace) + [Connect(now, peer)] + LoopSteps(passes)
    {
      hide Store.Valid, Store.View, NetworkContext.Valid, Sound, Run, PassFits, PassSteps, Agree;
      var r := TryConnect(now, peer, fd);
      ghost var start := Trace;
      for k := 0 to |passes|
        invariant Valid() && network.recvBuffer == old(network.recvBuffer)
        invariant store.io.entries == old(store.io.entries) && store.cpu.entries == old(store.cpu.entries)
        invariant store.memory.lines == old(store.memory.lines) || fresh(store.memory.lines)
        invariant Trace == start + LoopSteps(passes[..k])
      {
        assert passes[..k + 1][..k] == passes[..k];
        Pass(passes[k]);
      }
      assert passes[..|passes|] == passes;
    }

    /** In every state the program can reach the store shows exactly the fold over the lines
        delivered since the last cleared check under the allocator's answers to them. Where the
        allocator did not fail that is the store of the run, and where it did only bytes of the
        memory tab can differ from it. */
    lemma ShowsRecentLines()
      requires Valid()
      ensures |Allocs| == |Recent(parse, Trace)| && store.View() == Shown(parse, Trace, Allocs)
      ensures Elsewhere(store.View()) == Elsewhere(Run(parse, Trace).view)
      ensures AllSucceed(Allocs) ==> store.View() == Run(parse, Trace).view
    {
      ShownIsRun(parse, Trace, Allocs);
      hide Store.Valid, Store.View, Sound, Run, Elsewhere, Shown, AllSucceed;
    }
  }

  // ---------------------------------------------------------------- the state of a run

  /** These parts are those of a program that took the steps of trace. */
  ghost predicate Agree(parse: Parser, trace: seq<Input>, allocs: seq<nat -> bool>,
                        s: Session, timers: Outage.State, v: StoreView) {
    var w := Run(parse, trace);
    w.session == s && w.machine.s == timers && |allocs| == |Recent(parse, trace)| && v == Shown(parse, trace, allocs)
  }

  lemma AgreeStart(parse: Parser)
    ensures Agree(parse, [], [], NONE, Outage.START.s, INITIAL)
  {
    RunNothing(parse);
    hide Run;
    assert LastClear(parse, []) == 0;
    LinesSinceStart(parse);
    hide LinesSince;
    FoldUnderNothing(parse, INITIAL);
  }

  lemma LinesSinceStart(parse: Parser)
    ensures LinesSince(parse, [], 0) == []
  {
    var empty: seq<Input> := [];
    assert empty[..0] == empty;
  }

  lemma AgreedSession(parse: Parser, trace: seq<Input>, allocs: seq<nat -> bool>,
                      s: Session, timers: Outage.State, v: StoreView)
    requires Agree(parse, trace, allocs, s, timers, v)
    ensures Run(parse, trace).session == s && Run(parse, trace).machine.s == timers
  {
  }

  /** The store differs from that of the run only in bytes the allocator lost. */
  lemma ShownIsRun(parse: Parser, trace: seq<Input>, allocs: seq<nat -> bool>)
    requires |allocs| == |Recent(parse, trace)|
    ensures Elsewhere(Shown(parse, trace, allocs)) == Elsewhere(Run(parse, trace).view)
    ensures AllSucceed(allocs) ==> Shown(parse, trace, allocs) == Run(parse, trace).view
  {
    StoreIsRecentLines(parse, trace);
    FailureStaysInMemory(parse, Origin(parse, trace), Recent(parse, trace), allocs);
    hide Run, Recent, Origin, FoldUnder, Fold, Elsewhere;
    if AllSucceed(allocs) {
      FoldSucceeds(parse, Origin(parse, trace), Recent(parse, trace), allocs);
    }
  }

  /** The memory tab is the replay of the bytes written since the last clear under the answers to
      those messages. */
  lemma {:induction false} ShownMemory(parse: Parser, trace: seq<Input>, allocs: seq<nat -> bool>)
    requires |allocs| == |Recent(parse, trace)|
    ensures Shown(parse, trace, allocs).mem
         == Allocation.ReplayUnder(Origin(parse, trace).mem, Writes(RecentMessages(parse, trace)),
                                   WriteAllocs(parse, Recent(parse, trace), allocs))
  {
    MemoryUnder(parse, Origin(parse, trace), Recent(parse, trace), allocs);
    hide Recent, Origin, FoldUnder, Writes, WriteAllocs, Allocation.ReplayUnder;
  }

  /** An attempt. */
  lemma AgreeConnect(parse: Parser, trace: seq<Input>, allocs: seq<nat -> bool>,
                     s: Session, timers: Outage.State, v: StoreView, now: int, peer: Option<seq<Answer>>)
    requires Agree(parse, trace, allocs, s, timers, v)
    ensures var trace' := trace + [Connect(now, peer)];
      if timers.connected || Outage.Throttled(timers, now) then Agree(parse, trace', allocs, s, timers, v)
      else if peer.Some? then
        Agree(parse, trace', allocs, Fresh(peer.value), Outage.State(true, 0, false, now), v)
      else Agree(parse, trace', allocs, NONE, timers.(lastAttempt := now), v)
  {
    RunSnoc(parse, trace, Connect(now, peer));
    RecentStep(parse, trace, Connect(now, peer));
    hide Run, Recent, Origin, FoldUnder, Sound, Fresh;
    NothingMore(Recent(parse, trace));
  }

  /** The throttle, as the trace shows it. */
  lemma {:induction false} ThrottleIs(parse: Parser, trace: seq<Input>, allocs: seq<nat -> bool>,
                                      s: Session, timers: Outage.State, v: StoreView, now: int)
    requires Agree(parse, trace, allocs, s, timers, v)
    ensures Positive(trace) && now > 0 ==>
      (Outage.MayAttempt(Run(parse, trace).machine.log, now) <==> !Outage.Throttled(timers, now))
  {
    hide Run, Shown, Outage.MayAttempt, Outage.Throttled, Outage.Good, Sound;
    if Positive(trace) && now > 0 {
      RunIsHealthy(parse, trace);
      Outage.MayAttemptIff(Run(parse, trace).machine, now);
    }
  }

  lemma NothingMore(lines: seq<string>)
    ensures lines + [] == lines
  {
  }

  /** The reset check. */
  lemma AgreeCheck(parse: Parser, trace: seq<Input>, allocs: seq<nat -> bool>,
                   s: Session, timers: Outage.State, v: StoreView, now: int)
    requires Agree(parse, trace, allocs, s, timers, v)
    ensures var trace' := trace + [Check(now)];
      if Outage.ResetDue(timers, now) then Agree(parse, trace', [], s, timers.(resetDone := true), CLEARED)
      else Agree(parse, trace', allocs, s, timers, v)
  {
    RunSnoc(parse, trace, Check(now));
    RecentStep(parse, trace, Check(now));
    FoldUnderNothing(parse, CLEARED);
    hide Run, Recent, Origin, FoldUnder, Sound;
    NothingMore(Recent(parse, trace));
  }

  /** The answers to the first n lines of a pass. */
  function Answers(alloc: nat -> nat -> bool, n: nat): (allocs: seq<nat -> bool>)
    ensures |allocs| == n
  {
    if n == 0 then [] else Answers(alloc, n - 1) + [alloc(n - 1)]
  }

  /** The answers to the lines of a step. */
  ghost function LineAllocs(w: World, i: Input, alloc: nat -> nat -> bool): (allocs: seq<nat -> bool>)
    requires Sound(w.session)
    ensures |allocs| == |StepLines(w, i)|
  {
    Answers(alloc, |StepLines(w, i)|)
  }

  /** What lines make of the store when the allocator answers them in turn. */
  ghost function HandledAll(parse: Parser, v: StoreView, lines: seq<string>, alloc: nat -> nat -> bool): StoreView {
    FoldUnder(parse, v, lines, Answers(alloc, |lines|))
  }

  lemma HandledNothing(parse: Parser, v: StoreView, alloc: nat -> nat -> bool)
    ensures HandledAll(parse, v, [], alloc) == v
  {
  }

  lemma HandledOne(parse: Parser, v: StoreView, lines: seq<string>, line: string, alloc: nat -> nat -> bool)
    ensures HandledAll(parse, v, lines + [line], alloc)
         == HandleUnder(parse, HandledAll(parse, v, lines, alloc), line, alloc(|lines|))
  {
    var n := |lines|;
    assert Answers(alloc, n + 1) == Answers(alloc, n) + [alloc(n)];
    hide FoldUnder, HandleUnder, Answers;
    FoldUnderSnoc(parse, v, lines, Answers(alloc, n), line, alloc(n));
  }

  /** The network part of a pass. */
  lemma AgreeService(parse: Parser, trace: seq<Input>, allocs: seq<nat -> bool>,
                     s: Session, timers: Outage.State, v: StoreView, i: Input, alloc: nat -> nat -> bool,
                     s': Session, timers': Outage.State, v': StoreView)
    requires Agree(parse, trace, allocs, s, timers, v) && i.Service? && Sound(s) && timers.connected == s.connected
    requires
      if !s.connected then s' == s && timers' == timers && v' == v
      else
        var a := Arrived(s, i.arrivals);
        Sound(a) &&
        if !i.ready then s' == a && timers' == timers && v' == v
        else
          s' == Drain(a) && v' == HandledAll(parse, v, NewLines(a), alloc) &&
          timers' == if s'.connected then timers
            else timers.(connected := false,
                         disconnectTime := if timers.disconnectTime == 0 then i.now else timers.disconnectTime)
    ensures Agree(parse, trace + [i], allocs + LineAllocs(Run(parse, trace), i, alloc), s', timers', v')
  {
    var w := Run(parse, trace);
    RunSnoc(parse, trace, i);
    RecentStep(parse, trace, i);
    hide Run, Recent, Origin, FoldUnder, Sound, Drain, Fold, NewLines;
    FoldUnderAppend(parse, Origin(parse, trace), Recent(parse, trace), allocs,
                    StepLines(w, i), LineAllocs(w, i, alloc));
    if !s.connected || !i.ready {
      HandledNothing(parse, v, alloc);
    }
  }

  /** The bound on the stamps, as the store itself meets it. */
  lemma ServiceFits(parse: Parser, trace: seq<Input>, allocs: seq<nat -> bool>,
                    s: Session, timers: Outage.State, v: StoreView, i: Input)
    requires Agree(parse, trace, allocs, s, timers, v) && i.Service? && s.connected
    requires Run(parse, trace + [i]).view.ioNext <= INT_MAX
    requires Sound(Arrived(s, i.arrivals))
    ensures i.ready ==> Fold(parse, v, NewLines(Arrived(s, i.arrivals))).ioNext <= INT_MAX
  {
    var w := Run(parse, trace);
    RunSnoc(parse, trace, i);
    ShownIsRun(parse, trace, allocs);
    hide Run, Recent, Origin, Sound, Drain, Fold, NewLines, Shown;
    if i.ready {
      SameStamps(parse, v, w.view, NewLines(Arrived(s, i.arrivals)));
    }
  }

  /** Stamps do not depend on the memory tab. */
  lemma {:induction false} SameStamps(parse: Parser, v: StoreView, v': StoreView, lines: seq<string>)
    requires v.ioNext == v'.ioNext
    ensures Fold(parse, v, lines).ioNext == Fold(parse, v', lines).ioNext
  {
    hide HandleLine;
    if lines != [] {
      var n := |lines| - 1;
      SameStamps(parse, v, v', lines[..n]);
      SameStamp(parse, Fold(parse, v, lines[..n]), Fold(parse, v', lines[..n]), lines[n]);
    }
  }

  lemma SameStamp(parse: Parser, v: StoreView, v': StoreView, line: string)
    requires v.ioNext == v'.ioNext
    ensures HandleLine(parse, v, line).ioNext == HandleLine(parse, v', line).ioNext
  {
    hide Inc, Accept;
  }

  lemma StampNeeded(v: StoreView, d: ParsedData)
    ensures d.cat == "io" ==> ProcessView(v, d).ioNext == v.ioNext + 1
  {
  }

  /** The next line of a drain fits if all lines of the drain do. */
  lemma NextLineFits(parse: Parser, v: StoreView, s: Session, t: Session, lines: seq<string>,
                     alloc: nat -> nat -> bool)
    requires Draining(s, t, lines) && Fold(parse, v, NewLines(s)).ioNext <= INT_MAX
    ensures var o := Delivered(Result(t), MAX_LINE);
      o.Line? ==> HandleLine(parse, HandledAll(parse, v, lines, alloc), o.raw).ioNext <= INT_MAX
  {
    var o := Delivered(Result(t), MAX_LINE);
    DrainStep(s, t, lines);
    hide Draining, Result, Call, Fold, HandleLine, Clean, Sound, NewLines, Work, HandledAll;
    if o.Line? {
      var next := lines + [o.raw];
      DrainingPrefix(s, Call(t), next);
      PrefixKeepsOrder(parse, v, next, NewLines(s));
      FoldSnoc(parse, v, lines, o.raw);
      HandledStamps(parse, v, lines, alloc);
      SameStamp(parse, HandledAll(parse, v, lines, alloc), Fold(parse, v, lines), o.raw);
    }
  }

  lemma HandledStamps(parse: Parser, v: StoreView, lines: seq<string>, alloc: nat -> nat -> bool)
    ensures HandledAll(parse, v, lines, alloc).ioNext == Fold(parse, v, lines).ioNext
  {
    hide FoldUnder, Fold;
    FailureStaysInMemory(parse, v, lines, Answers(alloc, |lines|));
  }

  lemma PrefixKeepsOrder(parse: Parser, v: StoreView, a: seq<string>, b: seq<string>)
    requires a <= b
    ensures Fold(parse, v, a).ioNext <= Fold(parse, v, b).ioNext
  {
    hide Fold;
    assert b == a + b[|a|..];
    FoldAppend(parse, v, a, b[|a|..]);
    FoldKeepsOrder(parse, Fold(parse, v, a), b[|a|..]);
  }

  // ---------------------------------------------------------------- the drain loop

  /** A drain that began at s has come to t and handled lines. */
  ghost predicate Draining(s: Session, t: Session, lines: seq<string>) {
    Sound(s) && Sound(t) && Drain(s) == Drain(t) && s.raws <= t.raws &&
    lines == CleanAll(t.raws[|s.raws|..], MAX_LINE)
  }

  lemma DrainingPrefix(s: Session, t: Session, lines: seq<string>)
    requires Draining(s, t, lines)
    ensures lines <= NewLines(s)
  {
    var d := Drain(t);
    assert t.raws <= d.raws;
    hide Sound, Drain, Clean;
    assert forall i :: 0 <= i < |lines| ==> t.raws[|s.raws|..][i] == d.raws[|s.raws|..][i];
  }

  lemma DrainNothing(s: Session)
    requires Sound(s)
    ensures Draining(s, s, [])
  {
  }

  /** What the next call does to a drain in progress. */
  lemma DrainStep(s: Session, t: Session, lines: seq<string>)
    requires Draining(s, t, lines)
    ensures Sound(Call(t))
    ensures Result(t).Line? ==>
      Draining(s, Call(t), lines + [Clean(Result(t).raw, MAX_LINE)]) && Work(Call(t)) < Work(t)
    ensures !Result(t).Line? ==> Call(t) == Drain(s) && lines == NewLines(s) && Work(Call(t)) <= Work(t)
  {
    CallKeeps(t);
    ResultReports(t);
    DrainUnfolds(t);
    hide Call, Result, Sound, Work, Clean, Drain;
    if Result(t).Line? {
      OneMore(t.raws, |s.raws|, Result(t).raw);
    }
  }

  lemma DrainUnfolds(t: Session)
    requires Sound(t)
    ensures Sound(Call(t))
    ensures Drain(t) == if Result(t).Line? then Drain(Call(t)) else Call(t)
  {
    CallKeeps(t);
  }

  lemma OneMore(raws: seq<string>, from: nat, raw: string)
    requires from <= |raws|
    ensures CleanAll((raws + [raw])[from..], MAX_LINE)
         == CleanAll(raws[from..], MAX_LINE) + [Clean(raw, MAX_LINE)]
  {
    assert (raws + [raw])[from..] == raws[from..] + [raw];
    hide Clean;
  }
}
