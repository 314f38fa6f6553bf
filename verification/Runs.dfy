/** Whole runs of the program: connections, the data store and the outage machine together. */
module Runs {
  import opened Basics
  import opened Messages
  import opened LineStream
  import opened Network
  import opened DataStore
  import Outage
  import IoHistory
  import CpuHistory
  import MemoryHistory

  const MAX_LINE := 4096       // NETWORK_MAX_LINE_SIZE

  /** past are the connections that ended. */
  datatype World = World(machine: Outage.Machine, session: Session, past: seq<Session>, view: StoreView)

  const START := World(Outage.START, NONE, [], INITIAL)

  /** One step of the program. Connect is a pass through try_connect with the socket it would
      get; Service is the network part of a loop pass, when arrivals have reached the socket and
      select may report it ready; Check is the reset check. */
  datatype Input =
    | Connect(now: int, peer: Option<seq<Answer>>)
    | Service(arrivals: seq<Answer>, ready: bool, now: int)
    | Check(now: int)

  predicate Attempts(w: World, now: int) {
    !w.machine.s.connected && !Outage.Throttled(w.machine.s, now)
  }

  /** try_connect: an attempt drops whatever the old connection still held. */
  ghost function ConnectStep(w: World, now: int, peer: Option<seq<Answer>>): (w': World)
    ensures Sound(w.session) ==> Sound(w'.session)
  {
    NoneSound();
    if !Attempts(w, now) then w
    else
      w.(machine := Outage.TryStep(w.machine, now, peer.Some?), past := w.past + [w.session],
         session := if peer.Some? then Fresh(peer.value) else NONE)
  }

  function Arrived(s: Session, arrivals: seq<Answer>): Session {
    s.(script := s.script + arrivals)
  }

  /** The lines a drain delivers. */
  ghost function NewLines(s: Session): seq<string>
    requires Sound(s)
  {
    CleanAll(Drain(s).raws[|s.raws|..], MAX_LINE)
  }

  /** process_network_data and the check for a lost connection. */
  ghost function ServiceStep(parse: Parser, w: World, arrivals: seq<Answer>, ready: bool, now: int): World
    requires Sound(w.session)
  {
    if !w.session.connected then w
    else
      var s := Arrived(w.session, arrivals);
      if !ready then w.(session := s)
      else
        w.(session := Drain(s), view := Fold(parse, w.view, NewLines(s)),
           machine := Outage.NetStep(w.machine, !Drain(s).connected, now))
  }

  ghost function CheckStep(w: World, now: int): World {
    var m := Outage.ResetStep(w.machine, now);
    if Outage.ResetDue(w.machine.s, now) then w.(machine := m, view := CLEARED) else w.(machine := m)
  }

  ghost function Step(parse: Parser, w: World, i: Input): World
    requires Sound(w.session)
  {
    match i
    case Connect(now, peer) => ConnectStep(w, now, peer)
    case Service(arrivals, ready, now) => ServiceStep(parse, w, arrivals, ready, now)
    case Check(now) => CheckStep(w, now)
  }

  lemma ArrivedSound(s: Session, arrivals: seq<Answer>)
    ensures Sound(Arrived(s, arrivals)) == Sound(s)
  {
  }

  lemma NoneSound()
    ensures Sound(NONE)
  {
  }

  lemma StepSound(parse: Parser, w: World, i: Input)
    requires Sound(w.session)
    ensures Sound(Step(parse, w, i).session)
  {
    if i.Service? {
      ArrivedSound(w.session, i.arrivals);
    }
    hide Sound, Drain;
  }

  ghost function Run(parse: Parser, inputs: seq<Input>): (w: World)
    ensures Sound(w.session)
  {
    if inputs == [] then
      NoneSound();
      START
    else
      var w := Run(parse, inputs[..|inputs| - 1]);
      StepSound(parse, w, inputs[|inputs| - 1]);
      Step(parse, w, inputs[|inputs| - 1])
  }

  lemma RunSnoc(parse: Parser, inputs: seq<Input>, i: Input)
    ensures Run(parse, inputs + [i]) == Step(parse, Run(parse, inputs), i)
  {
    assert (inputs + [i])[..|inputs|] == inputs;
  }

  lemma RunNothing(parse: Parser)
    ensures Run(parse, []) == START
  {
  }

  /** A run, taken apart at its last step. */
  lemma RunLast(parse: Parser, inputs: seq<Input>)
    requires inputs != []
    ensures Run(parse, inputs) == Step(parse, Run(parse, inputs[..|inputs| - 1]), inputs[|inputs| - 1])
  {
  }

  predicate Positive(inputs: seq<Input>) {
    forall i :: 0 <= i < |inputs| ==> inputs[i].now > 0
  }

  // ---------------------------------------------------------------- every reachable world

  ghost predicate Healthy(w: World) {
    Outage.Good(w.machine) && w.machine.s.connected == w.session.connected && Sound(w.session)
  }

  lemma StepKeeps(parse: Parser, w: World, i: Input)
    requires Healthy(w) && i.now > 0
    ensures Healthy(Step(parse, w, i))
  {
    StepSound(parse, w, i);
    match i {
      case Connect(now, peer) => Outage.TryKeeps(w.machine, now, peer.Some?);
      case Service(arrivals, ready, now) =>
        ArrivedSound(w.session, arrivals);
        Outage.NetKeeps(w.machine, !Drain(Arrived(w.session, arrivals)).connected, now);
      case Check(now) => Outage.ResetKeeps(w.machine, now);
    }
    hide Sound, Drain, Outage.Good, Fold, NewLines;
  }

  lemma {:induction false} RunIsHealthy(parse: Parser, inputs: seq<Input>)
    requires Positive(inputs)
    ensures Healthy(Run(parse, inputs))
  {
    if inputs == [] {
      NoneSound();
      hide Sound;
    } else {
      var n := |inputs| - 1;
      hide Healthy, Run, Step;
      RunIsHealthy(parse, inputs[..n]);
      RunLast(parse, inputs);
      StepKeeps(parse, Run(parse, inputs[..n]), inputs[n]);
    }
  }

  /** The rules of the outage machine hold of the trace of every run: data is cleared exactly
      where it is due, and attempts are spaced. */
  lemma {:induction false} TraceObeysRules(parse: Parser, inputs: seq<Input>)
    requires Positive(inputs)
    ensures var log := Run(parse, inputs).machine.log;
      Outage.ClearsRight(log) && Outage.AttemptsSpaced(log) && Outage.LossesSeparated(log)
  {
    hide Run, Outage.ClearsRight, Outage.AttemptsSpaced, Outage.LossesSeparated, Outage.Tracks;
    RunIsHealthy(parse, inputs);
  }

  // ---------------------------------------------------------------- what each step does

  /** In every run, a step through try_connect while the connection is down makes an attempt if and
      only if every earlier one is at least 3 seconds old. A reachable peer then opens a session
      with an empty buffer, and an unreachable one leaves none; otherwise nothing changes. */
  lemma {:induction false} ConnectAttemptsIff(parse: Parser, inputs: seq<Input>, now: int, peer: Option<seq<Answer>>)
    requires Positive(inputs) && now > 0
    ensures var w, w' := Run(parse, inputs), Run(parse, inputs + [Connect(now, peer)]);
      if !w.session.connected && Outage.MayAttempt(w.machine.log, now) then
        w'.machine.log == w.machine.log + [Outage.Attempt(now, peer.Some?)] &&
        w'.session == (if peer.Some? then Session("", peer.value, true, "", []) else Session("", [], false, "", [])) &&
        w'.view == w.view
      else w' == w
  {
    RunIsHealthy(parse, inputs);
    RunSnoc(parse, inputs, Connect(now, peer));
    Outage.MayAttemptIff(Run(parse, inputs).machine, now);
    hide Run, Outage.Good, Sound, Outage.MayAttempt, Outage.Throttled;
  }

  /** In every run, a ready pass whose next answer ends the connection takes it down, logs the loss
      and starts the timer of the outage. */
  lemma {:induction false} EndIsNoticed(parse: Parser, inputs: seq<Input>, arrivals: seq<Answer>, now: int)
    requires Positive(inputs) && now > 0
    requires var s := Run(parse, inputs).session;
      s.connected && |s.buf| < 8191 && s.script + arrivals != [] &&
      ((s.script + arrivals)[0].Closed? || (s.script + arrivals)[0].Failed?)
    ensures var w, w' := Run(parse, inputs), Run(parse, inputs + [Service(arrivals, true, now)]);
      w'.machine.log == w.machine.log + [Outage.Lost(now)] && !w'.session.connected &&
      w'.machine.s.disconnectTime == now && !w'.machine.s.resetDone && w'.view == w.view
  {
    RunIsHealthy(parse, inputs);
    RunSnoc(parse, inputs, Service(arrivals, true, now));
    var w := Run(parse, inputs);
    var a := Arrived(w.session, arrivals);
    ArrivedSound(w.session, arrivals);
    CodesOf(a);
    EndEndsDrain(a);
    assert Fold(parse, w.view, []) == w.view;
    hide Run, Sound, Drain, Fold, Outage.AttemptsBounded, Outage.AttemptsSpaced, Outage.LossesSeparated,
      Outage.ClearsRight, Outage.Online, Outage.Settled, Outage.Current;
  }

  lemma EndEndsDrain(s: Session)
    requires Sound(s) && s.connected && (Result(s).Disconnected? || Result(s).Error?)
    ensures !Drain(s).connected && Drain(s).raws == s.raws && NewLines(s) == []
  {
    ResultReports(s);
    hide Sound, Result, Call;
    assert s.raws[|s.raws|..] == [];
  }

  /** In every run, each reset check is logged, and empties the store if and only if a clear is
      due. */
  lemma {:induction false} CheckIsMade(parse: Parser, inputs: seq<Input>, now: int)
    requires Positive(inputs) && now > 0
    ensures var w, w' := Run(parse, inputs), Run(parse, inputs + [Check(now)]);
      var n, log := |w.machine.log|, w'.machine.log;
      |log| == n + 1 && log[..n] == w.machine.log && log[n] == Outage.Check(now, Outage.DueAt(log, n)) &&
      w'.session == w.session && w'.view == if Outage.DueAt(log, n) then CLEARED else w.view
  {
    RunIsHealthy(parse, inputs);
    RunSnoc(parse, inputs, Check(now));
    Outage.DueNow(Run(parse, inputs).machine, now);
    hide Run, Sound, Outage.DueAt, Outage.ResetDue, Outage.AttemptsBounded, Outage.AttemptsSpaced,
      Outage.ClearsRight, Outage.Online;
  }

  // ---------------------------------------------------------------- what is delivered

  /** The connections of a world, the current one last. */
  function Connections(w: World): seq<Session> {
    w.past + [w.session]
  }

  /** All lines delivered on some connections, in order. */
  function AllDelivered(ss: seq<Session>): seq<string> {
    if ss == [] then []
    else AllDelivered(ss[..|ss| - 1]) + CleanAll(ss[|ss| - 1].raws, MAX_LINE)
  }

  /** All lines delivered so far. */
  function LinesOut(w: World): seq<string> {
    AllDelivered(Connections(w))
  }

  lemma DeliveredSnoc(ss: seq<Session>, s: Session)
    ensures AllDelivered(ss + [s]) == AllDelivered(ss) + CleanAll(s.raws, MAX_LINE)
  {
    assert (ss + [s])[..|ss|] == ss;
  }

  lemma CleanAllAppend(a: seq<string>, b: seq<string>)
    ensures CleanAll(a + b, MAX_LINE) == CleanAll(a, MAX_LINE) + CleanAll(b, MAX_LINE)
  {
    hide Clean;
  }

  lemma CleanAllNothing()
    ensures CleanAll([], MAX_LINE) == []
  {
  }

  lemma DrainDelivers(ss: seq<Session>, s: Session)
    requires Sound(s)
    ensures AllDelivered(ss + [Drain(s)]) == AllDelivered(ss + [s]) + NewLines(s)
  {
    DrainAppends(s);
    DeliveredSnoc(ss, s);
    DeliveredSnoc(ss, Drain(s));
    hide AllDelivered, CleanAll, Drain, NewLines, Sound;
    AssocLines(AllDelivered(ss), CleanAll(s.raws, MAX_LINE), NewLines(s));
  }

  lemma AssocLines(a: seq<string>, b: seq<string>, c: seq<string>)
    ensures a + (b + c) == (a + b) + c
  {
  }

  lemma DrainAppends(s: Session)
    requires Sound(s)
    ensures CleanAll(Drain(s).raws, MAX_LINE) == CleanAll(s.raws, MAX_LINE) + NewLines(s)
  {
    var d := Drain(s);
    assert d.raws == s.raws + d.raws[|s.raws|..];
    hide CleanAll, Drain, Sound;
    CleanAllAppend(s.raws, d.raws[|s.raws|..]);
  }

  /** The lines a step delivers. */
  ghost function StepLines(w: World, i: Input): seq<string>
    requires Sound(w.session)
  {
    if i.Service? && w.session.connected && i.ready then NewLines(Arrived(w.session, i.arrivals)) else []
  }

  lemma StepDelivers(parse: Parser, w: World, i: Input)
    requires Sound(w.session)
    ensures LinesOut(Step(parse, w, i)) == LinesOut(w) + StepLines(w, i)
  {
    match i {
      case Connect(now, peer) => ConnectDelivers(w, now, peer);
      case Service(arrivals, ready, now) => ServiceDelivers(parse, w, arrivals, ready, now);
      case Check(now) => hide AllDelivered;
    }
  }

  lemma ConnectDelivers(w: World, now: int, peer: Option<seq<Answer>>)
    ensures LinesOut(ConnectStep(w, now, peer)) == LinesOut(w)
  {
    var w' := ConnectStep(w, now, peer);
    hide Sound, AllDelivered, Outage.Throttled;
    if Attempts(w, now) {
      DeliveredSnoc(w'.past, w'.session);
      assert w'.session.raws == [];
      CleanAllNothing();
    }
  }

  lemma ServiceDelivers(parse: Parser, w: World, arrivals: seq<Answer>, ready: bool, now: int)
    requires Sound(w.session)
    ensures LinesOut(ServiceStep(parse, w, arrivals, ready, now))
         == LinesOut(w) + StepLines(w, Service(arrivals, ready, now))
  {
    if w.session.connected {
      var s := Arrived(w.session, arrivals);
      ArrivedSound(w.session, arrivals);
      DeliveredSnoc(w.past, w.session);
      DeliveredSnoc(w.past, s);
      DrainDelivers(w.past, s);
      hide Sound, Drain, Fold, AllDelivered, NewLines, CleanAll;
    }
  }

  /** The step from w to w' was a check that cleared the data, as its log shows. */
  predicate Clears(w: World, w': World) {
    var n := |w.machine.log|;
    |w'.machine.log| == n + 1 && w'.machine.log[n].Check? && w'.machine.log[n].cleared
  }

  /** The effect of one step on log, deliveries and store: a cleared check empties the store and
      delivers nothing, and any other step, a reconnection included, changes the store exactly by
      the lines it delivers. */
  lemma {:induction false} StepEffect(parse: Parser, w: World, i: Input)
    requires Sound(w.session)
    ensures var w' := Step(parse, w, i);
      w.machine.log <= w'.machine.log && LinesOut(w) <= LinesOut(w') &&
      if Clears(w, w') then w'.view == CLEARED && LinesOut(w') == LinesOut(w)
      else w'.view == Fold(parse, w.view, LinesOut(w')[|LinesOut(w)|..])
  {
    StepDelivers(parse, w, i);
    StepStores(parse, w, i);
    var w' := Step(parse, w, i);
    hide Step, Sound, LinesOut, Clears, Fold, StepLines;
    assert LinesOut(w')[|LinesOut(w)|..] == StepLines(w, i);
  }

  lemma StepStores(parse: Parser, w: World, i: Input)
    requires Sound(w.session)
    ensures var w' := Step(parse, w, i);
      w.machine.log <= w'.machine.log &&
      if Clears(w, w') then w'.view == CLEARED && StepLines(w, i) == []
      else w'.view == Fold(parse, w.view, StepLines(w, i))
  {
    assert Fold(parse, w.view, []) == w.view;
    hide Sound, Fold, NewLines, Drain, Outage.Throttled;
  }

  /** The step count at the last cleared check of a run, or 0. */
  ghost function LastClear(parse: Parser, inputs: seq<Input>): (k: nat)
    ensures k <= |inputs|
  {
    if inputs == [] then 0
    else
      var n := |inputs| - 1;
      if Clears(Run(parse, inputs[..n]), Run(parse, inputs)) then |inputs| else LastClear(parse, inputs[..n])
  }

  /** No check in the log, from its place k on, cleared the data. */
  predicate NoClear(log: seq<Outage.Event>, k: nat) {
    forall j :: k <= j < |log| && log[j].Check? ==> !log[j].cleared
  }

  /** All lines delivered in a run after its first k steps. */
  ghost function LinesSince(parse: Parser, inputs: seq<Input>, k: nat): seq<string>
    requires k <= |inputs|
  {
    var before, after := LinesOut(Run(parse, inputs[..k])), LinesOut(Run(parse, inputs));
    if |before| <= |after| then after[|before|..] else []
  }

  lemma {:induction false} DeliveredGrows(parse: Parser, inputs: seq<Input>, k: nat)
    requires k <= |inputs|
    ensures LinesOut(Run(parse, inputs[..k])) <= LinesOut(Run(parse, inputs))
    ensures Run(parse, inputs[..k]).machine.log <= Run(parse, inputs).machine.log
  {
    var n := |inputs| - 1;
    if k == |inputs| {
      assert inputs[..k] == inputs;
    } else {
      assert inputs[..n][..k] == inputs[..k];
      hide Run, LinesOut, Step, Clears;
      DeliveredGrows(parse, inputs[..n], k);
      RunLast(parse, inputs);
      StepEffect(parse, Run(parse, inputs[..n]), inputs[n]);
    }
  }

  /** From any point of a run to any later one with no cleared check between, the store changes
      exactly by the lines delivered between, whatever connections were lost and made. */
  lemma {:induction false} DataSurvives(parse: Parser, inputs: seq<Input>, k: nat)
    requires k <= |inputs| && NoClear(Run(parse, inputs).machine.log, |Run(parse, inputs[..k]).machine.log|)
    ensures Run(parse, inputs).view == Fold(parse, Run(parse, inputs[..k]).view, LinesSince(parse, inputs, k))
  {
    var n := |inputs| - 1;
    if k == |inputs| {
      assert inputs[..k] == inputs;
      assert LinesSince(parse, inputs, k) == [];
    } else {
      assert inputs[..n][..k] == inputs[..k];
      DeliveredGrows(parse, inputs[..n], k);
      RunLast(parse, inputs);
      StepEffect(parse, Run(parse, inputs[..n]), inputs[n]);
      var v, w, w' := Run(parse, inputs[..k]), Run(parse, inputs[..n]), Run(parse, inputs);
      NoClearBefore(v, w, w');
      hide Run, Step, Fold, Clears, NoClear, LinesOut;
      DataSurvives(parse, inputs[..n], k);
      SuffixLonger(LinesOut(v), LinesOut(w), LinesOut(w'));
      FoldAppend(parse, v.view, LinesSince(parse, inputs[..n], k), LinesOut(w')[|LinesOut(w)|..]);
    }
  }

  lemma NoClearBefore(v: World, w: World, w': World)
    requires v.machine.log <= w.machine.log <= w'.machine.log
    requires NoClear(w'.machine.log, |v.machine.log|)
    ensures NoClear(w.machine.log, |v.machine.log|) && !Clears(w, w')
  {
  }

  lemma SuffixLonger(a: seq<string>, b: seq<string>, c: seq<string>)
    requires a <= b <= c
    ensures c[|a|..] == b[|a|..] + c[|b|..]
  {
  }

  /** The store's state when it was last empty, and the lines delivered since. */
  ghost function Origin(parse: Parser, inputs: seq<Input>): StoreView {
    if LastClear(parse, inputs) == 0 then INITIAL else CLEARED
  }

  ghost function Recent(parse: Parser, inputs: seq<Input>): seq<string> {
    LinesSince(parse, inputs, LastClear(parse, inputs))
  }

  /** In every run the store is the fold of parse-then-process over exactly the lines delivered,
      on any connections, after the last check that cleared the data; only such a check empties
      it. */
  lemma {:induction false} StoreIsRecentLines(parse: Parser, inputs: seq<Input>)
    ensures Run(parse, inputs).view == Fold(parse, Origin(parse, inputs), Recent(parse, inputs))
    ensures LastClear(parse, inputs) == 0 <==> NoClear(Run(parse, inputs).machine.log, 0)
  {
    var k := LastClear(parse, inputs);
    LastClearIsLast(parse, inputs);
    DataSurvives(parse, inputs, k);
    RunNothing(parse);
    hide Run, Fold, NoClear;
    if k == 0 {
      assert inputs[..0] == [];
    }
  }

  /** A step either clears, and nothing is recent, or adds the lines it delivers. */
  lemma {:induction false} RecentStep(parse: Parser, inputs: seq<Input>, i: Input)
    ensures var w, w', inputs' := Run(parse, inputs), Run(parse, inputs + [i]), inputs + [i];
      if Clears(w, w') then Recent(parse, inputs') == [] && Origin(parse, inputs') == CLEARED
      else
        Recent(parse, inputs') == Recent(parse, inputs) + StepLines(w, i) &&
        Origin(parse, inputs') == Origin(parse, inputs)
  {
    var inputs' := inputs + [i];
    RecentIs(parse, inputs);
    RecentIs(parse, inputs');
    LastClearSnoc(parse, inputs, i);
    hide *;
    if Clears(Run(parse, inputs), Run(parse, inputs')) {
      NothingSince(parse, inputs');
    } else {
      MoreSince(parse, inputs, i, LastClear(parse, inputs));
    }
  }

  lemma LastClearSnoc(parse: Parser, inputs: seq<Input>, i: Input)
    ensures LastClear(parse, inputs + [i])
         == if Clears(Run(parse, inputs), Run(parse, inputs + [i])) then |inputs + [i]| else LastClear(parse, inputs)
  {
    hide Run, Clears;
    assert (inputs + [i])[..|inputs|] == inputs;
  }

  lemma NothingSince(parse: Parser, inputs: seq<Input>)
    ensures LinesSince(parse, inputs, |inputs|) == []
  {
    hide Run, LinesOut;
    assert inputs[..|inputs|] == inputs;
  }

  lemma MoreSince(parse: Parser, inputs: seq<Input>, i: Input, k: nat)
    requires k <= |inputs|
    ensures LinesSince(parse, inputs + [i], k) == LinesSince(parse, inputs, k) + StepLines(Run(parse, inputs), i)
  {
    LinesSinceIs(parse, inputs, k);
    LinesSinceIs(parse, inputs + [i], k);
    SamePrefix(inputs, i, k);
    hide *;
    RunSnoc(parse, inputs, i);
    StepDelivers(parse, Run(parse, inputs), i);
    SuffixMore(LinesOut(Run(parse, inputs[..k])), LinesOut(Run(parse, inputs)), StepLines(Run(parse, inputs), i));
  }

  lemma SamePrefix(inputs: seq<Input>, i: Input, k: nat)
    requires k <= |inputs|
    ensures (inputs + [i])[..k] == inputs[..k]
  {
  }

  lemma SuffixMore(a: seq<string>, b: seq<string>, c: seq<string>)
    requires a <= b
    ensures (b + c)[|a|..] == b[|a|..] + c
  {
  }

  lemma RecentIs(parse: Parser, inputs: seq<Input>)
    ensures Recent(parse, inputs) == LinesSince(parse, inputs, LastClear(parse, inputs))
    ensures Origin(parse, inputs) == if LastClear(parse, inputs) == 0 then INITIAL else CLEARED
  {
    hide LastClear, LinesSince;
  }

  lemma LinesSinceIs(parse: Parser, inputs: seq<Input>, k: nat)
    requires k <= |inputs|
    ensures var before, after := LinesOut(Run(parse, inputs[..k])), LinesOut(Run(parse, inputs));
      before <= after && LinesSince(parse, inputs, k) == after[|before|..]
  {
    DeliveredGrows(parse, inputs, k);
    hide Run, LinesOut;
  }

  lemma {:induction false} LastClearIsLast(parse: Parser, inputs: seq<Input>)
    ensures var k := LastClear(parse, inputs);
      NoClear(Run(parse, inputs).machine.log, |Run(parse, inputs[..k]).machine.log|) &&
      if k == 0 then NoClear(Run(parse, inputs).machine.log, 0)
      else Run(parse, inputs[..k]).view == CLEARED && !NoClear(Run(parse, inputs).machine.log, 0)
  {
    if inputs == [] {
      NeverCleared(parse);
    } else {
      var n := |inputs| - 1;
      var w, w' := Run(parse, inputs[..n]), Run(parse, inputs);
      LastClearNext(parse, inputs);
      RunLast(parse, inputs);
      hide *;
      StepEffect(parse, w, inputs[n]);
      LastClearIsLast(parse, inputs[..n]);
      LogStep(parse, w, inputs[n]);
      if Clears(w, w') {
        WholePrefix(inputs);
        ClearSeen(w, w');
      } else {
        var k := LastClear(parse, inputs);
        PrefixOfPrefix(inputs, n, k);
        DeliveredGrows(parse, inputs[..n], k);
        NoClearAfter(|Run(parse, inputs[..k]).machine.log|, w, w');
        NoClearAfter(0, w, w');
      }
    }
  }

  lemma WholePrefix(inputs: seq<Input>)
    ensures inputs[..|inputs|] == inputs
  {
  }

  lemma PrefixOfPrefix(inputs: seq<Input>, n: nat, k: nat)
    requires k <= n <= |inputs|
    ensures inputs[..n][..k] == inputs[..k]
  {
  }

  lemma NeverCleared(parse: Parser)
    ensures LastClear(parse, []) == 0 && NoClear(Run(parse, []).machine.log, 0)
    ensures NoClear(Run(parse, []).machine.log, |Run(parse, [][..0]).machine.log|)
  {
    RunNothing(parse);
    hide Run;
  }

  lemma LastClearNext(parse: Parser, inputs: seq<Input>)
    requires inputs != []
    ensures var n := |inputs| - 1;
      LastClear(parse, inputs)
        == if Clears(Run(parse, inputs[..n]), Run(parse, inputs)) then |inputs| else LastClear(parse, inputs[..n])
  {
    hide Run, Clears;
  }

  lemma LogStep(parse: Parser, w: World, i: Input)
    requires Sound(w.session)
    ensures |Step(parse, w, i).machine.log| <= |w.machine.log| + 1
  {
    hide Sound, Fold, NewLines, Drain;
  }

  lemma ClearSeen(w: World, w': World)
    requires Clears(w, w')
    ensures !NoClear(w'.machine.log, 0) && NoClear(w'.machine.log, |w'.machine.log|)
  {
  }

  lemma NoClearAfter(k: nat, w: World, w': World)
    requires k <= |w.machine.log| && w.machine.log <= w'.machine.log
    requires |w'.machine.log| <= |w.machine.log| + 1 && !Clears(w, w')
    ensures NoClear(w.machine.log, k) <==> NoClear(w'.machine.log, k)
  {
  }

  // ---------------------------------------------------------------- the tabs of a run

  /** The messages among the lines delivered since the last clear. */
  ghost function RecentMessages(parse: Parser, inputs: seq<Input>): seq<ParsedData> {
    Parsed(parse, Recent(parse, inputs))
  }

  ghost function RecentOf(parse: Parser, inputs: seq<Input>, cat: string): seq<ParsedData> {
    OfCategory(RecentMessages(parse, inputs), cat)
  }

  /** In every run each tab is the replay of its own messages since the last clear, and nothing
      else. */
  lemma {:induction false} TabsOfRun(parse: Parser, inputs: seq<Input>)
    ensures var ds := RecentMessages(parse, inputs);
      Run(parse, inputs).view
        == Tabs(ds, Origin(parse, inputs).mem, |Recent(parse, inputs)| - |ds|)
  {
    OriginIsEmpty(parse, inputs);
    RecentAreParsed(parse, inputs);
    hide *;
    StoreIsRecentLines(parse, inputs);
    FoldIsTabs(parse, Origin(parse, inputs).mem, Recent(parse, inputs));
  }

  lemma OriginIsEmpty(parse: Parser, inputs: seq<Input>)
    ensures Origin(parse, inputs) == Empty(Origin(parse, inputs).mem)
  {
    hide LastClear;
  }

  lemma RecentAreParsed(parse: Parser, inputs: seq<Input>)
    ensures RecentMessages(parse, inputs) == Parsed(parse, Recent(parse, inputs))
  {
    hide Parsed, Recent;
  }

  /** Field by field. */
  lemma {:induction false} TabFieldsOfRun(parse: Parser, inputs: seq<Input>)
    ensures var v, io, cpu := Run(parse, inputs).view, RecentOf(parse, inputs, "io"), RecentOf(parse, inputs, "cpu");
      v.io == IoHistory.Replay(io) && v.cpu == CpuHistory.Replay(cpu) &&
      v.mem == MemoryHistory.Replay(Origin(parse, inputs).mem, Writes(RecentMessages(parse, inputs)))
  {
    var ds := RecentMessages(parse, inputs);
    var errors: nat := |Recent(parse, inputs)| - |ds|;
    hide Run, Origin, Recent, RecentMessages, Parsed, Tabs, OfCategory, Writes,
      IoHistory.Replay, CpuHistory.Replay, MemoryHistory.Replay;
    TabsOfRun(parse, inputs);
    TabsFields(ds, Origin(parse, inputs).mem, errors);
  }

  /** The I/O tab of every run is the exact LRU of its io messages. */
  lemma {:induction false} IoOfRun(parse: Parser, inputs: seq<Input>)
    ensures var io := RecentOf(parse, inputs, "io");
      IoHistory.Shows(Run(parse, inputs).view.io, io, IoHistory.Last(IoHistory.Recency(io), 2048))
  {
    hide *;
    TabFieldsOfRun(parse, inputs);
    IoHistory.ExactLru(RecentOf(parse, inputs, "io"));
  }

  /** The CPU tab of every run is the first 64 distinct keys of its cpu messages with their last
      values, and each shortcut is the slot of the last stored message for its registers. */
  lemma {:induction false} CpuOfRun(parse: Parser, inputs: seq<Input>, r: CpuHistory.Register)
    ensures var cpu, tab := RecentOf(parse, inputs, "cpu"), Run(parse, inputs).view.cpu;
      CpuHistory.Shows(tab.entries, cpu, CpuHistory.Take(CpuHistory.FirstTouches(cpu), 64)) &&
      CpuHistory.LastPointer(cpu, tab.entries, CpuHistory.Slot(tab.quick, r), r)
  {
    hide *;
    TabFieldsOfRun(parse, inputs);
    CpuHistory.TableIsFirstKeys(RecentOf(parse, inputs, "cpu"));
    CpuHistory.QuickIndexIsLastSlot(RecentOf(parse, inputs, "cpu"), r);
  }

  /** The memory tab of every run holds at each address the last byte written there, and nothing
      at an address not written. */
  lemma {:induction false} MemoryOfRun(parse: Parser, inputs: seq<Input>, a: Word32)
    ensures var bytes := Run(parse, inputs).view.mem.bytes;
      match MemoryHistory.LastWritten(Writes(RecentMessages(parse, inputs)), a)
      case None => a !in bytes
      case Some(b) => a in bytes && bytes[a] == b
  {
    hide Run, RecentMessages, RecentOf, LastClear, Writes, MemoryHistory.LastWritten, MemoryHistory.Replay;
    TabFieldsOfRun(parse, inputs);
    MemoryHistory.ReplayHoldsLastWrite(Origin(parse, inputs).mem, Writes(RecentMessages(parse, inputs)), a);
  }

  /** When the address range of a run is exact, once something is stored. */
  lemma {:induction false} RangeOfRun(parse: Parser, inputs: seq<Input>)
    ensures var ws := Writes(RecentMessages(parse, inputs));
      ws != [] ==>
        (MemoryHistory.RangeExact(Run(parse, inputs).view.mem) <==>
          if LastClear(parse, inputs) == 0 then
            MemoryHistory.Touches(ws, 0) && (MemoryHistory.AllStraight(ws) || MemoryHistory.EndsAt(ws, 0xFFFF_FFFF))
          else
            MemoryHistory.AllStraight(ws) || (MemoryHistory.StartsAt(ws, 0) && MemoryHistory.EndsAt(ws, 0xFFFF_FFFF)))
  {
    var ws := Writes(RecentMessages(parse, inputs));
    assert MemoryHistory.AllProper(ws);
    hide Run, RecentMessages, RecentOf, LastClear, Writes, MemoryHistory.Replay, MemoryHistory.RangeExact,
      MemoryHistory.Touches, MemoryHistory.AllStraight, MemoryHistory.EndsAt, MemoryHistory.StartsAt;
    TabFieldsOfRun(parse, inputs);
    if ws == [] {
    } else if LastClear(parse, inputs) == 0 {
      MemoryHistory.InitialRangeIff(ws);
    } else {
      MemoryHistory.RangeExactIff(ws);
    }
  }

  /** The counters of every run, modulo 2^64: each line delivered since the last clear is a message
      or a parse error, and each tab counts its own messages. */
  lemma {:induction false} CountersOfRun(parse: Parser, inputs: seq<Input>)
    ensures var v, ds := Run(parse, inputs).view, RecentMessages(parse, inputs);
      v.total == |ds| % WORD64 && v.errors == (|Recent(parse, inputs)| - |ds|) % WORD64 &&
      v.ioCount == |OfCategory(ds, "io")| % WORD64 && v.cpuCount == |OfCategory(ds, "cpu")| % WORD64 &&
      v.memCount == MemMessages(ds) % WORD64 && v.textCount == TextMessages(ds) % WORD64
  {
    OriginIsEmpty(parse, inputs);
    RecentAreParsed(parse, inputs);
    hide *;
    StoreIsRecentLines(parse, inputs);
    Accounting(parse, Origin(parse, inputs).mem, Recent(parse, inputs));
  }

  // ---------------------------------------------------------------- across connections

  /** What the sockets have been given after a step: an attempt opens one more, and arrivals go to
      the current one. */
  function Given(w: World, i: Input, fed: seq<seq<Answer>>): (fed': seq<seq<Answer>>)
    requires |fed| > 0
    ensures |fed'| > 0
  {
    match i
    case Connect(now, peer) =>
      if Attempts(w, now) then fed + [if peer.Some? then peer.value else []] else fed
    case Service(arrivals, ready, now) =>
      if w.session.connected then fed[|fed| - 1 := fed[|fed| - 1] + arrivals] else fed
    case Check(now) => fed
  }

  /** The answers each socket of a run was given, in the order of Connections; the first entry
      stands for the time before the first attempt. */
  ghost function Sockets(parse: Parser, inputs: seq<Input>): (fed: seq<seq<Answer>>)
    ensures |fed| > 0
  {
    if inputs == [] then [[]]
    else
      var n := |inputs| - 1;
      Given(Run(parse, inputs[..n]), inputs[n], Sockets(parse, inputs[..n]))
  }

  /** A session carries exactly what its socket was given. */
  ghost predicate Carries(s: Session, given: seq<Answer>) {
    Sound(s) && Stream(s) == Pending(given) && EndIsLast(s) &&
    (s.connected ==> (Open(s.script) <==> Open(given)))
  }

  ghost predicate AllCarry(ss: seq<Session>, fed: seq<seq<Answer>>) {
    |ss| == |fed| && forall k :: 0 <= k < |ss| ==> Carries(ss[k], fed[k])
  }

  lemma FreshCarries(peer: Option<seq<Answer>>)
    ensures Carries(if peer.Some? then Fresh(peer.value) else NONE, if peer.Some? then peer.value else [])
  {
    NoneSound();
  }

  lemma ArrivedCarries(s: Session, given: seq<Answer>, arrivals: seq<Answer>)
    requires Carries(s, given) && s.connected
    ensures Carries(Arrived(s, arrivals), given + arrivals)
  {
    ArrivedSound(s, arrivals);
    PendingAppend(s.script, arrivals);
    PendingAppend(given, arrivals);
    Assoc(s.received, Pending(s.script), Pending(arrivals));
    hide Sound, Open, Pending;
  }

  lemma DrainCarries(s: Session, given: seq<Answer>)
    requires Carries(s, given) && s.connected
    ensures Carries(Drain(s), given)
  {
    DrainKeepsOpen(s);
    DrainEnds(s);
    hide Sound, Open, Pending, Stream, EndIsLast;
  }

  lemma CarrySnoc(ss: seq<Session>, fed: seq<seq<Answer>>, s: Session, given: seq<Answer>)
    requires AllCarry(ss, fed) && Carries(s, given)
    ensures AllCarry(ss + [s], fed + [given])
  {
    hide Carries;
  }

  lemma CarryLast(past: seq<Session>, s: Session, fed: seq<seq<Answer>>)
    requires AllCarry(past + [s], fed)
    ensures |fed| == |past| + 1 && AllCarry(past, fed[..|past|]) && Carries(s, fed[|past|])
  {
    hide Carries;
    var ss := past + [s];
    assert ss[|past|] == s && forall k :: 0 <= k < |past| ==> past[k] == ss[k] && fed[..|past|][k] == fed[k];
  }

  lemma CarryReplace(past: seq<Session>, s: Session, fed: seq<seq<Answer>>, s': Session, given: seq<Answer>)
    requires AllCarry(past + [s], fed) && Carries(s', given)
    ensures |fed| > 0 && AllCarry(past + [s'], fed[|fed| - 1 := given])
  {
    hide Carries;
    CarryLast(past, s, fed);
    CarrySnoc(past, fed[..|past|], s', given);
    assert fed[|fed| - 1 := given] == fed[..|past|] + [given];
  }

  lemma ServiceCarries(parse: Parser, w: World, fed: seq<seq<Answer>>, arrivals: seq<Answer>, ready: bool, now: int)
    requires Sound(w.session) && AllCarry(Connections(w), fed) && fed != [] && w.session.connected
    ensures AllCarry(Connections(ServiceStep(parse, w, arrivals, ready, now)),
                     fed[|fed| - 1 := fed[|fed| - 1] + arrivals])
  {
    var s := Arrived(w.session, arrivals);
    ArrivedSound(w.session, arrivals);
    var given := fed[|fed| - 1] + arrivals;
    hide Sound, AllCarry, Carries, Drain, Fold, NewLines;
    CarryLast(w.past, w.session, fed);
    ArrivedCarries(w.session, fed[|fed| - 1], arrivals);
    DrainCarries(s, given);
    CarryReplace(w.past, w.session, fed, if ready then Drain(s) else s, given);
  }

  lemma {:induction false} SocketsAreCarried(parse: Parser, inputs: seq<Input>)
    ensures AllCarry(Connections(Run(parse, inputs)), Sockets(parse, inputs))
  {
    if inputs == [] {
      NoneCarries(parse);
    } else {
      var n := |inputs| - 1;
      SocketsLast(parse, inputs);
      RunLast(parse, inputs);
      hide *;
      SocketsAreCarried(parse, inputs[..n]);
      StepCarries(parse, Run(parse, inputs[..n]), inputs[n], Sockets(parse, inputs[..n]));
    }
  }

  lemma NoneCarries(parse: Parser)
    ensures AllCarry(Connections(Run(parse, [])), Sockets(parse, []))
  {
    FreshCarries(None);
    RunNothing(parse);
    hide Carries, Run;
  }

  lemma SocketsLast(parse: Parser, inputs: seq<Input>)
    requires inputs != []
    ensures var n := |inputs| - 1;
      Sockets(parse, inputs) == Given(Run(parse, inputs[..n]), inputs[n], Sockets(parse, inputs[..n]))
  {
    hide Run, Given;
  }

  lemma StepCarries(parse: Parser, w: World, i: Input, fed: seq<seq<Answer>>)
    requires Sound(w.session) && fed != [] && AllCarry(Connections(w), fed)
    ensures AllCarry(Connections(Step(parse, w, i)), Given(w, i, fed))
  {
    hide AllCarry, Carries, ServiceStep, Sound, Outage.Throttled;
    match i {
      case Connect(now, peer) =>
        FreshCarries(peer);
        if Attempts(w, now) {
          CarrySnoc(Connections(w), fed, ConnectStep(w, now, peer).session, if peer.Some? then peer.value else []);
        }
      case Service(arrivals, ready, now) =>
        if w.session.connected {
          ServiceCarries(parse, w, fed, arrivals, ready, now);
        } else {
          ServiceIdle(parse, w, arrivals, ready, now);
        }
      case Check(now) =>
    }
  }

  lemma ServiceIdle(parse: Parser, w: World, arrivals: seq<Answer>, ready: bool, now: int)
    requires Sound(w.session) && !w.session.connected
    ensures ServiceStep(parse, w, arrivals, ready, now) == w
  {
  }

  /** Over any sequence of connections, closes and errors: what a connection received is the start
      of what its own peer sent, the lines delivered on it are the first lines of that, and
      together with what its buffer held they are exactly the bytes received. No line mixes two
      connections. */
  lemma {:induction false} LinesStayOnTheirConnection(parse: Parser, inputs: seq<Input>, k: nat)
    requires k < |Connections(Run(parse, inputs))|
    ensures |Sockets(parse, inputs)| == |Connections(Run(parse, inputs))|
    ensures var s, sent := Connections(Run(parse, inputs))[k], Pending(Sockets(parse, inputs)[k]);
      s.received <= sent && s.received == Unsplit(s.raws) + s.buf && s.raws <= Lines(sent)
  {
    SocketsAreCarried(parse, inputs);
    var s, given := Connections(Run(parse, inputs))[k], Sockets(parse, inputs)[k];
    assert Carries(s, given);
    hide Run, Connections, Sockets, Pending, Lines, Unsplit;
    SoundLines(s);
  }

  /** A connection of a run that is over received all its peer sent before the end, and delivered
      every complete line of it if and only if none was left in the buffer. */
  lemma {:induction false} EndedDeliversAllIff(parse: Parser, inputs: seq<Input>, k: nat)
    requires k < |Connections(Run(parse, inputs))| && !Connections(Run(parse, inputs))[k].connected
    ensures |Sockets(parse, inputs)| == |Connections(Run(parse, inputs))|
    ensures var s, sent := Connections(Run(parse, inputs))[k], Pending(Sockets(parse, inputs)[k]);
      s.received == sent && (s.raws == Lines(sent) <==> NoNewline(s.buf))
  {
    SocketsAreCarried(parse, inputs);
    var s, given := Connections(Run(parse, inputs))[k], Sockets(parse, inputs)[k];
    assert Carries(s, given);
    assert s.received + "" == s.received && s.buf + "" == s.buf;
    hide Run, Connections, Sockets, Pending, Lines, Unsplit, NoNewline;
    SoundLines(s);
    if NoNewline(s.buf) {
      LinesNone(s.buf);
    } else {
      LinesSome(s.buf);
    }
  }

  /** All connections of a run but the last are over. */
  lemma {:induction false} EarlierConnectionsEnded(parse: Parser, inputs: seq<Input>, k: nat)
    requires Positive(inputs) && k < |Run(parse, inputs).past|
    ensures !Run(parse, inputs).past[k].connected
  {
    if inputs == [] {
      RunNothing(parse);
    } else {
      var n := |inputs| - 1;
      var w := Run(parse, inputs[..n]);
      EarlierPositive(inputs);
      hide *;
      RunLast(parse, inputs);
      RunIsHealthy(parse, inputs[..n]);
      StepPast(parse, w, inputs[n]);
      if k < |w.past| {
        EarlierConnectionsEnded(parse, inputs[..n], k);
      }
    }
  }

  lemma EarlierPositive(inputs: seq<Input>)
    requires Positive(inputs) && inputs != []
    ensures Positive(inputs[..|inputs| - 1])
  {
  }

  /** Only a connection that is over becomes a past one. */
  lemma StepPast(parse: Parser, w: World, i: Input)
    requires Healthy(w)
    ensures var w' := Step(parse, w, i);
      w'.past == w.past || (w'.past == w.past + [w.session] && !w.session.connected)
  {
    hide Sound, Drain, Fold, NewLines, Outage.Good, Outage.Throttled;
  }

  // ---------------------------------------------------------------- while the connection is down

  /** A step that starts and ends disconnected changes the data only by clearing it, and only at
      a check that the outage machine finds due. */
  lemma DataFrozenWhileDown(parse: Parser, w: World, i: Input)
    requires Healthy(w) && !w.session.connected && !Step(parse, w, i).session.connected
    ensures var w' := Step(parse, w, i);
      if i.Check? && Outage.ResetDue(w.machine.s, i.now) then w'.view == CLEARED
      else w'.view == w.view
  {
  }

  ghost function RunFrom(parse: Parser, w: World, inputs: seq<Input>): (w': World)
    requires Sound(w.session)
    ensures Sound(w'.session)
  {
    if inputs == [] then w
    else
      var w1 := RunFrom(parse, w, inputs[..|inputs| - 1]);
      StepSound(parse, w1, inputs[|inputs| - 1]);
      Step(parse, w1, inputs[|inputs| - 1])
  }

  /** The connection never comes back during inputs. */
  ghost predicate StaysDown(parse: Parser, w: World, inputs: seq<Input>)
    requires Sound(w.session)
  {
    forall k :: 0 <= k <= |inputs| ==> !RunFrom(parse, w, inputs[..k]).session.connected
  }

  /** Once cleared, the data stays cleared until the connection comes back. */
  lemma {:induction false} StaysCleared(parse: Parser, w: World, inputs: seq<Input>)
    requires Healthy(w) && w.view == CLEARED && Positive(inputs) && StaysDown(parse, w, inputs)
    ensures Healthy(RunFrom(parse, w, inputs)) && RunFrom(parse, w, inputs).view == CLEARED
  {
    if inputs != [] {
      var n := |inputs| - 1;
      var earlier := inputs[..n];
      DownBefore(parse, w, inputs);
      DownNow(parse, w, inputs);
      StaysCleared(parse, w, earlier);
      var w1 := RunFrom(parse, w, earlier);
      hide RunFrom, StaysDown, Healthy, Sound, Step;
      StepKeeps(parse, w1, inputs[n]);
      DataFrozenWhileDown(parse, w1, inputs[n]);
      FromSnoc(parse, w, inputs);
    }
  }

  lemma FromSnoc(parse: Parser, w: World, inputs: seq<Input>)
    requires Sound(w.session) && inputs != []
    ensures var w1 := RunFrom(parse, w, inputs[..|inputs| - 1]);
      RunFrom(parse, w, inputs) == Step(parse, w1, inputs[|inputs| - 1])
  {
  }

  lemma DownBefore(parse: Parser, w: World, inputs: seq<Input>)
    requires Sound(w.session) && inputs != [] && StaysDown(parse, w, inputs)
    ensures StaysDown(parse, w, inputs[..|inputs| - 1])
  {
    var earlier := inputs[..|inputs| - 1];
    hide RunFrom, Sound;
    forall k | 0 <= k <= |earlier|
      ensures !RunFrom(parse, w, earlier[..k]).session.connected
    {
      hide StaysDown;
      DownAt(parse, w, inputs, k);
      assert earlier[..k] == inputs[..k];
    }
  }

  lemma DownNow(parse: Parser, w: World, inputs: seq<Input>)
    requires Sound(w.session) && inputs != [] && StaysDown(parse, w, inputs)
    ensures !RunFrom(parse, w, inputs[..|inputs| - 1]).session.connected
    ensures !RunFrom(parse, w, inputs).session.connected
  {
    hide *;
    DownAt(parse, w, inputs, |inputs| - 1);
    DownAt(parse, w, inputs, |inputs|);
    assert inputs[..|inputs|] == inputs;
  }

  lemma DownAt(parse: Parser, w: World, inputs: seq<Input>, k: nat)
    requires Sound(w.session) && StaysDown(parse, w, inputs) && k <= |inputs|
    ensures !RunFrom(parse, w, inputs[..k]).session.connected
  {
    hide RunFrom, Sound;
  }

  // ---------------------------------------------------------------- end to end

  /** Between steps no complete line waits in the buffer of a live connection. */
  lemma {:induction false} RunLeavesNoLine(parse: Parser, inputs: seq<Input>)
    ensures NoLineWaits(Run(parse, inputs).session)
  {
    if inputs == [] {
      RunNothing(parse);
    } else {
      var n := |inputs| - 1;
      RunLast(parse, inputs);
      hide Run, Step, NoLineWaits;
      RunLeavesNoLine(parse, inputs[..n]);
      StepLeavesNoLine(parse, Run(parse, inputs[..n]), inputs[n]);
    }
  }

  lemma StepLeavesNoLine(parse: Parser, w: World, i: Input)
    requires Sound(w.session) && NoLineWaits(w.session)
    ensures NoLineWaits(Step(parse, w, i).session)
  {
    if i.Service? {
      ArrivedSound(w.session, i.arrivals);
      DrainEmpties(Arrived(w.session, i.arrivals));
    }
    hide Sound, Drain, Fold, NewLines;
  }

  predicate AllOpen(inputs: seq<Input>) {
    forall i :: 0 <= i < |inputs| && inputs[i].Service? ==> Open(inputs[i].arrivals)
  }

  /** All bytes that arrive during the inputs. */
  function Arrivals(inputs: seq<Input>): string {
    if inputs == [] then ""
    else
      var n := |inputs| - 1;
      Arrivals(inputs[..n]) + if inputs[n].Service? then Pending(inputs[n].arrivals) else ""
  }

  lemma InputsLast(inputs: seq<Input>)
    requires inputs != [] && Positive(inputs) && AllOpen(inputs)
    ensures var n := |inputs| - 1;
      Positive(inputs[..n]) && AllOpen(inputs[..n]) && inputs[n].now > 0 &&
      (inputs[n].Service? ==> Open(inputs[n].arrivals)) &&
      Arrivals(inputs) == Arrivals(inputs[..n]) + if inputs[n].Service? then Pending(inputs[n].arrivals) else ""
  {
    hide Open, Pending;
  }

  lemma SnocAssoc(a: seq<Input>, b: seq<Input>)
    requires b != []
    ensures a + b == (a + b[..|b| - 1]) + [b[|b| - 1]]
  {
  }

  /** A connection is up since the store showed base, and its peer has sent sent. */
  ghost predicate Up(parse: Parser, w: World, base: StoreView, sent: string) {
    Healthy(w) && w.session.connected && Open(w.session.script) && Stream(w.session) == sent &&
    w.view == Fold(parse, base, CleanAll(w.session.raws, MAX_LINE))
  }

  lemma ConnectUp(parse: Parser, w: World, now: int, peer: seq<Answer>)
    requires Healthy(w) && now > 0 && Attempts(w, now) && Open(peer)
    ensures Up(parse, ConnectStep(w, now, Some(peer)), w.view, Pending(peer))
  {
    StepKeeps(parse, w, Connect(now, Some(peer)));
    CleanAllNothing();
    assert Fold(parse, w.view, []) == w.view;
    hide Healthy, Fold, CleanAll, Open, Sound, Outage.Throttled;
  }

  lemma StepUp(parse: Parser, w: World, i: Input, base: StoreView, sent: string)
    requires Up(parse, w, base, sent) && i.now > 0 && (i.Service? ==> Open(i.arrivals))
    ensures Up(parse, Step(parse, w, i), base, sent + if i.Service? then Pending(i.arrivals) else "")
  {
    StepKeeps(parse, w, i);
    match i {
      case Connect(now, peer) =>
        assert sent + "" == sent;
        ConnectedIdle(w, now, peer);
        hide Up, ConnectStep;
      case Service(arrivals, ready, now) => ServiceUp(parse, w, base, sent, arrivals, ready, now);
      case Check(now) =>
        assert sent + "" == sent;
        CheckIdle(w, now);
        hide Healthy, Fold, Sound, CheckStep;
    }
  }

  lemma ConnectedIdle(w: World, now: int, peer: Option<seq<Answer>>)
    requires w.machine.s.connected
    ensures ConnectStep(w, now, peer) == w
  {
  }

  lemma CheckIdle(w: World, now: int)
    requires Outage.Good(w.machine) && w.machine.s.connected
    ensures CheckStep(w, now).view == w.view && CheckStep(w, now).session == w.session
  {
  }

  lemma ServiceUp(parse: Parser, w: World, base: StoreView, sent: string,
                  arrivals: seq<Answer>, ready: bool, now: int)
    requires Up(parse, w, base, sent) && now > 0 && Open(arrivals)
    ensures Up(parse, ServiceStep(parse, w, arrivals, ready, now), base, sent + Pending(arrivals))
  {
    StepKeeps(parse, w, Service(arrivals, ready, now));
    var s := Arrived(w.session, arrivals);
    ArrivedSound(w.session, arrivals);
    PendingAppend(w.session.script, arrivals);
    Assoc(w.session.received, Pending(w.session.script), Pending(arrivals));
    hide Healthy, Sound, Drain, CleanAll, Open, Pending, NewLines, Fold;
    if ready {
      DrainStaysUp(s);
      DrainAppends(s);
      FoldAppend(parse, base, CleanAll(s.raws, MAX_LINE), NewLines(s));
    }
  }

  lemma {:induction false} RunUp(parse: Parser, prefix: seq<Input>, inputs: seq<Input>, base: StoreView, sent: string)
    requires Up(parse, Run(parse, prefix), base, sent) && Positive(inputs) && AllOpen(inputs)
    ensures Up(parse, Run(parse, prefix + inputs), base, sent + Arrivals(inputs))
  {
    if inputs == [] {
      assert prefix + inputs == prefix && sent + "" == sent;
    } else {
      var n := |inputs| - 1;
      var earlier, i := inputs[..n], inputs[n];
      InputsLast(inputs);
      hide *;
      RunUp(parse, prefix, earlier, base, sent);
      StepUp(parse, Run(parse, prefix + earlier), i, base, sent + Arrivals(earlier));
      SnocAssoc(prefix, inputs);
      RunSnoc(parse, prefix + earlier, i);
      Assoc(sent, Arrivals(earlier), if i.Service? then Pending(i.arrivals) else "");
    }
  }

  /** The inputs before, an attempt that reaches peer, and the inputs after. */
  function RunOf(before: seq<Input>, now: int, peer: seq<Answer>, inputs: seq<Input>): seq<Input> {
    before + [Connect(now, Some(peer))] + inputs
  }

  /** The run reaches a point where it attempts a connection, succeeds, and the new connection
      stays up from there on. */
  ghost predicate Connected(parse: Parser, before: seq<Input>, now: int, peer: seq<Answer>, inputs: seq<Input>) {
    Positive(before) && now > 0 && Positive(inputs) &&
    Attempts(Run(parse, before), now) && Open(peer) && AllOpen(inputs)
  }

  /** Chunk independence end to end, for every connection of every run: after whatever came
      before, and however the bytes of the new connection were cut, delayed and interleaved with
      attempts, passes and reset checks of the loop, the store has moved from what it showed
      before the connection by exactly the lines delivered; and once all is read those are the
      stream's complete lines, up to the first longer than 8190 bytes, each cut to 4095
      bytes and stripped of one trailing CR. */
  lemma {:induction false} StoreIgnoresChunks(parse: Parser, before: seq<Input>, now: int, peer: seq<Answer>,
                                              inputs: seq<Input>)
    requires Connected(parse, before, now, peer, inputs)
    ensures var w := Run(parse, RunOf(before, now, peer, inputs));
      var base, sent := Run(parse, before).view, Pending(peer) + Arrivals(inputs);
      w.session.connected && Stream(w.session) == sent &&
      w.view == Fold(parse, base, CleanAll(w.session.raws, MAX_LINE)) &&
      (AllRead(w.session) ==> w.view == Fold(parse, base, CleanAll(Fitting(Lines(sent)), MAX_LINE)))
  {
    var w0 := Run(parse, before);
    var prefix := before + [Connect(now, Some(peer))];
    RunIsHealthy(parse, before);
    RunSnoc(parse, before, Connect(now, Some(peer)));
    RunLeavesNoLine(parse, RunOf(before, now, peer, inputs));
    hide Run, Healthy, Fold, CleanAll, Fitting, Lines, Quiet, Sound, Attempts, Open, AllRead, NoNewline;
    ConnectUp(parse, w0, now, peer);
    RunUp(parse, prefix, inputs, w0.view, Pending(peer));
    var w := Run(parse, prefix + inputs);
    if AllRead(w.session) {
      QuietIff(w.session);
      QuietDelivers(w.session);
    }
  }

  /** Two connections over the same bytes that start from the same store end with the same store,
      whatever came before them and whatever passes they took. */
  lemma {:induction false} SameBytesSameStore(
      parse: Parser, before: seq<Input>, now: int, peer: seq<Answer>, inputs: seq<Input>,
      before': seq<Input>, now': int, peer': seq<Answer>, inputs': seq<Input>)
    requires Connected(parse, before, now, peer, inputs) && Connected(parse, before', now', peer', inputs')
    requires Run(parse, before).view == Run(parse, before').view
    requires Pending(peer) + Arrivals(inputs) == Pending(peer') + Arrivals(inputs')
    ensures var w, w' := Run(parse, RunOf(before, now, peer, inputs)), Run(parse, RunOf(before', now', peer', inputs'));
      AllRead(w.session) && AllRead(w'.session) ==> w.view == w'.view
  {
    hide *;
    StoreIgnoresChunks(parse, before, now, peer, inputs);
    StoreIgnoresChunks(parse, before', now', peer', inputs');
  }

  // ---------------------------------------------------------------- polling

  predicate NoArrivals(inputs: seq<Input>) {
    forall i :: 0 <= i < |inputs| && inputs[i].Service? ==> inputs[i].arrivals == []
  }

  /** The passes among the inputs. */
  function Passes(inputs: seq<Input>): nat {
    if inputs == [] then 0
    else
      var n := |inputs| - 1;
      Passes(inputs[..n]) + if inputs[n].Service? then 1 else 0
  }

  /** No connection is attempted during inputs. */
  ghost predicate NoAttempt(parse: Parser, w: World, inputs: seq<Input>)
    requires Sound(w.session)
  {
    forall k :: 0 <= k < |inputs| && inputs[k].Connect? ==>
      !Attempts(RunFrom(parse, w, inputs[..k]), inputs[k].now)
  }

  /** select reports the socket in every pass in which it has an answer to give. */
  ghost predicate Prompt(parse: Parser, w: World, inputs: seq<Input>)
    requires Sound(w.session)
  {
    forall k :: 0 <= k < |inputs| && inputs[k].Service? && RunFrom(parse, w, inputs[..k]).session.script != [] ==>
      inputs[k].ready
  }

  /** The connection is over or all of it is read. */
  predicate Settled(s: Session) {
    s.connected ==> AllRead(s)
  }

  /** Any connection is read to its end, and quiet, after as many passes as it has answers and
      bytes left, whatever other steps come between them, as long as select reports what is there,
      nothing new arrives and no new connection is tried. */
  lemma {:induction false} PollingFallsQuiet(parse: Parser, w: World, inputs: seq<Input>)
    requires Sound(w.session) && NoLineWaits(w.session) && NoArrivals(inputs)
    requires NoAttempt(parse, w, inputs) && Prompt(parse, w, inputs)
    requires Passes(inputs) >= Left(w.session)
    ensures var s := RunFrom(parse, w, inputs).session;
      Settled(s) && Quiet(s)
  {
    PollingReads(parse, w, inputs);
    var s := RunFrom(parse, w, inputs).session;
    SettledIsQuiet(s);
    hide Quiet, RunFrom, Sound, NoLineWaits;
  }

  lemma SettledIsQuiet(s: Session)
    requires Sound(s) && NoLineWaits(s)
    ensures Settled(s) <==> Quiet(s) || !s.connected
    ensures Settled(s) ==> Quiet(s)
  {
    hide Sound, AllRead, NoNewline;
    if s.connected {
      QuietIff(s);
      hide Quiet;
    }
  }

  lemma {:induction false} PollingReads(parse: Parser, w: World, inputs: seq<Input>)
    requires Sound(w.session) && NoLineWaits(w.session) && NoArrivals(inputs)
    requires NoAttempt(parse, w, inputs) && Prompt(parse, w, inputs)
    ensures var s := RunFrom(parse, w, inputs).session;
      NoLineWaits(s) && (Settled(s) || Left(s) + Passes(inputs) <= Left(w.session))
  {
    if inputs != [] {
      var n := |inputs| - 1;
      PassesLast(parse, w, inputs);
      hide NoAttempt, NoArrivals, Prompt, RunFrom, Step, Sound, Settled, Left, Passes, Attempts, NoLineWaits;
      PollingReads(parse, w, inputs[..n]);
      FromSnoc(parse, w, inputs);
      StepReads(parse, RunFrom(parse, w, inputs[..n]), inputs[n]);
    }
  }

  lemma PassesLast(parse: Parser, w: World, inputs: seq<Input>)
    requires Sound(w.session) && NoArrivals(inputs) && inputs != []
    requires NoAttempt(parse, w, inputs) && Prompt(parse, w, inputs)
    ensures var n := |inputs| - 1;
      NoArrivals(inputs[..n]) && NoAttempt(parse, w, inputs[..n]) && Prompt(parse, w, inputs[..n]) &&
      (inputs[n].Service? ==> inputs[n].arrivals == []) &&
      (inputs[n].Connect? ==> !Attempts(RunFrom(parse, w, inputs[..n]), inputs[n].now)) &&
      (inputs[n].Service? && RunFrom(parse, w, inputs[..n]).session.script != [] ==> inputs[n].ready) &&
      Passes(inputs) == Passes(inputs[..n]) + if inputs[n].Service? then 1 else 0
  {
    var n := |inputs| - 1;
    hide RunFrom, Sound, Attempts;
    assert forall k :: 0 <= k < n ==> inputs[..n][..k] == inputs[..k];
  }

  /** A step that brings nothing new keeps a settled connection as it is, and a pass gets on with
      any other. */
  lemma StepReads(parse: Parser, w: World, i: Input)
    requires Sound(w.session) && NoLineWaits(w.session)
    requires (i.Service? ==> i.arrivals == []) && (i.Connect? ==> !Attempts(w, i.now))
    requires i.Service? && w.session.script != [] ==> i.ready
    ensures var s := Step(parse, w, i).session;
      NoLineWaits(s) && (Settled(w.session) ==> s == w.session) && Left(s) <= Left(w.session) &&
      (!Settled(w.session) && i.Service? ==> Settled(s) || Left(s) < Left(w.session))
  {
    StepLeavesNoLine(parse, w, i);
    SettledIsQuiet(w.session);
    if i.Service? {
      NothingArrived(w.session);
      DrainWorks(w.session);
      DrainReads(w.session);
    }
    hide Sound, Drain, Left, Quiet, Fold, NewLines, NoNewline, Work;
  }

  lemma NothingArrived(s: Session)
    ensures Arrived(s, []) == s
  {
    assert s.script + [] == s.script;
  }

  lemma {:induction false} RunAppend(parse: Parser, a: seq<Input>, b: seq<Input>)
    ensures RunFrom(parse, Run(parse, a), b) == Run(parse, a + b)
  {
    if b == [] {
      assert a + b == a;
    } else {
      var n := |b| - 1;
      hide Run, Step;
      RunAppend(parse, a, b[..n]);
      FromSnoc(parse, Run(parse, a), b);
      hide RunFrom;
      SnocAssoc(a, b);
      RunSnoc(parse, a + b[..n], b[n]);
    }
  }

  /** Delivery, end to end: once the peer pauses, as many passes as there are answers and bytes
      left put exactly the fold over all its complete lines, up to the first over-long one, into
      the store, whatever else the loop does in between. */
  lemma {:induction false} SentIsStored(parse: Parser, before: seq<Input>, now: int, peer: seq<Answer>,
                                        inputs: seq<Input>, later: seq<Input>)
    requires Connected(parse, before, now, peer, inputs)
    requires Positive(later) && NoArrivals(later)
    requires Prompt(parse, Run(parse, RunOf(before, now, peer, inputs)), later)
    requires Passes(later) >= Left(Run(parse, RunOf(before, now, peer, inputs)).session)
    ensures Run(parse, RunOf(before, now, peer, inputs + later)).view
         == Fold(parse, Run(parse, before).view,
                 CleanAll(Fitting(Lines(Pending(peer) + Arrivals(inputs))), MAX_LINE))
  {
    var prefix := RunOf(before, now, peer, inputs);
    LaterAssoc(before, now, peer, inputs, later);
    ConnectedLonger(parse, before, now, peer, inputs, later);
    RunLeavesNoLine(parse, prefix);
    hide Run, Fold, CleanAll, Fitting, Lines, Arrivals, Connected, Passes, NoArrivals, Sound, RunOf, Prompt,
      NoLineWaits, Left, Quiet, AllRead;
    assert NoAttempt(parse, Run(parse, prefix), later) by {
      forall k | 0 <= k < |later|
        ensures !Attempts(RunFrom(parse, Run(parse, prefix), later[..k]), later[k].now)
      {
        StaysConnected(parse, before, now, peer, inputs, later[..k]);
      }
    }
    PollingFallsQuiet(parse, Run(parse, prefix), later);
    RunAppend(parse, prefix, later);
    StoreIgnoresChunks(parse, before, now, peer, inputs + later);
  }

  /** In numbers: when no line sent has more than 8190 characters, all of them are stored, each as
      a caller with 4096 characters receives it; and when none has more than 4095 or ends in a CR,
      exactly as they were sent. */
  lemma {:induction false} ShortLinesAreStored(parse: Parser, before: seq<Input>, now: int, peer: seq<Answer>,
                                               inputs: seq<Input>, later: seq<Input>)
    requires Connected(parse, before, now, peer, inputs)
    requires Positive(later) && NoArrivals(later)
    requires Prompt(parse, Run(parse, RunOf(before, now, peer, inputs)), later)
    requires Passes(later) >= Left(Run(parse, RunOf(before, now, peer, inputs)).session)
    ensures var v, v' := Run(parse, before).view, Run(parse, RunOf(before, now, peer, inputs + later)).view;
      var sent := Lines(Pending(peer) + Arrivals(inputs));
      ((forall i :: 0 <= i < |sent| ==> |sent[i]| <= 8190) ==> v' == Fold(parse, v, CleanAll(sent, 4096))) &&
      ((forall i :: 0 <= i < |sent| ==> |sent[i]| <= 4095 && (sent[i] == "" || sent[i][|sent[i]| - 1] != '\r')) ==>
        v' == Fold(parse, v, sent))
  {
    hide *;
    SentIsStored(parse, before, now, peer, inputs, later);
    var sent := Lines(Pending(peer) + Arrivals(inputs));
    Limits(sent);
    CleanUnchanged(sent);
    assert (forall i :: 0 <= i < |sent| ==> |sent[i]| <= 4095 && (sent[i] == "" || sent[i][|sent[i]| - 1] != '\r')) ==>
      forall i :: 0 <= i < |sent| ==> |sent[i]| <= 8190;
  }

  /** The limits of the buffer and of the caller, in numbers. */
  lemma {:induction false} Limits(ls: seq<string>)
    ensures (forall i :: 0 <= i < |ls| ==> |ls[i]| <= 8190) ==> Fitting(ls) == ls
    ensures CleanAll(Fitting(ls), MAX_LINE) == CleanAll(Fitting(ls), 4096)
  {
    FittingIffFit(ls);
    hide Fitting, CleanAll;
  }

  lemma CleanUnchanged(ls: seq<string>)
    ensures (forall i :: 0 <= i < |ls| ==> |ls[i]| <= 4095 && (ls[i] == "" || ls[i][|ls[i]| - 1] != '\r')) ==>
      CleanAll(ls, 4096) == ls
  {
    forall i | 0 <= i < |ls| && |ls[i]| <= 4095 && (ls[i] == "" || ls[i][|ls[i]| - 1] != '\r')
      ensures Clean(ls[i], 4096) == ls[i]
    {
      CleanIs(ls[i], 4096);
    }
    hide Clean;
  }

  lemma LaterAssoc(before: seq<Input>, now: int, peer: seq<Answer>, inputs: seq<Input>, later: seq<Input>)
    ensures RunOf(before, now, peer, inputs) + later == RunOf(before, now, peer, inputs + later)
  {
  }

  lemma ConnectedLonger(parse: Parser, before: seq<Input>, now: int, peer: seq<Answer>,
                        inputs: seq<Input>, later: seq<Input>)
    requires Connected(parse, before, now, peer, inputs) && Positive(later) && NoArrivals(later)
    ensures Connected(parse, before, now, peer, inputs + later)
    ensures Arrivals(inputs + later) == Arrivals(inputs)
  {
    hide Run, Attempts;
    NothingNew(inputs, later);
  }

  lemma {:induction false} NothingNew(inputs: seq<Input>, later: seq<Input>)
    requires NoArrivals(later)
    ensures Arrivals(inputs + later) == Arrivals(inputs)
  {
    if later == [] {
      assert inputs + later == inputs;
    } else {
      var n := |later| - 1;
      NothingNew(inputs, later[..n]);
      SnocAssoc(inputs, later);
      assert (inputs + later)[..|inputs| + n] == inputs + later[..n];
      assert Arrivals(inputs) + "" == Arrivals(inputs);
    }
  }

  lemma StaysConnected(parse: Parser, before: seq<Input>, now: int, peer: seq<Answer>,
                       inputs: seq<Input>, later: seq<Input>)
    requires Connected(parse, before, now, peer, inputs) && Positive(later) && NoArrivals(later)
    ensures var w := RunFrom(parse, Run(parse, RunOf(before, now, peer, inputs)), later);
      w.machine.s.connected
  {
    ConnectedLonger(parse, before, now, peer, inputs, later);
    LaterAssoc(before, now, peer, inputs, later);
    AllPositive(before, now, peer, inputs + later);
    assert Connected(parse, before, now, peer, inputs + later);
    assert Positive(before) && now > 0 && Positive(inputs + later);
    hide Run, Connected, RunOf, Fold, Quiet;
    RunAppend(parse, RunOf(before, now, peer, inputs), later);
    StoreIgnoresChunks(parse, before, now, peer, inputs + later);
    RunIsHealthy(parse, RunOf(before, now, peer, inputs + later));
  }

  lemma AllPositive(before: seq<Input>, now: int, peer: seq<Answer>, inputs: seq<Input>)
    requires Positive(before) && now > 0 && Positive(inputs)
    ensures Positive(RunOf(before, now, peer, inputs))
  {
  }
}
