/** The connection and data-reset machine of main.c, with the events a trace of it shows. */
module Outage {

  const RECONNECT_INTERVAL := 3
  const RESET_AFTER := 10

  datatype State = State(connected: bool, disconnectTime: int, resetDone: bool, lastAttempt: int)

  /** What an observer sees: a connection attempt, a lost connection, and each time the loop
      reaches the reset check, with whether it cleared the data. */
  datatype Event = Attempt(at: int, ok: bool) | Lost(at: int) | Check(at: int, cleared: bool)

  datatype Machine = Machine(s: State, log: seq<Event>)

  /** One step of the loop, with the clock it reads. */
  datatype Input = Try(now: int, reachable: bool) | Net(lost: bool, now: int) | Reset(now: int)

  const START := Machine(State(false, 0, false, 0), [])

  predicate Throttled(s: State, now: int) {
    s.lastAttempt > 0 && now - s.lastAttempt < RECONNECT_INTERVAL
  }

  /** try_connect. */
  function TryStep(m: Machine, now: int, reachable: bool): Machine {
    if m.s.connected || Throttled(m.s, now) then m
    else
      Machine(if reachable then State(true, 0, false, now) else m.s.(lastAttempt := now),
              m.log + [Attempt(now, reachable)])
  }

  /** The part of the loop after process_network_data that notices a lost connection. */
  function NetStep(m: Machine, lost: bool, now: int): Machine {
    if m.s.connected && lost then
      Machine(m.s.(connected := false,
                   disconnectTime := if m.s.disconnectTime == 0 then now else m.s.disconnectTime),
              m.log + [Lost(now)])
    else m
  }

  predicate ResetDue(s: State, now: int) {
    s.disconnectTime > 0 && !s.resetDone && now - s.disconnectTime >= RESET_AFTER
  }

  /** The reset check at the end of the loop. */
  function ResetStep(m: Machine, now: int): Machine {
    Machine(if ResetDue(m.s, now) then m.s.(resetDone := true) else m.s,
            m.log + [Check(now, ResetDue(m.s, now))])
  }

  function Step(m: Machine, i: Input): Machine {
    match i
    case Try(now, reachable) => TryStep(m, now, reachable)
    case Net(lost, now) => NetStep(m, lost, now)
    case Reset(now) => ResetStep(m, now)
  }

  function Run(inputs: seq<Input>): Machine {
    if inputs == [] then START else Step(Run(inputs[..|inputs| - 1]), inputs[|inputs| - 1])
  }

  /** The clock is past its epoch; it need not even be monotone. */
  predicate Positive(inputs: seq<Input>) {
    forall i :: 0 <= i < |inputs| ==> inputs[i].now > 0
  }

  // ---------------------------------------------------------------- properties of a trace

  predicate IsOk(e: Event) {
    e.Attempt? && e.ok
  }

  /** A successful connection strictly between two places of the log. */
  predicate Reconnected(log: seq<Event>, i: int, j: int) {
    exists m :: i < m < j && 0 <= m < |log| && IsOk(log[m])
  }

  /** The check at j is the first, in the outage that began at i, at least 10 seconds after the
      loss. */
  predicate Due(log: seq<Event>, i: nat, j: nat)
    requires i < j < |log|
  {
    log[i].Lost? && log[j].Check? && !Reconnected(log, i, j) &&
    log[j].at - log[i].at >= 10 &&
    forall k :: i < k < j && log[k].Check? ==> log[k].at - log[i].at < 10
  }

  ghost predicate DueAt(log: seq<Event>, j: nat)
    requires j < |log|
  {
    exists i: nat :: i < j && Due(log, i, j)
  }

  /** Data is cleared exactly at the checks where it is due. */
  ghost predicate ClearsRight(log: seq<Event>) {
    forall j :: 0 <= j < |log| && log[j].Check? ==> (log[j].cleared <==> DueAt(log, j))
  }

  predicate AttemptsSpaced(log: seq<Event>) {
    forall i, j :: 0 <= i < j < |log| && log[i].Attempt? && log[j].Attempt? ==>
      log[j].at - log[i].at >= 3
  }

  predicate LossesSeparated(log: seq<Event>) {
    forall i, j :: 0 <= i < j < |log| && log[i].Lost? && log[j].Lost? ==> Reconnected(log, i, j)
  }

  // ---------------------------------------------------------------- the invariant

  /** The outage in progress began at i. */
  predicate Current(log: seq<Event>, i: int, s: State) {
    0 <= i < |log| && log[i] == Lost(s.disconnectTime) && !Reconnected(log, i, |log|) &&
    (s.resetDone <==> exists k :: i < k < |log| && LateCheck(log[k], s.disconnectTime))
  }

  predicate LateCheck(e: Event, loss: int) {
    e.Check? && e.at - loss >= RESET_AFTER
  }

  /** Every loss so far has been followed by a reconnection. */
  predicate Settled(log: seq<Event>) {
    forall i :: 0 <= i < |log| && log[i].Lost? ==> Reconnected(log, i, |log|)
  }

  ghost predicate Tracks(m: Machine) {
    0 <= m.s.disconnectTime &&
    (m.s.connected ==> m.s.disconnectTime == 0) &&
    (m.s.disconnectTime == 0 ==> !m.s.resetDone && Settled(m.log)) &&
    (m.s.disconnectTime > 0 ==> exists i :: Current(m.log, i, m.s))
  }

  /** lastAttempt is the time of the latest attempt, or 0 before the first. */
  predicate AttemptsBounded(m: Machine) {
    (forall i :: 0 <= i < |m.log| && m.log[i].Attempt? ==> 0 < m.log[i].at <= m.s.lastAttempt) &&
    (m.s.lastAttempt == 0 || exists i :: 0 <= i < |m.log| && AttemptAt(m.log[i], m.s.lastAttempt))
  }

  predicate AttemptAt(e: Event, at: int) {
    e.Attempt? && e.at == at
  }

  /** The last connection event was a success. */
  predicate Online(log: seq<Event>) {
    exists i :: 0 <= i < |log| && IsOk(log[i]) && forall j :: i < j < |log| ==> !log[j].Lost?
  }

  lemma OnlineLonger(log: seq<Event>, e: Event)
    ensures Online(log + [e]) <==> IsOk(e) || (Online(log) && !e.Lost?)
  {
    var log', n := log + [e], |log|;
    assert log'[n] == e && forall i :: 0 <= i < n ==> log'[i] == log[i];
    if IsOk(e) {
      assert IsOk(log'[n]);
    }
    if Online(log) && !e.Lost? {
      var i :| 0 <= i < n && IsOk(log[i]) && forall j :: i < j < n ==> !log[j].Lost?;
      assert IsOk(log'[i]);
    }
  }

  lemma AttemptsBoundedLonger(m: Machine, m': Machine, e: Event)
    requires AttemptsBounded(m) && m'.log == m.log + [e]
    requires if e.Attempt? then e.at > 0 && e.at >= m.s.lastAttempt && m'.s.lastAttempt == e.at
             else m'.s.lastAttempt == m.s.lastAttempt
    ensures AttemptsBounded(m')
  {
    var n := |m.log|;
    assert m'.log[n] == e && forall i :: 0 <= i < n ==> m'.log[i] == m.log[i];
    if e.Attempt? {
      assert AttemptAt(m'.log[n], e.at);
    } else if m.s.lastAttempt != 0 {
      var i :| 0 <= i < n && AttemptAt(m.log[i], m.s.lastAttempt);
      assert AttemptAt(m'.log[i], m.s.lastAttempt);
    }
  }

  ghost predicate Good(m: Machine) {
    Tracks(m) && AttemptsBounded(m) && (m.s.connected <==> Online(m.log)) &&
    AttemptsSpaced(m.log) && LossesSeparated(m.log) && ClearsRight(m.log)
  }

  lemma ReconnectedLonger(log: seq<Event>, e: Event, i: int, j: int)
    requires j <= |log|
    ensures Reconnected(log + [e], i, j) == Reconnected(log, i, j)
  {
    var log' := log + [e];
    assert forall m :: 0 <= m < |log| ==> log'[m] == log[m];
  }

  lemma ReconnectedNext(log: seq<Event>, e: Event, i: int)
    requires 0 <= i < |log|
    ensures Reconnected(log + [e], i, |log| + 1) <==> Reconnected(log, i, |log|) || IsOk(e)
  {
    var log' := log + [e];
    assert log'[|log|] == e && forall m :: 0 <= m < |log| ==> log'[m] == log[m];
  }

  lemma DueLonger(log: seq<Event>, e: Event, j: nat)
    requires j < |log|
    ensures DueAt(log + [e], j) == DueAt(log, j)
  {
    var log' := log + [e];
    forall i: nat | i < j
      ensures Due(log', i, j) == Due(log, i, j)
    {
      ReconnectedLonger(log, e, i, j);
      assert forall m :: 0 <= m < |log| ==> log'[m] == log[m];
      hide Reconnected;
    }
    hide Due;
  }

  /** An event that is no check keeps the clears right. */
  lemma ClearsRightLonger(log: seq<Event>, e: Event)
    requires ClearsRight(log)
    requires e.Check? ==> (e.cleared <==> DueAt(log + [e], |log|))
    ensures ClearsRight(log + [e])
  {
    var log' := log + [e];
    forall j | 0 <= j < |log'| && log'[j].Check?
      ensures log'[j].cleared <==> DueAt(log', j)
    {
      if j < |log| {
        assert log'[j] == log[j];
        DueLonger(log, e, j);
      }
      hide DueAt;
    }
  }

  lemma LossesSeparatedLonger(log: seq<Event>, e: Event)
    requires LossesSeparated(log)
    requires e.Lost? ==> Settled(log)
    ensures LossesSeparated(log + [e])
  {
    var log' := log + [e];
    forall i, j | 0 <= i < j < |log'| && log'[i].Lost? && log'[j].Lost?
      ensures Reconnected(log', i, j)
    {
      ReconnectedLonger(log, e, i, j);
      assert log'[i] == log[i];
      if j < |log| {
        assert log'[j] == log[j];
      }
      hide Reconnected;
    }
  }

  lemma AttemptsSpacedLonger(log: seq<Event>, e: Event)
    requires AttemptsSpaced(log)
    requires e.Attempt? ==> forall i :: 0 <= i < |log| && log[i].Attempt? ==> e.at - log[i].at >= RECONNECT_INTERVAL
    ensures AttemptsSpaced(log + [e])
  {
  }

  /** The start of an outage is still its start after an event that is not a reconnection. */
  lemma CurrentLonger(log: seq<Event>, e: Event, i: int, s: State, s': State)
    requires Current(log, i, s) && !IsOk(e) && s'.disconnectTime == s.disconnectTime
    requires s'.resetDone <==> s.resetDone || LateCheck(e, s.disconnectTime)
    ensures Current(log + [e], i, s')
  {
    var log' := log + [e];
    ReconnectedNext(log, e, i);
    assert log'[|log|] == e && forall k :: 0 <= k < |log| ==> log'[k] == log[k];
    hide Reconnected, LateCheck;
    if s.resetDone {
      var k :| i < k < |log| && LateCheck(log[k], s.disconnectTime);
      assert LateCheck(log'[k], s.disconnectTime);
    } else if LateCheck(e, s.disconnectTime) {
      assert LateCheck(log'[|log|], s.disconnectTime);
    }
  }

  /** Nothing is outstanding after an event that starts no outage. */
  lemma SettledLonger(log: seq<Event>, e: Event)
    requires IsOk(e) || (!e.Lost? && Settled(log))
    ensures Settled(log + [e])
  {
    var log' := log + [e];
    forall i | 0 <= i < |log'| && log'[i].Lost?
      ensures Reconnected(log', i, |log'|)
    {
      assert log'[|log|] == e;
      assert i < |log| && log'[i] == log[i];
      ReconnectedNext(log, e, i);
      hide Reconnected;
    }
  }

  lemma TryKeeps(m: Machine, now: int, reachable: bool)
    requires Good(m) && now > 0
    ensures Good(TryStep(m, now, reachable))
  {
    if !m.s.connected && !Throttled(m.s, now) {
      var m', e := TryStep(m, now, reachable), Attempt(now, reachable);
      ClearsRightLonger(m.log, e);
      LossesSeparatedLonger(m.log, e);
      AttemptsSpacedLonger(m.log, e);
      AttemptsBoundedLonger(m, m', e);
      OnlineLonger(m.log, e);
      hide ClearsRight, LossesSeparated, AttemptsSpaced, AttemptsBounded, Online;
      if reachable || m.s.disconnectTime == 0 {
        SettledLonger(m.log, e);
      } else {
        var i :| Current(m.log, i, m.s);
        CurrentLonger(m.log, e, i, m.s, m'.s);
      }
      hide Current, Reconnected;
      assert Tracks(m');
    }
  }

  lemma NetKeeps(m: Machine, lost: bool, now: int)
    requires Good(m) && now > 0
    ensures Good(NetStep(m, lost, now))
  {
    if m.s.connected && lost {
      var m', e := NetStep(m, lost, now), Lost(now);
      ClearsRightLonger(m.log, e);
      LossesSeparatedLonger(m.log, e);
      AttemptsSpacedLonger(m.log, e);
      AttemptsBoundedLonger(m, m', e);
      OnlineLonger(m.log, e);
      hide ClearsRight, LossesSeparated, AttemptsSpaced, AttemptsBounded, Online;
      assert Current(m'.log, |m.log|, m'.s);
    }
  }

  /** The check just made is due exactly when the machine says so. */
  lemma DueNow(m: Machine, now: int)
    requires Tracks(m) && LossesSeparated(m.log)
    ensures var log' := m.log + [Check(now, ResetDue(m.s, now))];
      DueAt(log', |m.log|) <==> ResetDue(m.s, now)
  {
    var log, n := m.log, |m.log|;
    var e := Check(now, ResetDue(m.s, now));
    var log' := log + [e];
    assert log'[n] == e && forall k :: 0 <= k < n ==> log'[k] == log[k];
    if m.s.disconnectTime > 0 {
      var i :| Current(log, i, m.s);
      ReconnectedLonger(log, e, i, n);
      if ResetDue(m.s, now) {
        assert forall k :: i < k < n ==> !LateCheck(log[k], m.s.disconnectTime);
        assert Due(log', i, n);
      }
      if DueAt(log', n) {
        var i': nat :| i' < n && Due(log', i', n);
        ReconnectedLonger(log, e, i', n);
        SameOutage(log, i, i');
      }
    } else {
      forall i': nat | i' < n
        ensures !Due(log', i', n)
      {
        ReconnectedLonger(log, e, i', n);
      }
    }
  }

  /** Two losses with no reconnection since are the same loss. */
  lemma SameOutage(log: seq<Event>, i: int, i': int)
    requires LossesSeparated(log) && 0 <= i < |log| && 0 <= i' < |log| && log[i].Lost? && log[i'].Lost?
    requires !Reconnected(log, i, |log|) && !Reconnected(log, i', |log|)
    ensures i == i'
  {
  }

  lemma ResetKeeps(m: Machine, now: int)
    requires Good(m) && now > 0
    ensures Good(ResetStep(m, now))
  {
    var m', e := ResetStep(m, now), Check(now, ResetDue(m.s, now));
    DueNow(m, now);
    ClearsRightLonger(m.log, e);
    LossesSeparatedLonger(m.log, e);
    AttemptsSpacedLonger(m.log, e);
    AttemptsBoundedLonger(m, m', e);
    OnlineLonger(m.log, e);
    hide ClearsRight, LossesSeparated, AttemptsSpaced, AttemptsBounded, Online;
    if m.s.disconnectTime == 0 {
      SettledLonger(m.log, e);
    } else {
      var i :| Current(m.log, i, m.s);
      CurrentLonger(m.log, e, i, m.s, m'.s);
    }
    hide Current, Reconnected;
    assert Tracks(m');
  }

  lemma StepKeeps(m: Machine, i: Input)
    requires Good(m) && i.now > 0
    ensures Good(Step(m, i))
  {
    match i
    case Try(now, reachable) => TryKeeps(m, now, reachable);
    case Net(lost, now) => NetKeeps(m, lost, now);
    case Reset(now) => ResetKeeps(m, now);
  }

  lemma {:induction false} RunIsGood(inputs: seq<Input>)
    requires Positive(inputs)
    ensures Good(Run(inputs))
  {
    if inputs != [] {
      RunIsGood(inputs[..|inputs| - 1]);
      StepKeeps(Run(inputs[..|inputs| - 1]), inputs[|inputs| - 1]);
    }
  }

  // ---------------------------------------------------------------- main results

  /** While connected there is no outage timer and no reset flag. */
  lemma {:induction false} ConnectedIsClean(inputs: seq<Input>)
    requires Positive(inputs) && Run(inputs).s.connected
    ensures Run(inputs).s.disconnectTime == 0 && !Run(inputs).s.resetDone
  {
    RunIsGood(inputs);
  }

  /** Over every run, a check clears the data if and only if it is the first one at least 10
      seconds after a loss that no reconnection has ended. */
  lemma {:induction false} ClearedIffDue(inputs: seq<Input>, j: nat)
    requires Positive(inputs) && j < |Run(inputs).log| && Run(inputs).log[j].Check?
    ensures Run(inputs).log[j].cleared <==> DueAt(Run(inputs).log, j)
  {
    RunIsGood(inputs);
  }

  /** Over every run, connection attempts are at least 3 seconds apart. */
  lemma {:induction false} AttemptsAreSpaced(inputs: seq<Input>, i: nat, j: nat)
    requires Positive(inputs) && i < j < |Run(inputs).log|
    requires Run(inputs).log[i].Attempt? && Run(inputs).log[j].Attempt?
    ensures Run(inputs).log[j].at - Run(inputs).log[i].at >= 3
  {
    RunIsGood(inputs);
  }

  /** Between two clears the connection came back and was lost again: one clear per outage. */
  lemma {:induction false} OneClearPerOutage(inputs: seq<Input>, i: nat, j: nat)
    requires Positive(inputs) && i < j < |Run(inputs).log|
    requires Run(inputs).log[i].Check? && Run(inputs).log[i].cleared
    requires Run(inputs).log[j].Check? && Run(inputs).log[j].cleared
    ensures Reconnected(Run(inputs).log, i, j)
    ensures exists k :: i < k < j && Run(inputs).log[k].Lost?
  {
    RunIsGood(inputs);
    ClearsApart(Run(inputs).log, i, j);
  }

  lemma ClearsApart(log: seq<Event>, i: nat, j: nat)
    requires ClearsRight(log) && LossesSeparated(log) && i < j < |log|
    requires log[i].Check? && log[i].cleared && log[j].Check? && log[j].cleared
    ensures Reconnected(log, i, j)
    ensures exists k :: i < k < j && log[k].Lost?
  {
    var a: nat :| a < i && Due(log, a, i);
    var b: nat :| b < j && Due(log, b, j);
    assert log[i].at - log[a].at >= RESET_AFTER;
    assert a != b;
    ReconnectedWider(log, b, a, j);
    assert a < b;
    var m :| a < m < b && 0 <= m < |log| && IsOk(log[m]);
    assert !Reconnected(log, a, i);
    assert i <= m;
    assert i < m < j;
  }

  lemma ReconnectedWider(log: seq<Event>, i: int, j: int, k: int)
    requires j <= k
    ensures Reconnected(log, i, j) ==> Reconnected(log, i, k)
  {
  }

  // ---------------------------------------------------------------- what each step does

  /** Three seconds have passed since every attempt so far. */
  predicate MayAttempt(log: seq<Event>, now: int) {
    forall i :: 0 <= i < |log| && log[i].Attempt? ==> log[i].at + 3 <= now
  }

  lemma {:induction false} MayAttemptIff(m: Machine, now: int)
    requires Good(m) && now > 0
    ensures MayAttempt(m.log, now) <==> !Throttled(m.s, now)
  {
    hide ClearsRight, LossesSeparated, AttemptsSpaced, Tracks, Online;
    if m.s.lastAttempt != 0 {
      var i :| 0 <= i < |m.log| && AttemptAt(m.log[i], m.s.lastAttempt);
      assert m.log[i].at == m.s.lastAttempt;
    }
  }

  /** In every run, a pass through try_connect while disconnected makes an attempt if and only if
      every earlier attempt is at least 3 seconds old, and is connected after it if and only if the
      peer was reachable; otherwise, and while connected, it changes nothing. */
  lemma {:induction false} TryAttemptsIff(inputs: seq<Input>, now: int, reachable: bool)
    requires Positive(inputs) && now > 0
    ensures var m, m' := Run(inputs), Run(inputs + [Try(now, reachable)]);
      if !m.s.connected && MayAttempt(m.log, now) then
        m'.log == m.log + [Attempt(now, reachable)] && m'.s.connected == reachable
      else m' == m
  {
    assert (inputs + [Try(now, reachable)])[..|inputs|] == inputs;
    RunIsGood(inputs);
    MayAttemptIff(Run(inputs), now);
    hide Good, MayAttempt, Throttled;
  }

  /** In every run, a connection that is found lost is logged, is down afterwards, and starts the
      timer of its outage; otherwise nothing changes. */
  lemma {:induction false} LossIsNoticed(inputs: seq<Input>, lost: bool, now: int)
    requires Positive(inputs) && now > 0
    ensures var m, m' := Run(inputs), Run(inputs + [Net(lost, now)]);
      if m.s.connected && lost then
        m'.log == m.log + [Lost(now)] && !m'.s.connected && m'.s.disconnectTime == now && !m'.s.resetDone
      else m' == m
  {
    assert (inputs + [Net(lost, now)])[..|inputs|] == inputs;
    RunIsGood(inputs);
    hide ClearsRight, LossesSeparated, AttemptsSpaced, AttemptsBounded, Online;
  }

  /** In every run, each reset check is logged, with a clear if and only if one is due. */
  lemma {:induction false} CheckIsLogged(inputs: seq<Input>, now: int)
    requires Positive(inputs) && now > 0
    ensures var m, m' := Run(inputs), Run(inputs + [Reset(now)]);
      var n := |m.log|;
      m'.log[..|m'.log| - 1] == m.log && |m'.log| == n + 1 &&
      m'.log[n] == Check(now, DueAt(m'.log, n)) && m'.s.connected == m.s.connected
  {
    assert (inputs + [Reset(now)])[..|inputs|] == inputs;
    RunIsGood(inputs);
    DueNow(Run(inputs), now);
    hide Good, DueAt, ResetDue;
  }

  /** In every run, the program is connected if and only if its last successful attempt has not
      been followed by a loss. */
  lemma {:induction false} ConnectedIff(inputs: seq<Input>)
    requires Positive(inputs)
    ensures Run(inputs).s.connected <==> Online(Run(inputs).log)
  {
    RunIsGood(inputs);
  }
}
