/** The mock tunnel: a machine driven by calls and by timers that fire in any order. */
module Tunnel {
  datatype Event = Starting | Ready | Failed(simulated: bool) | Reconnecting | Closed

  /** A pending callback: the end of start()'s latency, the announcement of a reconnect, and the end
      of a reconnect's latency. */
  datatype Timer = Establish(shouldFail: bool) | Reconnect | Reestablish

  datatype State = State(started: bool, stopped: bool, pending: multiset<Timer>, emitted: seq<Event>)

  /** What can happen next. The random draws of the source are carried by the actions. */
  datatype Action =
    | Start(shouldFail: bool)
    | Fail
    | ReconnectAfter
    | Close
    | Fire(timer: Timer, shouldReconnect: bool)

  const INITIAL := State(false, false, multiset{}, [])

  function Emit(s: State, e: Event): State { s.(emitted := s.emitted + [e]) }

  function Schedule(s: State, t: Timer): State { s.(pending := s.pending + multiset{t}) }

  /** A callback that was just removed from the pending ones. */
  function Callback(s: State, t: Timer, shouldReconnect: bool): State {
    if s.stopped then s
    else match t
      case Establish(shouldFail) =>
        if shouldFail then Emit(s, Failed(true))
        else if shouldReconnect then Schedule(Emit(s, Ready), Reconnect)
        else Emit(s, Ready)
      case Reconnect => Schedule(Emit(s, Reconnecting), Reestablish)
      case Reestablish => Emit(s, Ready)
  }

  /** A timer that is not pending cannot fire. */
  function Step(s: State, a: Action): State {
    match a
    case Start(shouldFail) =>
      if s.started then s else Schedule(Emit(s.(started := true), Starting), Establish(shouldFail))
    case Fail => Emit(s, Failed(false))
    case ReconnectAfter => Schedule(s, Reconnect)
    case Close => if s.stopped then s else Emit(s.(stopped := true), Closed)
    case Fire(t, shouldReconnect) =>
      if t !in s.pending then s else Callback(s.(pending := s.pending - multiset{t}), t, shouldReconnect)
  }

  function Run(s: State, actions: seq<Action>): State
    decreases |actions|
  {
    if actions == [] then s else Step(Run(s, actions[..|actions| - 1]), actions[|actions| - 1])
  }

  predicate IsActive(s: State) { s.started && !s.stopped }

  /** The emitter with its two flags, together with the host's timer queue and the listeners' log. */
  class TunnelEmitter {
    var started: bool
    var stopped: bool
    var pending: multiset<Timer>
    var emitted: seq<Event>

    ghost function View(): State
      reads this
    {
      State(started, stopped, pending, emitted)
    }

    /** The getter `active`. */
    function Active(): (b: bool)
      reads this
      ensures b <==> IsActive(View())
    {
      started && !stopped
    }

    constructor ()
      ensures View() == INITIAL
    {
      started, stopped, pending, emitted := false, false, multiset{}, [];
    }

    method Emit(e: Event)
      modifies `emitted
      ensures emitted == old(emitted) + [e]
    {
      emitted := emitted + [e];
    }

    method SetTimeout(t: Timer)
      modifies `pending
      ensures pending == old(pending) + multiset{t}
    {
      pending := pending + multiset{t};
    }

    method Start(shouldFail: bool)
      modifies this
      ensures View() == Step(old(View()), Action.Start(shouldFail))
    {
      if started { return; }
      started := true;
      Emit(Starting);
      SetTimeout(Establish(shouldFail));
    }

    method Fail()
      modifies this
      ensures View() == Step(old(View()), Action.Fail)
    {
      Emit(Failed(false));
    }

    method ReconnectAfter()
      modifies this
      ensures View() == Step(old(View()), Action.ReconnectAfter)
    {
      SetTimeout(Reconnect);
    }

    method Close()
      modifies this
      ensures View() == Step(old(View()), Action.Close)
    {
      if stopped { return; }
      stopped := true;
      Emit(Closed);
    }

    /** The host runs the callback of a pending timer. */
    method Fire(t: Timer, shouldReconnect: bool)
      requires t in pending
      modifies this
      ensures View() == Step(old(View()), Action.Fire(t, shouldReconnect))
    {
      pending := pending - multiset{t};
      if stopped { return; }
      match t
      case Establish(shouldFail) =>
        if shouldFail {
          Emit(Failed(true));
          return;
        }
        Emit(Ready);
        if shouldReconnect { SetTimeout(Reconnect); }
      case Reconnect =>
        Emit(Reconnecting);
        SetTimeout(Reestablish);
      case Reestablish =>
        Emit(Ready);
    }
  }

  // ----- counting -----

  /** How often each event was emitted and each kind of timer is pending. */
  datatype Tally = Tally(
    starting: int, ready: int, failed: int, forced: int, reconnecting: int, closed: int,
    establish: int, reconnect: int, reestablish: int)
  {
    /** Announcements that promise an outcome; a forced failure is neither promise nor outcome. */
    function Promises(): int { starting + reconnecting }

    function Outcomes(): int { ready + failed }

    /** Timers that will bring an outcome. */
    function Unsettled(): int { establish + reestablish }

    function Reconnects(): int { reconnecting + reconnect }

    /** How many callbacks the pending timers can still lead to. */
    function Weight(): int { 3 * establish + 2 * reconnect + reestablish }
  }

  function Count(log: seq<Event>, e: Event): nat { multiset(log)[e] }

  function TallyOf(s: State): Tally {
    Tally(
      Count(s.emitted, Starting), Count(s.emitted, Ready), Count(s.emitted, Failed(true)),
      Count(s.emitted, Failed(false)), Count(s.emitted, Reconnecting), Count(s.emitted, Closed),
      s.pending[Establish(true)] + s.pending[Establish(false)], s.pending[Reconnect], s.pending[Reestablish])
  }

  function Announced(y: Tally, e: Event): Tally {
    match e
    case Starting => y.(starting := y.starting + 1)
    case Ready => y.(ready := y.ready + 1)
    case Failed(simulated) => if simulated then y.(failed := y.failed + 1) else y.(forced := y.forced + 1)
    case Reconnecting => y.(reconnecting := y.reconnecting + 1)
    case Closed => y.(closed := y.closed + 1)
  }

  /** The tally with d more timers of the kind of t. */
  function Waiting(y: Tally, t: Timer, d: int): Tally {
    match t
    case Establish(_) => y.(establish := y.establish + d)
    case Reconnect => y.(reconnect := y.reconnect + d)
    case Reestablish => y.(reestablish := y.reestablish + d)
  }

  lemma {:induction false} CountAppend(log: seq<Event>, e: Event, f: Event)
    ensures Count(log + [e], f) == Count(log, f) + if e == f then 1 else 0
  {
    assert multiset(log + [e]) == multiset(log) + multiset{e};
  }

  lemma {:induction false} EmitTally(s: State, e: Event)
    ensures TallyOf(Emit(s, e)) == Announced(TallyOf(s), e)
  {
    CountAppend(s.emitted, e, Starting);
    CountAppend(s.emitted, e, Ready);
    CountAppend(s.emitted, e, Failed(true));
    CountAppend(s.emitted, e, Failed(false));
    CountAppend(s.emitted, e, Reconnecting);
    CountAppend(s.emitted, e, Closed);
  }

  lemma {:induction false} ScheduleTally(s: State, t: Timer)
    ensures TallyOf(Schedule(s, t)) == Waiting(TallyOf(s), t, 1)
  {
  }

  lemma {:induction false} RemoveTally(s: State, t: Timer)
    requires t in s.pending
    ensures TallyOf(s.(pending := s.pending - multiset{t})) == Waiting(TallyOf(s), t, -1)
  {
  }

  /** What running a callback adds to the tally. */
  function Settled(y: Tally, stopped: bool, t: Timer, shouldReconnect: bool): Tally {
    if stopped then y
    else match t
      case Establish(shouldFail) =>
        if shouldFail then y.(failed := y.failed + 1)
        else y.(ready := y.ready + 1, reconnect := y.reconnect + if shouldReconnect then 1 else 0)
      case Reconnect => y.(reconnecting := y.reconnecting + 1, reestablish := y.reestablish + 1)
      case Reestablish => y.(ready := y.ready + 1)
  }

  lemma {:induction false} CallbackTally(s: State, t: Timer, shouldReconnect: bool)
    ensures TallyOf(Callback(s, t, shouldReconnect)) == Settled(TallyOf(s), s.stopped, t, shouldReconnect)
  {
    if !s.stopped {
      match t
      case Establish(shouldFail) =>
        EmitTally(s, if shouldFail then Failed(true) else Ready);
        if !shouldFail && shouldReconnect { ScheduleTally(Emit(s, Ready), Reconnect); }
      case Reconnect =>
        EmitTally(s, Reconnecting);
        ScheduleTally(Emit(s, Reconnecting), Reestablish);
      case Reestablish =>
        EmitTally(s, Ready);
    }
  }

  /** The tally after a step, from the tally and the flags before it. */
  function StepTally(y: Tally, started: bool, stopped: bool, a: Action, fires: bool): Tally {
    match a
    case Start(_) => if started then y else y.(starting := y.starting + 1, establish := y.establish + 1)
    case Fail => y.(forced := y.forced + 1)
    case ReconnectAfter => y.(reconnect := y.reconnect + 1)
    case Close => if stopped then y else y.(closed := y.closed + 1)
    case Fire(t, shouldReconnect) =>
      if fires then Settled(Waiting(y, t, -1), stopped, t, shouldReconnect) else y
  }

  predicate Fires(s: State, a: Action) { a.Fire? && a.timer in s.pending }

  lemma {:induction false} FireTally(s: State, t: Timer, shouldReconnect: bool)
    requires t in s.pending
    ensures TallyOf(Step(s, Fire(t, shouldReconnect)))
         == Settled(Waiting(TallyOf(s), t, -1), s.stopped, t, shouldReconnect)
  {
    RemoveTally(s, t);
    CallbackTally(s.(pending := s.pending - multiset{t}), t, shouldReconnect);
  }

  lemma {:induction false} StartTally(s: State, shouldFail: bool)
    requires !s.started
    ensures var y := TallyOf(s);
      TallyOf(Step(s, Start(shouldFail))) == y.(starting := y.starting + 1, establish := y.establish + 1)
  {
    var started := s.(started := true);
    assert TallyOf(started) == TallyOf(s);
    EmitTally(started, Starting);
    ScheduleTally(Emit(started, Starting), Establish(shouldFail));
  }

  lemma {:induction false} CloseTally(s: State)
    requires !s.stopped
    ensures TallyOf(Step(s, Close)) == TallyOf(s).(closed := TallyOf(s).closed + 1)
  {
    var stopped := s.(stopped := true);
    assert TallyOf(stopped) == TallyOf(s);
    EmitTally(stopped, Closed);
  }

  lemma {:induction false} TallyAfter(s: State, a: Action)
    ensures TallyOf(Step(s, a)) == StepTally(TallyOf(s), s.started, s.stopped, a, Fires(s, a))
  {
    match a
    case Start(shouldFail) => if !s.started { StartTally(s, shouldFail); }
    case Fail => EmitTally(s, Failed(false));
    case ReconnectAfter => ScheduleTally(s, Reconnect);
    case Close => if !s.stopped { CloseTally(s); }
    case Fire(t, shouldReconnect) =>
      if t in s.pending { FireTally(s, t, shouldReconnect); }
  }

  /** A callback that runs after close() and would have brought an outcome. */
  predicate Swallows(s: State, a: Action) {
    s.stopped && Fires(s, a) && a.timer != Reconnect
  }

  lemma {:induction false} Balance(y: Tally, y': Tally, started: bool, stopped: bool, a: Action, fires: bool)
    requires y' == StepTally(y, started, stopped, a, fires)
    requires fires ==> a.Fire?
    ensures y'.Promises() - y'.Outcomes() - y'.Unsettled()
         == y.Promises() - y.Outcomes() - y.Unsettled() + if fires && stopped && a.timer != Reconnect then 1 else 0
    ensures fires ==> y'.Weight() < y.Weight()
    ensures y'.starting == y.starting + if a.Start? && !started then 1 else 0
    ensures y'.closed == y.closed + if a.Close? && !stopped then 1 else 0
  {
  }

  lemma {:induction false} StepBalances(s: State, a: Action, t: State)
    requires t == Step(s, a)
    ensures var y, y' := TallyOf(s), TallyOf(t);
      && y'.Promises() - y'.Outcomes() - y'.Unsettled()
         == y.Promises() - y.Outcomes() - y.Unsettled() + (if Swallows(s, a) then 1 else 0)
      && (Fires(s, a) ==> y'.Weight() < y.Weight())
      && y'.starting == y.starting + (if a.Start? && !s.started then 1 else 0)
      && y'.closed == y.closed + (if a.Close? && !s.stopped then 1 else 0)
  {
    TallyAfter(s, a);
    Balance(TallyOf(s), TallyOf(t), s.started, s.stopped, a, Fires(s, a));
  }

  lemma {:induction false} FlagsAfter(s: State, a: Action)
    ensures Step(s, a).started == (s.started || a.Start?) && Step(s, a).stopped == (s.stopped || a.Close?)
  {
  }

  // ----- what every run keeps -----

  predicate AllowedAfterClose(e: Event) { e == Starting || e == Failed(false) }

  ghost predicate QuietAfterClose(log: seq<Event>) {
    forall i, j :: 0 <= i < j < |log| && log[i] == Closed ==> AllowedAfterClose(log[j])
  }

  function Outcomes(log: seq<Event>): int { Count(log, Ready) + Count(log, Failed(true)) }

  function Promises(log: seq<Event>): int { Count(log, Starting) + Count(log, Reconnecting) }

  /** No outcome comes before its promise: not only at the end of the log, but at every moment. */
  ghost predicate PromisedFirst(log: seq<Event>) {
    forall k :: 0 <= k <= |log| ==> Outcomes(log[..k]) <= Promises(log[..k])
  }

  /** STARTING and CLOSED are emitted at most once, as the flags say. */
  ghost predicate FlagsCount(s: State) {
    && Count(s.emitted, Starting) == (if s.started then 1 else 0)
    && Count(s.emitted, Closed) == (if s.stopped then 1 else 0)
  }

  /** Everything that holds in each reachable state. */
  ghost predicate Invariant(s: State) {
    && FlagsCount(s)
    && QuietAfterClose(s.emitted)
    && PromisedFirst(s.emitted)
    && TallyOf(s).Outcomes() + TallyOf(s).Unsettled() <= TallyOf(s).Promises()
  }

  lemma {:induction false} AppendKeeps(log: seq<Event>, e: Event, log': seq<Event>)
    requires log' == log + [e]
    requires QuietAfterClose(log) && PromisedFirst(log)
    requires Closed in log ==> AllowedAfterClose(e)
    requires Outcomes(log') <= Promises(log')
    ensures QuietAfterClose(log') && PromisedFirst(log')
  {
    forall k | 0 <= k <= |log'| ensures Outcomes(log'[..k]) <= Promises(log'[..k]) {
      assert log'[..k] == if k <= |log| then log[..k] else log';
    }
  }

  lemma {:induction false} StepEmits(s: State, a: Action)
    ensures var t := Step(s, a); t.emitted == s.emitted || exists e :: t.emitted == s.emitted + [e]
  {
  }

  lemma {:induction false} FlagsCountKept(s: State, a: Action, t: State)
    requires t == Step(s, a) && FlagsCount(s)
    ensures FlagsCount(t)
  {
    StepBalances(s, a, t);
    FlagsAfter(s, a);
  }

  lemma {:induction false} StepKeeps(s: State, a: Action, t: State)
    requires t == Step(s, a) && Invariant(s)
    ensures Invariant(t)
  {
    FlagsCountKept(s, a, t);
    StepBalances(s, a, t);
    StepEmits(s, a);
    if t.emitted != s.emitted {
      var e :| t.emitted == s.emitted + [e];
      if Closed in s.emitted {
        assert multiset(s.emitted)[Closed] > 0;
        StillQuiet(s, a, e);
      }
      AppendKeeps(s.emitted, e, t.emitted);
    }
  }

  lemma {:induction false} StillQuiet(s: State, a: Action, e: Event)
    requires s.stopped && Step(s, a).emitted == s.emitted + [e]
    ensures AllowedAfterClose(e)
  {
    assert Step(s, a).emitted[|s.emitted|] == e;
  }

  lemma {:induction false} InvariantInEveryRun(actions: seq<Action>)
    ensures Invariant(Run(INITIAL, actions))
    decreases |actions|
  {
    if actions == [] {
      assert forall k :: 0 <= k <= 0 ==> INITIAL.emitted[..k] == [];
    } else {
      var n := |actions| - 1;
      InvariantInEveryRun(actions[..n]);
      StepKeeps(Run(INITIAL, actions[..n]), actions[n], Run(INITIAL, actions));
    }
  }

  // ----- accounting over a run -----

  predicate Started(actions: seq<Action>) { Start(true) in actions || Start(false) in actions }

  /** Each flag says whether its method was called, and nothing else changes it; the tunnel is active
      from its start until its close, in whichever order they were called. */
  lemma {:induction false} FlagsAre(actions: seq<Action>)
    ensures Run(INITIAL, actions).started <==> Started(actions)
    ensures Run(INITIAL, actions).stopped <==> Close in actions
    ensures IsActive(Run(INITIAL, actions)) <==> Started(actions) && Close !in actions
    decreases |actions|
  {
    if actions != [] {
      var init, a := actions[..|actions| - 1], actions[|actions| - 1];
      assert actions == init + [a];
      FlagsAre(init);
      FlagsAfter(Run(INITIAL, init), a);
      CalledStep(init, a);
    }
  }

  lemma {:induction false} CalledStep(init: seq<Action>, a: Action)
    ensures Started(init + [a]) <==> Started(init) || a.Start?
    ensures Close in init + [a] <==> Close in init || a.Close?
  {
    assert a.Start? ==> a == Start(true) || a == Start(false);
  }

  function Swallowed(s: State, actions: seq<Action>): nat
    decreases |actions|
  {
    if actions == [] then 0
    else
      var n := |actions| - 1;
      Swallowed(s, actions[..n]) + if Swallows(Run(s, actions[..n]), actions[n]) then 1 else 0
  }

  /** What is promised beyond the outcomes and the timers that will bring them. */
  function Lost(y: Tally): int { y.Promises() - y.Outcomes() - y.Unsettled() }

  /** A measure that grows by one with each swallowed callback, and only then, counts them. */
  lemma {:induction false} MeasureOfRun(measure: State -> int, s: State, actions: seq<Action>)
    requires forall x, a :: measure(Step(x, a)) == measure(x) + if Swallows(x, a) then 1 else 0
    ensures measure(Run(s, actions)) == measure(s) + Swallowed(s, actions)
    decreases |actions|
  {
    if actions != [] {
      var n := |actions| - 1;
      MeasureOfRun(measure, s, actions[..n]);
    }
  }

  lemma {:induction false} LostIsSwallowed(s: State, actions: seq<Action>)
    ensures Lost(TallyOf(Run(s, actions))) == Lost(TallyOf(s)) + Swallowed(s, actions)
  {
    var measure := (x: State) => Lost(TallyOf(x));
    forall x: State, a: Action ensures measure(Step(x, a)) == measure(x) + if Swallows(x, a) then 1 else 0 {
      StepBalances(x, a, Step(x, a));
    }
    MeasureOfRun(measure, s, actions);
  }

  /** Conservation: each STARTING and each RECONNECTING is answered by one READY or simulated FAILED, or
      still waits for its timer, or lost it to close(). */
  lemma {:induction false} PromisesAccountedFor(actions: seq<Action>)
    ensures var y := TallyOf(Run(INITIAL, actions));
      y.Promises() == y.Outcomes() + y.Unsettled() + Swallowed(INITIAL, actions)
  {
    LostIsSwallowed(INITIAL, actions);
  }

  lemma {:induction false} NothingSwallowed(actions: seq<Action>)
    requires Close !in actions
    ensures Swallowed(INITIAL, actions) == 0
    decreases |actions|
  {
    if actions != [] {
      NothingSwallowed(actions[..|actions| - 1]);
      FlagsAre(actions[..|actions| - 1]);
    }
  }

  predicate ReconnectsWithin(y: Tally, started: bool, stopped: bool, calls: int) {
    && 0 <= y.establish <= (if started then 1 else 0)
    && y.Reconnects() <= calls + (if started then 1 - y.establish else 0)
    && (!stopped ==> calls <= y.Reconnects())
  }

  lemma {:induction false} ReconnectBalance(y: Tally, y': Tally, started: bool, stopped: bool, a: Action, fires: bool,
                                            calls: int)
    requires y' == StepTally(y, started, stopped, a, fires)
    requires fires ==> a.Fire? && (a.timer.Establish? ==> y.establish > 0)
    requires ReconnectsWithin(y, started, stopped, calls)
    ensures ReconnectsWithin(y', started || a.Start?, stopped || a.Close?, calls + if a.ReconnectAfter? then 1 else 0)
  {
  }

  /** Reconnects come from reconnectAfter(), one per call, and from at most one mid-life reconnect. */
  lemma {:induction false} ReconnectsAre(actions: seq<Action>)
    ensures var s := Run(INITIAL, actions);
      ReconnectsWithin(TallyOf(s), s.started, s.stopped, multiset(actions)[ReconnectAfter])
    decreases |actions|
  {
    if actions != [] {
      var n := |actions| - 1;
      assert actions == actions[..n] + [actions[n]];
      ReconnectsAre(actions[..n]);
      var s, a := Run(INITIAL, actions[..n]), actions[n];
      TallyAfter(s, a);
      FlagsAfter(s, a);
      ReconnectBalance(TallyOf(s), TallyOf(Step(s, a)), s.started, s.stopped, a, Fires(s, a),
        multiset(actions[..n])[ReconnectAfter]);
    }
  }

  /** With no close() and no pending timer: every promise has its outcome, every reconnectAfter() was
      announced, and besides those there was at most the one mid-life reconnect. */
  lemma {:induction false} EverythingAnswered(actions: seq<Action>)
    requires Close !in actions && Run(INITIAL, actions).pending == multiset{}
    ensures var y, calls := TallyOf(Run(INITIAL, actions)), multiset(actions)[ReconnectAfter];
      && y.ready + y.failed == y.starting + y.reconnecting
      && calls <= y.reconnecting <= calls + y.starting
  {
    FlagsAre(actions);
    NothingSwallowed(actions);
    PromisesAccountedFor(actions);
    ReconnectsAre(actions);
    InvariantInEveryRun(actions);
  }

  // ----- timers run out -----

  predicate OnlyFirings(s: State, actions: seq<Action>)
    decreases |actions|
  {
    actions == []
    || (var n := |actions| - 1;
        && OnlyFirings(s, actions[..n])
        && actions[n].Fire? && actions[n].timer in Run(s, actions[..n]).pending)
  }

  lemma {:induction false} NothingPending(s: State)
    ensures TallyOf(s).Weight() == 0 <==> s.pending == multiset{}
  {
    if s.pending != multiset{} {
      var t :| t in s.pending;
      assert s.pending[t] > 0;
      assert t == Establish(true) || t == Establish(false) || t == Reconnect || t == Reestablish;
    }
  }

  /** Left alone, the host runs at most Weight callbacks, and after so many no timer is pending. */
  lemma {:induction false} TimersRunOut(s: State, firings: seq<Action>)
    requires OnlyFirings(s, firings)
    ensures |firings| + TallyOf(Run(s, firings)).Weight() <= TallyOf(s).Weight()
    ensures |firings| == TallyOf(s).Weight() ==> Run(s, firings).pending == multiset{}
    decreases |firings|
  {
    NothingPending(Run(s, firings));
    if firings != [] {
      var n := |firings| - 1;
      TimersRunOut(s, firings[..n]);
      StepBalances(Run(s, firings[..n]), firings[n], Run(s, firings));
    }
  }

  // ----- what the flags do not prevent -----

  ghost predicate StartsAfterClosed(log: seq<Event>) {
    exists i, j :: 0 <= i < j < |log| && log[i] == Closed && log[j] == Starting
  }

  /** The k-th action is the first start(), and a close() came before it. */
  predicate StartedLateAt(actions: seq<Action>, k: nat) {
    k < |actions| && actions[k].Start? && !Started(actions[..k]) && Close in actions[..k]
  }

  /** What start() after all these actions would come too late for. */
  predicate NowLate(actions: seq<Action>) { !Started(actions) && Close in actions }

  ghost predicate StartedLate(actions: seq<Action>) { exists k: nat :: StartedLateAt(actions, k) }

  lemma {:induction false} StartedLateStep(init: seq<Action>, a: Action)
    ensures StartedLate(init + [a]) <==> StartedLate(init) || (a.Start? && NowLate(init))
  {
    var actions := init + [a];
    assert actions[..|init|] == init;
    assert forall k :: 0 <= k <= |init| ==> actions[..k] == init[..k];
    if StartedLate(actions) {
      var k: nat :| StartedLateAt(actions, k);
      if k < |init| { assert StartedLateAt(init, k); }
    }
    if StartedLate(init) {
      var k: nat :| StartedLateAt(init, k);
      assert StartedLateAt(actions, k);
    }
    if a.Start? && NowLate(init) { assert StartedLateAt(actions, |init|); }
  }

  lemma {:induction false} StartsAfterClosedStep(log: seq<Event>, e: Event)
    ensures StartsAfterClosed(log + [e]) <==> StartsAfterClosed(log) || (e == Starting && Closed in log)
  {
    var log' := log + [e];
    assert forall i :: 0 <= i < |log| ==> log'[i] == log[i];
    if StartsAfterClosed(log) {
      var i, j :| 0 <= i < j < |log| && log[i] == Closed && log[j] == Starting;
      assert log'[i] == Closed && log'[j] == Starting;
    }
    if e == Starting && Closed in log {
      var i :| 0 <= i < |log| && log[i] == Closed;
      assert log'[i] == Closed && log'[|log|] == Starting;
    }
  }

  lemma {:induction false} EmitsStarting(s: State, a: Action, e: Event)
    requires Step(s, a).emitted == s.emitted + [e]
    ensures e == Starting <==> a.Start? && !s.started
  {
    assert Step(s, a).emitted[|s.emitted|] == e;
  }

  /** start() looks only at its own flag: STARTING is announced after CLOSED exactly in the runs whose
      first start() comes after the first close(). */
  lemma {:induction false} StartsAfterCloseIff(actions: seq<Action>)
    ensures StartsAfterClosed(Run(INITIAL, actions).emitted) <==> StartedLate(actions)
  {
    if actions != [] {
      var init, a := actions[..|actions| - 1], actions[|actions| - 1];
      var s := Run(INITIAL, init);
      assert actions == init + [a];
      StartsAfterCloseIff(init);
      StartedLateStep(init, a);
      LateStep(s, init, a, Run(INITIAL, actions));
    }
  }

  lemma {:induction false} LateStep(s: State, init: seq<Action>, a: Action, t: State)
    requires s == Run(INITIAL, init) && t == Step(s, a)
    ensures StartsAfterClosed(t.emitted) <==> StartsAfterClosed(s.emitted) || (a.Start? && NowLate(init))
  {
    FlagsAre(init);
    InvariantInEveryRun(init);
    assert Closed in s.emitted <==> multiset(s.emitted)[Closed] > 0;
    StepEmits(s, a);
    assert a.Start? && !s.started ==> |t.emitted| == |s.emitted| + 1;
    if t.emitted != s.emitted {
      var e :| t.emitted == s.emitted + [e];
      EmitsStarting(s, a, e);
      StartsAfterClosedStep(s.emitted, e);
    }
  }

  /** The shortest such run. */
  lemma {:induction false} StartsAfterClose()
    ensures Run(INITIAL, [Close, Start(false)]).emitted == [Closed, Starting]
  {
    var actions := [Close, Start(false)];
    assert actions[..1] == [Close] && actions[..1][..0] == [];
  }
}
