/** Which outcomes a run of the tunnel announces, read off its actions. */
module TunnelOutcomes {
  import opened Events
  import opened Tunnel

  /** The draw of the first start(), which sets the one timer of the first connection. */
  function Drawn(actions: seq<Action>): Option<bool> {
    if actions == [] then None
    else
      var init, a := actions[..|actions| - 1], actions[|actions| - 1];
      if Drawn(init).Some? then Drawn(init) else if a.Start? then Some(a.shouldFail) else None
  }

  /** What became of the first connection: refused, or made, perhaps with a later reconnect. */
  datatype Connection = Refused | Made(again: bool)

  /** Decided when that timer first fires. */
  function Settled(d: Option<bool>, c: Option<Connection>, a: Action): Option<Connection> {
    if c.Some? || !a.Fire? || !a.timer.Establish? || d != Some(a.timer.shouldFail) then c
    else Some(if a.timer.shouldFail then Refused else Made(a.shouldReconnect))
  }

  function Established(actions: seq<Action>): Option<Connection> {
    if actions == [] then None
    else
      var init := actions[..|actions| - 1];
      Settled(Drawn(init), Established(init), actions[|actions| - 1])
  }

  lemma {:induction false} DrawnIsStart(actions: seq<Action>)
    ensures Drawn(actions).Some? <==> Started(actions)
    ensures Drawn(actions).Some? ==> Start(Drawn(actions).value) in actions
  {
    if actions != [] {
      var init, a := actions[..|actions| - 1], actions[|actions| - 1];
      assert actions == init + [a];
      DrawnIsStart(init);
    }
  }

  function One(p: bool): int { if p then 1 else 0 }

  /** The timer of the first connection is pending until it decides. */
  ghost predicate Awaits(s: State, d: Option<bool>, c: Option<Connection>) {
    && !s.stopped && (s.started <==> d.Some?) && (c.Some? ==> d.Some?)
    && s.pending[Establish(true)] == One(d == Some(true) && c == None)
    && s.pending[Establish(false)] == One(d == Some(false) && c == None)
  }

  /** What is announced or pending before any close(). */
  predicate Accounts(y: Tally, c: Option<Connection>, calls: int, fails: int) {
    && y.failed == One(c == Some(Refused))
    && y.ready + y.reestablish == One(c.Some? && c.value.Made?) + y.reconnecting
    && y.reconnecting + y.reconnect == calls + One(c == Some(Made(true)))
    && y.forced == fails
  }

  function DrawnStep(d: Option<bool>, a: Action): Option<bool> {
    if d.None? && a.Start? then Some(a.shouldFail) else d
  }

  lemma {:induction false} PendingAfter(s: State, a: Action, b: bool)
    ensures Step(s, a).pending[Establish(b)] == s.pending[Establish(b)]
         + One(a == Start(b) && !s.started) - One(Fires(s, a) && a.timer == Establish(b))
  {
    if Fires(s, a) {
      var removed := s.(pending := s.pending - multiset{a.timer});
      assert removed.pending[Establish(b)] == s.pending[Establish(b)] - One(a.timer == Establish(b));
      assert Callback(removed, a.timer, a.shouldReconnect).pending[Establish(b)] == removed.pending[Establish(b)];
    }
  }

  lemma {:induction false} AwaitsStep(s: State, a: Action, d: Option<bool>, c: Option<Connection>)
    requires !a.Close? && Awaits(s, d, c)
    ensures Awaits(Step(s, a), DrawnStep(d, a), Settled(d, c, a))
  {
    FlagsAfter(s, a);
    PendingAfter(s, a, true);
    PendingAfter(s, a, false);
    assert Fires(s, a) <==> a.Fire? && s.pending[a.timer] > 0;
  }

  lemma {:induction false} AccountsKept(y: Tally, y': Tally, started: bool, a: Action, fires: bool, d: Option<bool>,
                                        c: Option<Connection>, calls: int, fails: int)
    requires y' == StepTally(y, started, false, a, fires) && !a.Close? && Accounts(y, c, calls, fails)
    requires a.Fire? && a.timer.Establish? ==> (fires <==> d == Some(a.timer.shouldFail) && c == None)
    requires fires ==> a.Fire?
    ensures Accounts(y', Settled(d, c, a), calls + One(a.ReconnectAfter?), fails + One(a.Fail?))
  {
  }

  lemma {:induction false} AccountsStep(s: State, a: Action, d: Option<bool>, c: Option<Connection>, calls: int,
                                        fails: int, y: Tally, y': Tally)
    requires !a.Close? && Awaits(s, d, c) && y == TallyOf(s) && y' == TallyOf(Step(s, a))
    requires Accounts(y, c, calls, fails)
    ensures Accounts(y', Settled(d, c, a), calls + One(a.ReconnectAfter?), fails + One(a.Fail?))
  {
    TallyAfter(s, a);
    FiresEstablish(s, a, d, c);
    AccountsKept(y, y', s.started, a, Fires(s, a), d, c, calls, fails);
  }

  lemma {:induction false} FiresEstablish(s: State, a: Action, d: Option<bool>, c: Option<Connection>)
    requires Awaits(s, d, c)
    ensures a.Fire? && a.timer.Establish? ==> (Fires(s, a) <==> d == Some(a.timer.shouldFail) && c == None)
  {
    assert Fires(s, a) <==> a.Fire? && s.pending[a.timer] > 0;
  }

  lemma {:induction false} LiveRun(actions: seq<Action>)
    requires Close !in actions
    ensures var s, m := Run(INITIAL, actions), multiset(actions);
      && Awaits(s, Drawn(actions), Established(actions))
      && Accounts(TallyOf(s), Established(actions), m[ReconnectAfter], m[Fail])
    decreases |actions|
  {
    if actions != [] {
      var init, a := actions[..|actions| - 1], actions[|actions| - 1];
      assert actions == init + [a];
      LiveRun(init);
      AwaitsStep(Run(INITIAL, init), a, Drawn(init), Established(init));
      AccountsStep(Run(INITIAL, init), a, Drawn(init), Established(init), multiset(init)[ReconnectAfter],
        multiset(init)[Fail], TallyOf(Run(INITIAL, init)), TallyOf(Run(INITIAL, actions)));
    }
  }

  // ----- close() -----

  /** The actions before the first close(). */
  function BeforeClose(actions: seq<Action>): seq<Action> {
    if actions == [] then []
    else
      var init, a := actions[..|actions| - 1], actions[|actions| - 1];
      if Close in init || a.Close? then BeforeClose(init) else actions
  }

  lemma {:induction false} BeforeCloseIs(actions: seq<Action>)
    ensures BeforeClose(actions) <= actions && Close !in BeforeClose(actions)
    ensures Close !in actions ==> BeforeClose(actions) == actions
    ensures Close in actions ==> BeforeClose(actions) + [Close] <= actions
    decreases |actions|
  {
    if actions != [] {
      var init, a := actions[..|actions| - 1], actions[|actions| - 1];
      assert actions == init + [a];
      BeforeCloseIs(init);
    }
  }

  /** A stopped tunnel settles nothing any more. */
  lemma {:induction false} StoppedKeeps(s: State, a: Action)
    requires s.stopped || a.Close?
    ensures var y, y' := TallyOf(s), TallyOf(Step(s, a));
      y'.ready == y.ready && y'.failed == y.failed && y'.reconnecting == y.reconnecting
  {
    TallyAfter(s, a);
  }

  lemma {:induction false} ClosedRun(actions: seq<Action>)
    ensures var y, y' := TallyOf(Run(INITIAL, BeforeClose(actions))), TallyOf(Run(INITIAL, actions));
      y'.ready == y.ready && y'.failed == y.failed && y'.reconnecting == y.reconnecting
    decreases |actions|
  {
    if actions != [] {
      var init, a := actions[..|actions| - 1], actions[|actions| - 1];
      assert actions == init + [a];
      ClosedRun(init);
      FlagsAre(init);
      BeforeCloseIs(init);
      if Close in init || a.Close? { StoppedKeeps(Run(INITIAL, init), a); }
    }
  }

  lemma {:induction false} ForcedAre(actions: seq<Action>)
    ensures TallyOf(Run(INITIAL, actions)).forced == multiset(actions)[Fail]
    decreases |actions|
  {
    if actions != [] {
      var init, a := actions[..|actions| - 1], actions[|actions| - 1];
      assert actions == init + [a];
      ForcedAre(init);
      TallyAfter(Run(INITIAL, init), a);
    }
  }

  /** In every run, close() or not: the simulated failure is announced exactly when the first connection is
      refused before close(); each READY is the first connection or ends a reconnect; reconnects are those
      asked for and the one that the first connection drew; and each fail() is announced. */
  lemma {:induction false} OutcomesAre(actions: seq<Action>)
    ensures var live := BeforeClose(actions);
      var y, z, c := TallyOf(Run(INITIAL, actions)), TallyOf(Run(INITIAL, live)), Established(live);
      && y.failed == One(c == Some(Refused))
      && y.ready == One(c.Some? && c.value.Made?) + y.reconnecting - z.reestablish
      && y.reconnecting == multiset(live)[ReconnectAfter] + One(c == Some(Made(true))) - z.reconnect
      && y.forced == multiset(actions)[Fail]
  {
    BeforeCloseIs(actions);
    ClosedRun(actions);
    LiveRun(BeforeClose(actions));
    ForcedAre(actions);
  }
}
