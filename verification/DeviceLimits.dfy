/** What the device session does not keep: the exact conditions, and runs that meet them. */
module DeviceLimits {
  import opened DeviceSession
  import opened Events

  // ---- The microphone stream in CONNECTED_IDLE ----

  /** Idle and deaf to the user, as one would expect. */
  predicate Still(s: State) {
    s.app.ConnectedIdle? ==> !s.streaming
  }

  /** The switch goes back to idle without turning the stream off. */
  predicate SwitchLeavesOn(s: State, env: Env) {
    (s.app.Connecting? && (s.connected || !env.initOk)) || (s.app.Handshaking? && s.connected && !env.sendOk)
  }

  predicate FsmLeavesOn(s: State, env: Env) {
    || (s.pc.Top? && s.running && !s.bargein && SwitchLeavesOn(s, env))
    || (s.pc.BargeDelay? && s.connected && !env.sendOk)
    || s.pc.ConnectWait? || s.pc.EndDelay?
  }

  /** The stream is on, and the step goes to idle and forgets about it. */
  predicate LeavesOn(s: State, a: Action) {
    s.streaming && ((a.Fsm? && FsmLeavesOn(s, a.env)) || a.Resume?)
  }

  lemma ConnectingStill(s: State, env: Env)
    requires s.app.Connecting?
    ensures Still(ConnectingCase(s, env)) <==> !(s.streaming && SwitchLeavesOn(s, env))
  {
    if s.connected {
    } else if env.initOk {
    }
  }

  lemma ConnectedIdleStill(s: State, env: Env)
    requires s.app.ConnectedIdle? && Still(s)
    ensures Still(ConnectedIdleCase(s, env))
  {
    if s.connected {
      if env.button {
      }
    }
  }

  lemma HandshakingStill(s: State, env: Env)
    requires s.app.Handshaking?
    ensures Still(HandshakingCase(s, env)) <==> !(s.streaming && s.connected && !env.sendOk)
  {
    if s.connected {
      if env.sendOk {
      }
    }
  }

  lemma EndOfTurnStill(s: State)
    requires Still(s)
    ensures Still(EndOfTurn(s))
  {
    if !s.sessionActive && !s.app.ConnectedIdle? {
    }
  }

  lemma InSessionStill(s: State, env: Env)
    requires Still(s)
    ensures Still(InSessionCase(s, env))
  {
    hide EndOfTurn;
    EndOfTurnStill(s);
    if env.button {
    }
  }

  lemma SwitchStill(s: State, env: Env)
    requires Still(s)
    ensures Still(Switch(s, env)) <==> !(s.streaming && SwitchLeavesOn(s, env))
  {
    hide ConnectingCase, ConnectedIdleCase, HandshakingCase, InSessionCase;
    if s.app.Connecting? {
      ConnectingStill(s, env);
    } else if s.app.ConnectedIdle? {
      ConnectedIdleStill(s, env);
    } else if s.app.Handshaking? {
      HandshakingStill(s, env);
    } else if !s.app.Idle? {
      InSessionStill(s, env);
    }
  }

  lemma LoopHeadStill(s: State, env: Env)
    requires Still(s)
    ensures Still(LoopHead(s, env)) <==> !(s.streaming && s.running && !s.bargein && SwitchLeavesOn(s, env))
  {
    hide Switch, SwitchLeavesOn;
    SwitchStill(s, env);
  }

  lemma BargedInStill(s: State, env: Env)
    ensures Still(Switch(BargedIn(s), env)) <==> !(s.streaming && s.connected && !env.sendOk)
  {
    hide Switch;
    SwitchStill(BargedIn(s), env);
  }

  lemma HandshakeStill(s: State)
    requires Still(s)
    ensures Still(SessionStarted(s)) && Still(HelloPolled(s))
  {
    if s.running {
      if !s.helloDone && s.waits + 1 < MAX_WAITS {
      }
    }
  }

  lemma ReturnStill(s: State, env: Env)
    ensures Still(ConnectReturned(s, env)) <==> !s.streaming
    ensures Still(SessionEnded(s)) <==> !s.streaming
  {
    if env.connectOk && s.connected && env.sendOk {
    }
  }

  lemma MovingOnStill(s: State)
    requires Still(s)
    ensures Still(s.(pc := Top)) && Still(s.(pc := PollDelay)) && Still(s.(app := Connecting, pc := Top))
  {
  }

  lemma FsmStill(s: State, env: Env)
    requires Still(s)
    ensures Still(FsmStep(s, env)) <==> !(s.streaming && FsmLeavesOn(s, env))
  {
    hide LoopHead, Switch, SwitchLeavesOn, BargedIn, ConnectReturned, SessionStarted, HelloPolled, SessionEnded,
         EndOfTurn, Still;
    if s.pc.Top? {
      LoopHeadStill(s, env);
    } else if s.pc.BargeDelay? {
      BargedInStill(s, env);
    } else if s.pc.ConnectWait? || s.pc.EndDelay? {
      ReturnStill(s, env);
    } else if s.pc.SessionDelay? || s.pc.HelloWait? {
      HandshakeStill(s);
    } else if s.pc.EndDebounce? {
      EndOfTurnStill(s);
    } else {
      MovingOnStill(s);
    }
  }

  lemma TtsEndedStill(s: State, exitIntent: bool)
    requires Still(s)
    ensures Still(TtsEnded(s, exitIntent))
  {
    if !s.helloDone {
    } else if exitIntent {
    }
  }

  lemma EventStill(s: State)
    ensures Still(StartListening(s)) && Still(QueryEnded(s)) && Still(SessionFinished(s))
  {
  }

  lemma ErrorStill(s: State, code: nat)
    requires Still(s)
    ensures Still(ErrorReceived(s, code))
  {
    if Recoverable(code) {
    }
  }

  lemma ReceiveStill(s: State, m: Message)
    requires Still(s)
    ensures Still(ReceiveStep(s, m))
  {
    hide TtsEnded, StartListening, QueryEnded, SessionFinished, ErrorReceived, Still;
    EventStill(s);
    if m.Event? {
      TtsEndedStill(s, m.exitIntent);
    } else if m.ServerError? {
      ErrorStill(s, m.errorCode);
    }
  }

  lemma ResumeStill(s: State)
    requires !s.cb.Quiet?
    ensures Still(ResumeStep(s)) <==> !s.streaming
  {
    if s.cb.ExitDelay? {
    }
  }

  /** A step keeps the stream off in CONNECTED_IDLE exactly if it does not leave it on. */
  lemma StillStep(s: State, a: Action)
    requires Still(s) && Enabled(s, a)
    ensures Still(Step(s, a)) <==> !LeavesOn(s, a)
  {
    hide FsmStep, FsmLeavesOn, ReceiveStep, ResumeStep;
    if a.Fsm? {
      FsmStill(s, a.env);
    } else if a.Receive? {
      ReceiveStill(s, a.message);
    } else if a.Resume? {
      ResumeStill(s);
    } else if a.Wake? {
    }
  }

  /** In every state of the run, the last one included. */
  predicate AlwaysStill(wakenet: bool, actions: seq<Action>) {
    Still(Run(wakenet, actions)) && (actions == [] || AlwaysStill(wakenet, actions[..|actions| - 1]))
  }

  predicate NeverLeavesOn(wakenet: bool, actions: seq<Action>) {
    actions == [] ||
    var before := actions[..|actions| - 1];
    NeverLeavesOn(wakenet, before) && !LeavesOn(Run(wakenet, before), actions[|actions| - 1])
  }

  /** CONNECTED_IDLE means that the stream is off, throughout a run, exactly if no step of it leaves the stream on. */
  lemma {:induction false} StillExactly(wakenet: bool, actions: seq<Action>)
    requires Possible(wakenet, actions)
    ensures AlwaysStill(wakenet, actions) <==> NeverLeavesOn(wakenet, actions)
  {
    hide Step, LeavesOn, Enabled;
    if actions != [] {
      var before, a := actions[..|actions| - 1], actions[|actions| - 1];
      StillExactly(wakenet, before);
      if AlwaysStill(wakenet, before) {
        StillStep(Run(wakenet, before), a);
      }
    }
  }

  // ---- The modes, throughout a run ----

  /** The modes, and WakeNet on while the callback finishes an exit. */
  predicate AlwaysModes(wakenet: bool, actions: seq<Action>) {
    Modes(Run(wakenet, actions)) && (actions == [] || AlwaysModes(wakenet, actions[..|actions| - 1]))
  }

  /** The invariant about the wait of an exit holds throughout a run exactly if nothing turns WakeNet off in one. */
  lemma {:induction false} ModesExactly(wakenet: bool, actions: seq<Action>)
    requires Possible(wakenet, actions)
    ensures AlwaysModes(wakenet, actions) <==> Undisturbed(wakenet, actions)
  {
    hide Step, Disturbs, Enabled, Modes;
    if actions == [] {
      InitialModes(wakenet);
    } else {
      var before, a := actions[..|actions| - 1], actions[|actions| - 1];
      ModesExactly(wakenet, before);
      if AlwaysModes(wakenet, before) {
        ModesStep(Run(wakenet, before), a);
      }
    }
  }

  /** The modes are right in every state of the run. */
  predicate AlwaysRight(wakenet: bool, actions: seq<Action>) {
    RightModes(Run(wakenet, actions)) && (actions == [] || AlwaysRight(wakenet, actions[..|actions| - 1]))
  }

  predicate NeverDeafens(wakenet: bool, actions: seq<Action>) {
    actions == [] ||
    var before := actions[..|actions| - 1];
    NeverDeafens(wakenet, before) && !Deafens(Run(wakenet, before), actions[|actions| - 1])
  }

  /** LISTENING, SPEAKING and CONNECTED_IDLE mean what they should, throughout a run, exactly if the callback never
      finishes an exit with WakeNet off. */
  lemma {:induction false} RightExactly(wakenet: bool, actions: seq<Action>)
    requires Possible(wakenet, actions)
    ensures AlwaysRight(wakenet, actions) <==> NeverDeafens(wakenet, actions)
  {
    hide Step, Deafens, Enabled, RightModes;
    if actions == [] {
      InitialRight(wakenet);
    } else {
      var before, a := actions[..|actions| - 1], actions[|actions| - 1];
      RightExactly(wakenet, before);
      if AlwaysRight(wakenet, before) {
        RightModesStep(Run(wakenet, before), a);
      }
    }
  }

  lemma InitialRight(wakenet: bool)
    ensures RightModes(Initial(wakenet))
  {
  }

  /** An undisturbed exit is enough. */
  lemma {:induction false} UndisturbedNeverDeafens(wakenet: bool, actions: seq<Action>)
    requires Possible(wakenet, actions) && Undisturbed(wakenet, actions)
    ensures NeverDeafens(wakenet, actions)
  {
    hide Step, Disturbs, Enabled, RightModes;
    if actions != [] {
      var before := actions[..|actions| - 1];
      UndisturbedNeverDeafens(wakenet, before);
      ModesInvariant(wakenet, before);
    }
  }

  // ---- What an overtaken callback can do ----

  datatype Config = Config(s: State, open: bool)

  function Next(c: Config, a: Action): Config {
    Config(Step(c.s, a), OpenAfter(c.open, EffectOf(c.s, a)))
  }

  function After(c: Config, more: seq<Action>): Config {
    if more == [] then c else Next(After(c, more[..|more| - 1]), more[|more| - 1])
  }

  /** Steps the system can take, without overtaking. */
  predicate Allowed(c: Config, more: seq<Action>) {
    more == [] ||
    var d, a := After(c, more[..|more| - 1]), more[|more| - 1];
    Allowed(c, more[..|more| - 1]) && Enabled(d.s, a) && !Overtakes(d.s, d.open, a)
  }

  /** StartSession is sent while a session is open. */
  predicate Doubles(c: Config, a: Action) {
    Enabled(c.s, a) && EffectOf(c.s, a) == StartTried(true) && c.open
  }

  ghost predicate CanDouble(c: Config) {
    exists more, a :: Allowed(c, more) && Doubles(After(c, more), a)
  }

  /** A continuation of a run is a run. */
  lemma {:induction false} AfterRun(wakenet: bool, actions: seq<Action>, more: seq<Action>)
    ensures After(Config(Run(wakenet, actions), Open(wakenet, actions)), more)
            == Config(Run(wakenet, actions + more), Open(wakenet, actions + more))
  {
    hide Step, EffectOf;
    if more == [] {
      assert actions + more == actions;
    } else {
      AfterRun(wakenet, actions, more[..|more| - 1]);
      assert (actions + more)[..|actions + more| - 1] == actions + more[..|more| - 1];
    }
  }

  lemma More(c: Config, more: seq<Action>, a: Action)
    requires Allowed(c, more)
    requires Enabled(After(c, more).s, a) && !Overtakes(After(c, more).s, After(c, more).open, a)
    ensures Allowed(c, more + [a]) && After(c, more + [a]) == Next(After(c, more), a)
  {
    hide Next, Enabled, Overtakes;
    assert (more + [a])[..|more|] == more;
  }

  /** Only a client that exists is connected, and StartSession is sent over it. */
  predicate Alive(s: State) {
    (s.connected ==> s.live) && (s.pc.SessionDelay? ==> s.live)
  }

  lemma ConnectingAlive(s: State, env: Env)
    requires Alive(s)
    ensures Alive(ConnectingCase(s, env))
  {
    if s.connected {
    } else if env.initOk {
    }
  }

  lemma ConnectedIdleAlive(s: State, env: Env)
    requires Alive(s)
    ensures Alive(ConnectedIdleCase(s, env))
  {
    if s.connected {
      if env.button {
      }
    }
  }

  lemma HandshakingAlive(s: State, env: Env)
    requires Alive(s)
    ensures Alive(HandshakingCase(s, env))
  {
    if s.connected {
      if env.sendOk {
      }
    }
  }

  lemma EndOfTurnAlive(s: State)
    requires Alive(s)
    ensures Alive(EndOfTurn(s))
  {
    if !s.sessionActive && !s.app.ConnectedIdle? {
    }
  }

  lemma InSessionAlive(s: State, env: Env)
    requires Alive(s)
    ensures Alive(InSessionCase(s, env))
  {
    hide EndOfTurn;
    EndOfTurnAlive(s);
    if env.button {
    }
  }

  lemma SwitchAlive(s: State, env: Env)
    requires Alive(s)
    ensures Alive(Switch(s, env))
  {
    hide ConnectingCase, ConnectedIdleCase, HandshakingCase, InSessionCase;
    if s.app.Connecting? {
      ConnectingAlive(s, env);
    } else if s.app.ConnectedIdle? {
      ConnectedIdleAlive(s, env);
    } else if s.app.Handshaking? {
      HandshakingAlive(s, env);
    } else if !s.app.Idle? {
      InSessionAlive(s, env);
    }
  }

  lemma LoopHeadAlive(s: State, env: Env)
    requires Alive(s)
    ensures Alive(LoopHead(s, env)) && Alive(Switch(BargedIn(s), env))
  {
    hide Switch;
    SwitchAlive(s, env);
    SwitchAlive(BargedIn(s), env);
  }

  lemma HandshakeAlive(s: State)
    requires Alive(s)
    ensures Alive(SessionStarted(s)) && Alive(HelloPolled(s))
  {
    if s.running {
      if !s.helloDone && s.waits + 1 < MAX_WAITS {
      }
    }
  }

  lemma ReturnAlive(s: State, env: Env)
    requires Alive(s)
    ensures Alive(ConnectReturned(s, env)) && Alive(SessionEnded(s)) && Alive(s.(pc := Top))
    ensures Alive(s.(pc := PollDelay)) && Alive(s.(app := Connecting, pc := Top))
  {
    if env.connectOk && s.connected && env.sendOk {
    }
  }

  lemma FsmAlive(s: State, env: Env)
    requires Alive(s)
    ensures Alive(FsmStep(s, env))
  {
    hide LoopHead, Switch, BargedIn, ConnectReturned, SessionStarted, HelloPolled, SessionEnded, EndOfTurn, Alive;
    if s.pc.Top? || s.pc.BargeDelay? {
      LoopHeadAlive(s, env);
    } else if s.pc.SessionDelay? || s.pc.HelloWait? {
      HandshakeAlive(s);
    } else if s.pc.EndDebounce? {
      EndOfTurnAlive(s);
    } else {
      ReturnAlive(s, env);
    }
  }

  /** What the callbacks leave alone; they can only stop the device or ask for a barge-in. */
  predicate Untouched(s: State, t: State) {
    && t.pc == s.pc && t.connected == s.connected && t.live == s.live
    && (s.bargein ==> t.bargein) && (t.running ==> s.running)
  }

  lemma TtsEndedUntouched(s: State, exitIntent: bool)
    ensures Untouched(s, TtsEnded(s, exitIntent))
  {
    if !s.helloDone {
    } else if exitIntent {
    }
  }

  lemma ErrorUntouched(s: State, code: nat)
    ensures Untouched(s, ErrorReceived(s, code))
  {
    if Recoverable(code) {
    }
  }

  lemma ReceiveUntouched(s: State, m: Message)
    ensures Untouched(s, ReceiveStep(s, m))
  {
    hide TtsEnded, ErrorReceived;
    if m.Event? {
      TtsEndedUntouched(s, m.exitIntent);
    } else if m.ServerError? {
      ErrorUntouched(s, m.errorCode);
    }
  }

  lemma WakeUntouched(s: State)
    ensures Untouched(s, WakeStep(s))
  {
    if s.app.ConnectedIdle? {
      if s.connected {
      }
    } else if s.app.Speaking? {
    }
  }

  lemma ResumeUntouched(s: State)
    ensures Untouched(s, ResumeStep(s))
  {
    if s.cb.ExitDelay? {
    } else if s.cb.ErrorDelay? {
    }
  }

  lemma CallbackUntouched(s: State, a: Action)
    requires a.Receive? || a.Wake? || a.Resume?
    ensures Untouched(s, Step(s, a))
  {
    hide ReceiveStep, WakeStep, ResumeStep, Untouched;
    if a.Receive? {
      ReceiveUntouched(s, a.message);
    } else if a.Wake? {
      WakeUntouched(s);
    } else {
      ResumeUntouched(s);
    }
  }

  lemma StepAlive(s: State, a: Action)
    requires Alive(s) && Enabled(s, a)
    ensures Alive(Step(s, a))
  {
    hide Step, FsmStep;
    if a.Fsm? {
      FsmAlive(s, a.env);
      IsFsmStep(s, a);
    } else if a.Link? {
      IsLinkStep(s, a);
    } else {
      CallbackUntouched(s, a);
    }
  }

  lemma IsFsmStep(s: State, a: Action)
    requires a.Fsm?
    ensures Step(s, a) == FsmStep(s, a.env) && EffectOf(s, a) == FsmEffect(s, a.env)
  {
    hide FsmStep, FsmEffect;
  }

  lemma IsLinkStep(s: State, a: Action)
    requires a.Link?
    ensures Step(s, a) == s.(connected := a.up) && EffectOf(s, a) == NoEffect
  {
  }

  lemma {:induction false} RunAlive(wakenet: bool, actions: seq<Action>)
    requires Possible(wakenet, actions)
    ensures Alive(Run(wakenet, actions))
  {
    hide Step, Enabled;
    if actions != [] {
      RunAlive(wakenet, actions[..|actions| - 1]);
      StepAlive(Run(wakenet, actions[..|actions| - 1]), actions[|actions| - 1]);
    }
  }

  // -- No harm: the FSM task stops, or finishes the session first

  /** The next time the FSM task looks, it stops or processes a barge-in. */
  predicate Defused(s: State) {
    (s.pc.HelloWait? || s.pc.Top? || s.pc.Stopped?) && (s.bargein || !s.running)
  }

  predicate Harmless(c: Config) {
    SessionInv(c.s, c.open) || Defused(c.s)
  }

  lemma LoopHeadDefused(s: State, open: bool, env: Env)
    requires Defused(s) && s.pc.Top?
    ensures !FsmEffect(s, env).StartTried?
    ensures !OpenAfter(open, FsmEffect(s, env)) || Defused(LoopHead(s, env))
  {
    hide Switch, SwitchEffect;
    if s.running {
    }
  }

  lemma HelloDefused(s: State)
    requires Defused(s) && s.pc.HelloWait?
    ensures Defused(HelloPolled(s))
  {
    if !s.helloDone && s.waits + 1 < MAX_WAITS && s.running {
    }
  }

  lemma FsmDefused(s: State, open: bool, env: Env)
    requires Defused(s) && !s.pc.Stopped?
    ensures !FsmEffect(s, env).StartTried?
    ensures !OpenAfter(open, FsmEffect(s, env)) || Defused(FsmStep(s, env))
  {
    hide LoopHead, HelloPolled;
    if s.pc.Top? {
      LoopHeadDefused(s, open, env);
    } else {
      HelloDefused(s);
    }
  }

  lemma NoStart(s: State, a: Action)
    requires !a.Fsm?
    ensures !EffectOf(s, a).StartTried?
  {
    hide Recoverable;
    if a.Receive? {
      if a.message.Event? {
      } else if a.message.ServerError? {
      }
    }
  }

  lemma OthersDefused(s: State, a: Action)
    requires Defused(s) && !a.Fsm?
    ensures Defused(Step(s, a)) && !EffectOf(s, a).StartTried?
  {
    hide Step, EffectOf;
    NoStart(s, a);
    if a.Link? {
      IsLinkStep(s, a);
    } else {
      CallbackUntouched(s, a);
    }
  }

  lemma NothingOpen(s: State)
    ensures SessionInv(s, false)
  {
  }

  lemma HarmlessStep(c: Config, a: Action)
    requires Harmless(c) && Enabled(c.s, a) && !Overtakes(c.s, c.open, a)
    ensures Harmless(Next(c, a)) && !Doubles(c, a)
  {
    hide FsmStep, FsmEffect, ReceiveStep, ReceiveEffect, WakeStep, ResumeStep, SessionInv, Defused, OpenAfter,
         Overtakes;
    NothingOpen(Step(c.s, a));
    if SessionInv(c.s, c.open) {
      SessionStep(c.s, c.open, a);
    } else if a.Fsm? {
      FsmDefused(c.s, c.open, a.env);
    } else {
      OthersDefused(c.s, a);
    }
  }

  lemma {:induction false} HarmlessAfter(c: Config, more: seq<Action>)
    requires Harmless(c) && Allowed(c, more)
    ensures Harmless(After(c, more))
  {
    hide Harmless, Next, Enabled, Overtakes;
    if more != [] {
      HarmlessAfter(c, more[..|more| - 1]);
      HarmlessStep(After(c, more[..|more| - 1]), more[|more| - 1]);
    }
  }

  lemma CannotDouble(c: Config)
    requires Harmless(c)
    ensures !CanDouble(c)
  {
    hide Harmless, Doubles, Next;
    forall more, a | Allowed(c, more) ensures !Doubles(After(c, more), a) {
      HarmlessAfter(c, more);
      NeverDoubles(After(c, more), a);
    }
  }

  lemma NeverDoubles(c: Config, a: Action)
    requires Harmless(c)
    ensures !Doubles(c, a)
  {
    hide Harmless, EffectOf, Enabled, Overtakes;
    NothingOvertaken(c.s, c.open, a);
    if Enabled(c.s, a) && !Overtakes(c.s, c.open, a) {
      HarmlessStep(c, a);
    }
  }

  // -- Harm: the callback ends a session that is not its own

  const GO := Fsm(Env(false, true, true, true))
  const TTS_ENDED := Receive(Event(EVENT_TTS_ENDED, false))

  /** Behind an overtaken callback: waiting for the greeting of an open session. */
  predicate Greeting(c: Config) {
    c.open && c.s.pc.HelloWait? && c.s.running && !c.s.bargein && c.s.live && !c.s.helloDone && c.s.waits == 0
    && c.s.sessionActive
  }

  /** The client library may connect again at any time. */
  lemma Reconnect(c: Config)
    requires c.s.live
    ensures Enabled(c.s, Link(true)) && !Overtakes(c.s, c.open, Link(true))
    ensures Next(c, Link(true)) == Config(c.s.(connected := true), c.open)
  {
    IsLinkStep(c.s, Link(true));
    hide Step, EffectOf;
  }

  /** The rest of an exit that belonged to the session before. */
  lemma ExitResumes(c: Config)
    requires c.s.cb.ExitDelay?
    ensures Enabled(c.s, Resume) && !Overtakes(c.s, c.open, Resume)
    ensures Next(c, Resume) == Config(c.s.(sessionActive := false, app := ConnectedIdle, cb := Quiet), c.open)
  {
  }

  lemma GreetingEnds(c: Config)
    requires c.s.cb.Quiet? && c.s.live && !c.s.helloDone
    ensures Enabled(c.s, TTS_ENDED) && !Overtakes(c.s, c.open, TTS_ENDED)
    ensures Next(c, TTS_ENDED) == Config(c.s.(helloDone := true), c.open)
  {
  }

  lemma StartsListening(c: Config)
    requires c.s.pc.HelloWait? && (c.s.helloDone || c.s.waits + 1 == MAX_WAITS)
    ensures Enabled(c.s, GO) && !Overtakes(c.s, c.open, GO)
    ensures Next(c, GO) == Config(HandshakeDone(c.s.(waits := c.s.waits + 1)), c.open)
  {
    hide HandshakeDone;
    IsFsmStep(c.s, GO);
    assert FsmStep(c.s, GO.env) == HelloPolled(c.s) && FsmEffect(c.s, GO.env) == NoEffect;
  }

  /** The session is taken for over. */
  lemma ForgetsSession(c: Config)
    requires c.s.pc.Top? && c.s.running && !c.s.bargein && c.s.app.Listening? && !c.s.sessionActive
    ensures Enabled(c.s, GO) && !Overtakes(c.s, c.open, GO)
    ensures Next(c, GO) ==
            Config(c.s.(wakenet := true, app := ConnectedIdle, streaming := false, pc := PollDelay), c.open)
  {
    IsFsmStep(c.s, GO);
    assert FsmStep(c.s, GO.env) == EndOfTurn(c.s) && FsmEffect(c.s, GO.env) == NoEffect;
  }

  lemma LooksAgain(c: Config)
    requires c.s.pc.PollDelay?
    ensures Enabled(c.s, GO) && !Overtakes(c.s, c.open, GO)
    ensures Next(c, GO) == Config(c.s.(pc := Top), c.open)
  {
    IsFsmStep(c.s, GO);
  }

  lemma WakesUp(c: Config)
    requires c.s.app.ConnectedIdle? && c.s.connected
    ensures Enabled(c.s, Wake) && !Overtakes(c.s, c.open, Wake)
    ensures Next(c, Wake) == Config(c.s.(wakenet := false, app := Handshaking), c.open)
  {
  }

  lemma StartsAgain(c: Config)
    requires c.open && c.s.pc.Top? && c.s.running && !c.s.bargein && c.s.app.Handshaking? && c.s.connected
    ensures Doubles(c, GO)
  {
    assert SwitchEffect(c.s, GO.env) == StartTried(true);
  }

  /** An exit overtaken: the callback takes the new session for the old one and forgets it, ... */
  lemma ExitForgets(c: Config) returns (more: seq<Action>)
    requires Greeting(c) && c.s.cb.ExitDelay?
    ensures Allowed(c, more)
    ensures var d := After(c, more);
            && d.open && d.s.pc.Top? && d.s.running && !d.s.bargein
            && d.s.app.Listening? && !d.s.sessionActive && d.s.connected
  {
    hide Step, EffectOf, Enabled, Overtakes, After, Allowed, Next;
    var d := c;
    more := [];
    NoMore(c);
    Reconnect(d);
    More(c, more, Link(true));
    more, d := more + [Link(true)], Next(d, Link(true));
    ExitResumes(d);
    More(c, more, Resume);
    more, d := more + [Resume], Next(d, Resume);
    GreetingEnds(d);
    More(c, more, TTS_ENDED);
    more, d := more + [TTS_ENDED], Next(d, TTS_ENDED);
    StartsListening(d);
    More(c, more, GO);
    more, d := more + [GO], Next(d, GO);
  }

  lemma NoMore(c: Config)
    ensures Allowed(c, []) && After(c, []) == c
  {
  }

  /** ... and the next wake word starts another. */
  lemma ForgottenDoubles(c: Config, more: seq<Action>)
    requires Allowed(c, more)
    requires var d := After(c, more);
             && d.open && d.s.pc.Top? && d.s.running && !d.s.bargein
             && d.s.app.Listening? && !d.s.sessionActive && d.s.connected
    ensures CanDouble(c)
  {
    hide Step, EffectOf, Enabled, Overtakes, After, Allowed, Next, Doubles;
    var d, run := After(c, more), more;
    ForgetsSession(d);
    More(c, run, GO);
    run, d := run + [GO], Next(d, GO);
    LooksAgain(d);
    More(c, run, GO);
    run, d := run + [GO], Next(d, GO);
    WakesUp(d);
    More(c, run, Wake);
    run, d := run + [Wake], Next(d, Wake);
    StartsAgain(d);
    assert Allowed(c, run) && Doubles(After(c, run), GO);
  }

  lemma StillGreeting(c: Config)
    requires c.s.pc.HelloWait? && !c.s.helloDone && c.s.running && c.s.waits + 1 < MAX_WAITS
    ensures Enabled(c.s, GO) && !Overtakes(c.s, c.open, GO)
    ensures Next(c, GO) == Config(c.s.(waits := c.s.waits + 1), c.open)
  {
    IsFsmStep(c.s, GO);
    assert FsmStep(c.s, GO.env) == HelloPolled(c.s) && FsmEffect(c.s, GO.env) == NoEffect;
  }

  /** While the callback waits no greeting can end: the FSM task polls until it gives up. */
  lemma {:induction false} Polls(c: Config, k: nat) returns (more: seq<Action>)
    requires Greeting(c) && k < MAX_WAITS
    ensures Allowed(c, more) && After(c, more) == Config(c.s.(waits := k), c.open)
    decreases k
  {
    hide Step, EffectOf, Enabled, Overtakes, After, Allowed, Next;
    if k == 0 {
      more := [];
      NoMore(c);
    } else {
      more := Polls(c, k - 1);
      StillGreeting(After(c, more));
      More(c, more, GO);
      more := more + [GO];
    }
  }

  lemma ErrorResumes(c: Config)
    requires c.s.cb.ErrorDelay?
    ensures Enabled(c.s, Resume) && !Overtakes(c.s, c.open, Resume)
    ensures Next(c, Resume) == Config(c.s.(wakenet := true, app := ConnectedIdle, cb := Quiet), c.open)
  {
  }

  /** An error overtaken: the callback takes the device back to idle in the middle of the new session. */
  lemma ErrorDoubles(c: Config)
    requires Greeting(c) && c.s.cb.ErrorDelay?
    ensures CanDouble(c)
  {
    hide Step, EffectOf, Enabled, Overtakes, After, Allowed, Next, Doubles;
    var run := Polls(c, MAX_WAITS - 1);
    var d := After(c, run);
    StartsListening(d);
    More(c, run, GO);
    run, d := run + [GO], Next(d, GO);
    Reconnect(d);
    More(c, run, Link(true));
    run, d := run + [Link(true)], Next(d, Link(true));
    ErrorResumes(d);
    More(c, run, Resume);
    run, d := run + [Resume], Next(d, Resume);
    WakesUp(d);
    More(c, run, Wake);
    run, d := run + [Wake], Next(d, Wake);
    StartsAgain(d);
    assert Allowed(c, run) && Doubles(After(c, run), GO);
  }

  lemma GreetingDoubles(c: Config)
    requires Greeting(c) && !c.s.cb.Quiet?
    ensures CanDouble(c)
  {
    hide CanDouble, After, Allowed;
    if c.s.cb.ExitDelay? {
      var more := ExitForgets(c);
      ForgottenDoubles(c, more);
    } else {
      ErrorDoubles(c);
    }
  }

  lemma OvertakingStep(s: State, a: Action)
    requires Overtakes(s, true, a) && Alive(s)
    ensures var c := Next(Config(s, true), a);
            if s.running && !s.bargein then Greeting(c) && c.s.cb == s.cb else Defused(c.s)
  {
    IsFsmStep(s, a);
    assert FsmStep(s, a.env) == SessionStarted(s) && FsmEffect(s, a.env) == NoEffect;
  }

  /** What an overtaken callback can do, in any run: without any further overtaking the device can get to start a
      session while one is open exactly if, when it was overtaken, the device was running and no barge-in was
      pending. */
  lemma OvertakingMatters(wakenet: bool, actions: seq<Action>, a: Action)
    requires Possible(wakenet, actions) && Overtakes(Run(wakenet, actions), Open(wakenet, actions), a)
    ensures var s := Run(wakenet, actions);
            CanDouble(Next(Config(s, true), a)) <==> s.running && !s.bargein
  {
    hide Run, Open, CanDouble, Next, Greeting, Defused;
    var s := Run(wakenet, actions);
    RunAlive(wakenet, actions);
    OvertakingStep(s, a);
    if s.running && !s.bargein {
      GreetingDoubles(Next(Config(s, true), a));
    } else {
      CannotDouble(Next(Config(s, true), a));
    }
  }

  // ---- Runs that go wrong ----

  const PRESS := Fsm(Env(true, true, true, true))
  const SEND_FAILS := Fsm(Env(false, true, true, false))
  const EXIT_INTENT := Receive(Event(EVENT_TTS_ENDED, true))

  /** A run that is possible, with where it leads. */
  predicate Leads(actions: seq<Action>, s: State, open: bool) {
    Possible(false, actions) && Run(false, actions) == s && Open(false, actions) == open
  }

  /** One more step. */
  lemma Extend(actions: seq<Action>, s: State, open: bool, a: Action) returns (longer: seq<Action>)
    requires Leads(actions, s, open) && Enabled(s, a)
    ensures longer == actions + [a]
    ensures Leads(longer, Step(s, a), OpenAfter(open, EffectOf(s, a)))
    ensures Timely(false, longer) == (Timely(false, actions) && !Overtakes(s, open, a))
    ensures Undisturbed(false, longer) == (Undisturbed(false, actions) && !Disturbs(s, a))
  {
    hide Step, EffectOf;
    longer := actions + [a];
    assert longer[..|actions|] == actions;
  }

  /** Connected and idle. */
  lemma ReachIdle() returns (r: seq<Action>, s: State)
    ensures Leads(r, s, false) && Timely(false, r) && Undisturbed(false, r)
    ensures s == State(ConnectedIdle, Top, Quiet, 0, true, false, false, false, false, false, true, true, true)
  {
    hide Possible, Run, Open, Timely, Undisturbed;
    StartOfRun();
    r, s := [], Initial(false);
    r := Extend(r, s, false, GO);
    s := Step(s, GO);
    r := Extend(r, s, false, Link(true));
    s := Step(s, Link(true));
    r := Extend(r, s, false, GO);
    s := Step(s, GO);
  }

  lemma StartOfRun()
    ensures Leads([], Initial(false), false) && Timely(false, []) && Undisturbed(false, [])
  {
  }

  /** A callback that waits to end a session through the start of the next one. */
  lemma ReachOutlived() returns (r: seq<Action>, s: State)
    ensures Leads(r, s, true) && !Timely(false, r)
    ensures s == State(Handshaking, HelloWait, ExitDelay, 0, true, true, false, false, false, false, true, true, true)
  {
    hide Possible, Run, Open, Timely, Undisturbed;
    r, s := ReachIdle();
    r := Extend(r, s, false, TTS_ENDED);
    s := Step(s, TTS_ENDED);
    r := Extend(r, s, false, Wake);
    s := Step(s, Wake);
    r := Extend(r, s, false, EXIT_INTENT);
    s := Step(s, EXIT_INTENT);
    assert s == State(Handshaking, Top, ExitDelay, 0, true, false, true, false, false, false, true, true, true);
    r := Extend(r, s, false, GO);
    s := Step(s, GO);
    r := Extend(r, s, true, GO);
    s := Step(s, GO);
  }

  /** When it goes on, the device forgets the open session, goes back to idle at the end of the
      greeting, and listens for the wake word again. */
  lemma ReachForgotten() returns (r: seq<Action>, s: State)
    ensures Leads(r, s, true) && !Timely(false, r)
    ensures s == State(ConnectedIdle, PollDelay, Quiet, 1, true, false, true, true, false, false, true, true, true)
  {
    hide Possible, Run, Open, Timely, Undisturbed;
    r, s := ReachOutlived();
    r := Extend(r, s, true, Resume);
    s := Step(s, Resume);
    r := Extend(r, s, true, TTS_ENDED);
    s := Step(s, TTS_ENDED);
    r := Extend(r, s, true, GO);
    s := Step(s, GO);
    assert s == State(Listening, Top, Quiet, 1, true, false, true, true, false, true, false, true, true);
    r := Extend(r, s, true, GO);
    s := Step(s, GO);
  }

  /** Why NoDoubleStart needs the timing: StartSession is sent while a session is open. */
  lemma DoubleStartIfUntimely() returns (r: seq<Action>)
    ensures Possible(false, r + [GO]) && !Timely(false, r)
    ensures EffectOf(Run(false, r), GO) == StartTried(true) && Open(false, r)
  {
    hide Possible, Run, Open, Timely, Undisturbed;
    var s;
    r, s := ReachForgotten();
    r := Extend(r, s, true, Wake);
    s := Step(s, Wake);
    r := Extend(r, s, true, GO);
    s := Step(s, GO);
    var longer := Extend(r, s, true, GO);
  }

  /** An exit that deafens: the wake word during its wait, with the session not started before it ends, leaves
      the device idle with WakeNet off. */
  lemma DeafIfDisturbed() returns (r: seq<Action>)
    ensures Possible(false, r) && Timely(false, r) && !Undisturbed(false, r)
    ensures Run(false, r).app == ConnectedIdle && !Run(false, r).wakenet && !RightModes(Run(false, r))
  {
    hide Possible, Run, Open, Timely, Undisturbed;
    var s;
    r, s := ReachIdle();
    r := Extend(r, s, false, TTS_ENDED);
    s := Step(s, TTS_ENDED);
    r := Extend(r, s, false, EXIT_INTENT);
    s := Step(s, EXIT_INTENT);
    r := Extend(r, s, false, Wake);
    s := Step(s, Wake);
    r := Extend(r, s, false, Resume);
    s := Step(s, Resume);
  }

  /** A disturbance alone does no harm: the modes are right in every state of this run, the wake word included. */
  lemma DisturbedAndRight() returns (r: seq<Action>)
    ensures Possible(false, r) && !Undisturbed(false, r) && AlwaysRight(false, r)
  {
    hide Possible, Run, Open, Timely, Undisturbed, AlwaysRight, NeverDeafens;
    var s;
    r, s := ReachIdle();
    ReachIdleNeverDeafens(r);
    r := Extend(r, s, false, TTS_ENDED);
    NotResuming(r[..|r| - 1], TTS_ENDED);
    s := Step(s, TTS_ENDED);
    r := Extend(r, s, false, EXIT_INTENT);
    NotResuming(r[..|r| - 1], EXIT_INTENT);
    s := Step(s, EXIT_INTENT);
    r := Extend(r, s, false, Wake);
    NotResuming(r[..|r| - 1], Wake);
    RightExactly(false, r);
  }

  lemma NotResuming(actions: seq<Action>, a: Action)
    requires NeverDeafens(false, actions) && !a.Resume?
    ensures NeverDeafens(false, actions + [a])
  {
    hide Run;
    assert (actions + [a])[..|actions|] == actions;
  }

  lemma ReachIdleNeverDeafens(r: seq<Action>)
    requires Possible(false, r) && Undisturbed(false, r)
    ensures NeverDeafens(false, r)
  {
    UndisturbedNeverDeafens(false, r);
  }

  /** A session in which the user speaks. */
  lemma ReachListening() returns (r: seq<Action>, s: State)
    ensures Leads(r, s, true) && Timely(false, r) && Undisturbed(false, r)
    ensures s == State(Listening, Top, Quiet, 1, true, true, true, true, false, true, false, true, true)
  {
    hide Possible, Run, Open, Timely, Undisturbed;
    r, s := ReachIdle();
    r := Extend(r, s, false, Wake);
    s := Step(s, Wake);
    r := Extend(r, s, false, GO);
    s := Step(s, GO);
    r := Extend(r, s, true, GO);
    s := Step(s, GO);
    r := Extend(r, s, true, TTS_ENDED);
    s := Step(s, TTS_ENDED);
    r := Extend(r, s, true, GO);
    s := Step(s, GO);
  }

  /** CONNECTED_IDLE does not mean that the microphone stream is off: an end of speech may arrive
      while the FSM task waits to end the session, ... */
  lemma IdleAndStreaming() returns (r: seq<Action>)
    ensures Possible(false, r) && Timely(false, r) && Undisturbed(false, r)
    ensures Run(false, r).app == ConnectedIdle && Run(false, r).streaming
  {
    hide Possible, Run, Open, Timely, Undisturbed;
    var s;
    r, s := ReachListening();
    r := Extend(r, s, true, PRESS);
    s := Step(s, PRESS);
    r := Extend(r, s, false, TTS_ENDED);
    s := Step(s, TTS_ENDED);
    r := Extend(r, s, false, GO);
    s := Step(s, GO);
  }

  /** ... and StartSession may fail after a barge-in. */
  lemma IdleAndStreamingAfterBargeIn() returns (r: seq<Action>)
    ensures Possible(false, r) && Timely(false, r) && Undisturbed(false, r)
    ensures Run(false, r).app == ConnectedIdle && Run(false, r).streaming
  {
    hide Possible, Run, Open, Timely, Undisturbed;
    var s;
    r, s := ReachListening();
    var queryEnd := Receive(Event(EVENT_USER_QUERY_END, false));
    r := Extend(r, s, true, queryEnd);
    s := Step(s, queryEnd);
    r := Extend(r, s, true, Wake);
    s := Step(s, Wake);
    r := Extend(r, s, true, TTS_ENDED);
    s := Step(s, TTS_ENDED);
    r := Extend(r, s, true, GO);
    s := Step(s, GO);
    r := Extend(r, s, false, SEND_FAILS);
    s := Step(s, SEND_FAILS);
  }
}
