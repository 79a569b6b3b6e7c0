/** The device's globals and the code that changes them, in the order of the source. Every stretch
    between two waits is a method, proved against the step of the state machine. */
module Device {
  import opened Bytes
  import DoubaoProtocol
  import opened DeviceSession
  import opened Events
  import opened DeviceLimits

  /** The ghost accounts follow an effect: whether a session is open, and whether one was ever started while
      another was open. */
  ghost predicate Accounts(e: Effect, open: bool, doubled: bool, openAfter: bool, doubledAfter: bool) {
    openAfter == OpenAfter(open, e) && doubledAfter == (doubled || (e.StartTried? && open))
  }

  lemma ConnectingConnected(s: State, env: Env)
    requires s.connected
    ensures ConnectingCase(s, env) == Ready(s.(wakenet := false)).(pc := Top)
  {
  }

  lemma ConnectingAnew(s: State, env: Env)
    requires !s.connected
    ensures env.initOk ==> ConnectingCase(s, env) == s.(wakenet := false).(live := true, pc := ConnectWait)
    ensures !env.initOk ==> ConnectingCase(s, env) == Ready(Destroyed(s.(wakenet := false))).(pc := RetryDelay)
  {
  }

  lemma ConnectingAccounts(s: State, env: Env, open: bool, doubled: bool)
    requires s.app.Connecting?
    ensures Accounts(SwitchEffect(s, env), open, doubled, open && (s.connected || !s.live), doubled)
  {
  }

  class Device {
    var app: App
    var pc: Pc
    var cb: Callback
    var waits: nat
    var running: bool
    var sessionActive: bool
    var helloDone: bool
    var querying: bool
    var bargein: bool
    var streaming: bool
    var wakenet: bool
    var connected: bool
    var live: bool
    ghost var open: bool
    ghost var doubled: bool

    /** As app_main leaves it. */
    constructor (wakenet: bool)
      ensures View() == Initial(wakenet) && !open && !doubled
    {
      app, pc, cb, waits := Connecting, Top, Quiet, 0;
      running, sessionActive, helloDone, querying, bargein := true, false, false, false, false;
      streaming, this.wakenet, connected, live := false, wakenet, false, false;
      open, doubled := false, false;
    }

    function View(): State
      reads this
    {
      State(app, pc, cb, waits, running, sessionActive, helloDone, querying, bargein, streaming, wakenet,
            connected, live)
    }

    // doubao_ws_destroy
    method Destroy()
      modifies this`live, this`connected, this`open
      ensures View() == Destroyed(old(View())) && !open
    {
      connected := false;
      live := false;
      open := false;
    }

    // doubao_ws_start_session
    method StartSession(sendOk: bool) returns (ok: bool)
      modifies this`open, this`doubled
      ensures ok == sendOk && Accounts(StartTried(sendOk), old(open), old(doubled), open, doubled)
    {
      doubled := doubled || open;
      open := open || sendOk;
      ok := sendOk;
    }

    // doubao_ws_finish_session, and the server's word that the session is over
    method FinishSession()
      modifies this`open
      ensures !open
    {
      open := false;
    }

    // WEBSOCKET_EVENT_CONNECTED and WEBSOCKET_EVENT_DISCONNECTED
    method OnLink(up: bool)
      modifies this`connected
      ensures View() == Step(old(View()), Link(up))
    {
      connected := up;
    }

    // on_wake_word
    method OnWakeWord()
      modifies this
      ensures View() == WakeStep(old(View()))
      ensures Accounts(NoEffect, old(open), old(doubled), open, doubled)
    {
      if app.ConnectedIdle? {
        if !connected {
          return;
        }
        wakenet := false;
        app := Handshaking;
      } else if app.Speaking? {
        bargein := true;
      }
    }

    // case EVENT_TTS_ENDED, up to its wait
    method OnTtsEnded(exitIntent: bool)
      modifies this
      ensures View() == TtsEnded(old(View()), exitIntent)
      ensures Accounts(if old(helloDone) && exitIntent then Ended else NoEffect, old(open), old(doubled), open, doubled)
    {
      if !helloDone {
        helloDone := true;
      } else if exitIntent {
        streaming := false;
        wakenet := true;
        FinishSession();
        cb := ExitDelay;
      } else {
        querying := true;
        wakenet := false;
        streaming := true;
        app := Listening;
      }
    }

    // case EVENT_CLEAR_CACHE
    method OnClearCache()
      modifies this`querying, this`wakenet, this`streaming, this`app
      ensures View() == StartListening(old(View()))
      ensures app.Listening? && streaming && !wakenet && querying
    {
      querying := true;
      wakenet := false;
      streaming := true;
      app := Listening;
    }

    // case EVENT_USER_QUERY_END
    method OnUserQueryEnd()
      modifies this`querying, this`wakenet, this`streaming, this`app
      ensures View() == QueryEnded(old(View()))
      ensures app.Speaking? && !streaming && wakenet && !querying
    {
      querying := false;
      streaming := false;
      wakenet := true;
      app := Speaking;
    }

    // case EVENT_SESSION_FINISH_1 and case EVENT_SESSION_FINISH_2
    method OnSessionFinish()
      modifies this`sessionActive, this`wakenet, this`streaming, this`app, this`open
      ensures View() == SessionFinished(old(View())) && !open
    {
      FinishSession();
      sessionActive := false;
      streaming := false;
      wakenet := true;
      app := ConnectedIdle;
    }

    // the server error branch, up to its wait
    method OnServerError(code: nat)
      modifies this`sessionActive, this`streaming, this`cb, this`running, this`open
      ensures View() == ErrorReceived(old(View()), code)
      ensures open == (old(open) && !Recoverable(code))
    {
      if Recoverable(code) {
        streaming := false;
        sessionActive := false;
        FinishSession();
        cb := ErrorDelay;
      } else {
        running := false;
      }
    }

    // on_ws_receive, up to its waits
    method OnWsReceive(m: Message)
      requires Enabled(View(), Receive(m))
      modifies this
      ensures View() == ReceiveStep(old(View()), m)
      ensures Accounts(ReceiveEffect(old(View()), m), old(open), old(doubled), open, doubled)
    {
      hide StartListening, QueryEnded, TtsEnded, SessionFinished, ErrorReceived, Recoverable;
      if m.Event? {
        if m.code == EVENT_CLEAR_CACHE {
          OnClearCache();
        } else if m.code == EVENT_USER_QUERY_END {
          OnUserQueryEnd();
        } else if m.code == EVENT_TTS_ENDED {
          OnTtsEnded(m.exitIntent);
        } else if m.code == EVENT_SESSION_FINISH_1 || m.code == EVENT_SESSION_FINISH_2 {
          OnSessionFinish();
        }
      } else if m.ServerError? {
        OnServerError(m.errorCode);
      }
    }

    // on_ws_receive: full responses with an event, and error messages; nothing else reaches the session
    method OnMessage(messageType: byte, code: Option<int>, exitIntent: bool, errorCode: nat)
      requires Enabled(View(), Receive(OtherMessage))
      modifies this
      ensures messageType == 9 && code.Some? ==> View() == Step(old(View()), Receive(Event(code.value, exitIntent)))
      ensures messageType == 15 ==> View() == Step(old(View()), Receive(ServerError(errorCode)))
      ensures messageType != 15 && !(messageType == 9 && code.Some?) ==> View() == old(View())
    {
      hide ReceiveStep, FsmStep, WakeStep, ResumeStep, ReceiveEffect;
      if messageType == DoubaoProtocol.MSG_SERVER_FULL_RESPONSE {
        if code.Some? {
          OnWsReceive(Event(code.value, exitIntent));
        }
      } else if messageType == DoubaoProtocol.MSG_SERVER_ERROR {
        OnWsReceive(ServerError(errorCode));
      }
    }

    // on_ws_receive behind its waits
    method OnWsReceiveResumed()
      requires Enabled(View(), Resume)
      modifies this
      ensures View() == ResumeStep(old(View()))
      ensures Accounts(NoEffect, old(open), old(doubled), open, doubled)
    {
      if cb.ExitDelay? {
        sessionActive := false;
        app := ConnectedIdle;
      } else {
        wakenet := true;
        app := ConnectedIdle;
      }
      cb := Quiet;
    }

    // WakeNet on and set_app_state(APP_STATE_CONNECTED_IDLE), as most branches end
    method GoIdle(next: Pc)
      modifies this`wakenet, this`app, this`pc
      ensures View() == Ready(old(View())).(pc := next)
    {
      wakenet := true;
      app := ConnectedIdle;
      pc := next;
    }

    // case APP_STATE_CONNECTING without a connection: clean up and initialize
    method Initialize(env: Env)
      requires !connected
      modifies this`wakenet, this`app, this`pc, this`connected, this`live, this`open
      ensures env.initOk ==> View() == old(View()).(live := true, pc := ConnectWait)
      ensures !env.initOk ==> View() == Ready(Destroyed(old(View()))).(pc := RetryDelay)
      ensures open == (old(open) && !old(live))
    {
      if live {
        Destroy();
      }
      connected := false;
      if !env.initOk {
        live := false;
        GoIdle(RetryDelay);
        return;
      }
      live := true;
      pc := ConnectWait;
    }

    // case APP_STATE_CONNECTING, up to the blocking connect
    method CaseConnecting(env: Env)
      requires app.Connecting?
      modifies this
      ensures View() == ConnectingCase(old(View()), env)
      ensures doubled == old(doubled) && open == (old(open) && (old(connected) || !old(live)))
    {
      hide ConnectingCase, Ready, Destroyed;
      ghost var s := View();
      wakenet := false;
      assert View() == s.(wakenet := false);
      if connected {
        ConnectingConnected(s, env);
        GoIdle(Top);
      } else {
        ConnectingAnew(s, env);
        Initialize(env);
      }
    }

    // case APP_STATE_CONNECTING behind the blocking connect
    method CaseConnectReturned(env: Env)
      modifies this
      ensures View() == ConnectReturned(old(View()), env)
      ensures doubled == old(doubled) && open == (old(open) && env.connectOk && old(connected) && env.sendOk)
    {
      if !env.connectOk || !connected || !env.sendOk {
        Destroy();
        GoIdle(RetryDelay);
        return;
      }
      GoIdle(Top);
    }

    // case APP_STATE_CONNECTED_IDLE
    method CaseConnectedIdle(env: Env)
      requires app.ConnectedIdle?
      modifies this
      ensures View() == ConnectedIdleCase(old(View()), env)
      ensures Accounts(SwitchEffect(old(View()), env), old(open), old(doubled), open, doubled)
    {
      if !connected {
        Destroy();
        app := Connecting;
        pc := Top;
        return;
      }
      pc := PollDelay;
      if env.button {
        wakenet := false;
        app := Handshaking;
        pc := ButtonDebounce;
      }
    }

    // case APP_STATE_HANDSHAKING, up to the wait behind StartSession
    method CaseHandshaking(env: Env)
      requires app.Handshaking?
      modifies this
      ensures View() == HandshakingCase(old(View()), env)
      ensures Accounts(SwitchEffect(old(View()), env), old(open), old(doubled), open, doubled)
    {
      if !connected {
        Destroy();
        app := Connecting;
        pc := Top;
        return;
      }
      var ok := StartSession(env.sendOk);
      if !ok {
        GoIdle(Top);
        return;
      }
      pc := SessionDelay;
    }

    // case APP_STATE_HANDSHAKING behind the greeting
    method CaseHandshakeDone()
      modifies this
      ensures View() == HandshakeDone(old(View()))
      ensures Accounts(NoEffect, old(open), old(doubled), open, doubled)
    {
      wakenet := false;
      streaming := true;
      querying := true;
      app := Listening;
      pc := Top;
    }

    // case APP_STATE_HANDSHAKING behind the wait for StartSession: SayHello, then the loop is entered
    method CaseSessionStarted()
      modifies this
      ensures View() == SessionStarted(old(View()))
      ensures Accounts(NoEffect, old(open), old(doubled), open, doubled)
    {
      helloDone := false;
      sessionActive := true;
      waits := 0;
      if running {
        pc := HelloWait;
      } else {
        CaseHandshakeDone();
      }
    }

    // the loop that waits for the greeting, after one of its delays
    method CaseHelloPolled()
      modifies this
      ensures View() == HelloPolled(old(View()))
      ensures Accounts(NoEffect, old(open), old(doubled), open, doubled)
    {
      waits := waits + 1;
      if helloDone || waits >= MAX_WAITS || !running {
        CaseHandshakeDone();
      }
    }

    // the check of g_session_active and the poll delay
    method CaseEndOfTurn()
      modifies this
      ensures View() == EndOfTurn(old(View()))
      ensures Accounts(NoEffect, old(open), old(doubled), open, doubled)
    {
      if !sessionActive && !app.ConnectedIdle? {
        streaming := false;
        GoIdle(PollDelay);
        return;
      }
      pc := PollDelay;
    }

    // the switch of main_fsm_task
    method SwitchOnState(env: Env)
      modifies this
      ensures View() == Switch(old(View()), env)
      ensures Accounts(SwitchEffect(old(View()), env), old(open), old(doubled), open, doubled)
    {
      hide ConnectingCase, ConnectedIdleCase, HandshakingCase, EndOfTurn;
      if app.Idle? {
        app := Connecting;
        pc := IdleDelay;
      } else if app.Connecting? {
        ConnectingAccounts(View(), env, open, doubled);
        CaseConnecting(env);
      } else if app.ConnectedIdle? {
        CaseConnectedIdle(env);
      } else if app.Handshaking? {
        CaseHandshaking(env);
      } else if env.button {
        streaming := false;
        FinishSession();
        pc := EndDelay;
      } else {
        CaseEndOfTurn();
      }
    }

    // one iteration's head of main_fsm_task, up to the next wait
    method Iterate(env: Env)
      requires pc.Top?
      modifies this
      ensures View() == LoopHead(old(View()), env)
      ensures Accounts(FsmEffect(old(View()), env), old(open), old(doubled), open, doubled)
    {
      hide Switch;
      if !running {
        pc := Stopped;
      } else if bargein {
        bargein := false;
        FinishSession();
        pc := BargeDelay;
      } else {
        SwitchOnState(env);
      }
    }

    // main_fsm_task from one wait to the next
    method MainFsm(env: Env)
      requires Enabled(View(), Fsm(env))
      modifies this
      ensures View() == FsmStep(old(View()), env)
      ensures Accounts(FsmEffect(old(View()), env), old(open), old(doubled), open, doubled)
    {
      hide LoopHead, Switch, ConnectReturned, EndOfTurn, SessionStarted, HelloPolled;
      if pc.Top? {
        Iterate(env);
      } else if pc.BargeDelay? {
        sessionActive := false;
        app := Handshaking;
        SwitchOnState(env);
      } else if pc.ConnectWait? {
        CaseConnectReturned(env);
      } else if pc.RetryDelay? {
        app := Connecting;
        pc := Top;
      } else if pc.ButtonDebounce? {
        pc := PollDelay;
      } else if pc.SessionDelay? {
        CaseSessionStarted();
      } else if pc.HelloWait? {
        CaseHelloPolled();
      } else if pc.EndDelay? {
        sessionActive := false;
        GoIdle(EndDebounce);
      } else if pc.EndDebounce? {
        CaseEndOfTurn();
      } else {
        pc := Top;
      }
    }

    ghost predicate Valid()
      reads this
    {
      SessionInv(View(), open)
    }

    ghost predicate Modal()
      reads this
    {
      RightModes(View())
    }

    ghost predicate Silent()
      reads this
    {
      Still(View())
    }

    // one step of whichever task or callback takes it; each invariant has its own guard, and no weaker one would do
    method Take(a: Action)
      requires Enabled(View(), a)
      modifies this
      ensures View() == Step(old(View()), a)
      ensures Accounts(EffectOf(old(View()), a), old(open), old(doubled), open, doubled)
      ensures old(Valid()) ==> (Valid() <==> !Overtakes(old(View()), old(open), a))
      ensures old(Modal()) ==> (Modal() <==> !Deafens(old(View()), a))
      ensures old(Silent()) ==> (Silent() <==> !LeavesOn(old(View()), a))
    {
      hide FsmStep, FsmEffect, WakeStep, ReceiveStep, ReceiveEffect, ResumeStep, Overtakes, Deafens, LeavesOn,
           SessionInv, RightModes, Still, Enabled;
      StepKeeps(View(), open, a);
      if a.Fsm? {
        MainFsm(a.env);
      } else if a.Wake? {
        OnWakeWord();
      } else if a.Receive? {
        OnWsReceive(a.message);
      } else if a.Resume? {
        OnWsReceiveResumed();
      } else {
        OnLink(a.up);
      }
    }
  }

  lemma StepKeeps(s: State, open: bool, a: Action)
    requires Enabled(s, a)
    ensures SessionInv(s, open) ==>
              (SessionInv(Step(s, a), OpenAfter(open, EffectOf(s, a))) <==> !Overtakes(s, open, a))
    ensures RightModes(s) ==> (RightModes(Step(s, a)) <==> !Deafens(s, a))
    ensures Still(s) ==> (Still(Step(s, a)) <==> !LeavesOn(s, a))
  {
    hide Step, EffectOf, SessionInv, RightModes, Still, Enabled, Overtakes, Deafens, LeavesOn;
    if SessionInv(s, open) {
      OvertakingBreaks(s, open, a);
    }
    if RightModes(s) {
      RightModesStep(s, a);
    }
    if Still(s) {
      StillStep(s, a);
    }
  }

  /** A whole run of the device: when nothing overtakes a waiting callback, StartSession is never sent while a session
      is open; when no exit ends with WakeNet off, the modes are right at the end; and when nothing leaves the stream
      on, it is off in CONNECTED_IDLE. */
  method AnyRun(wakenet: bool, actions: seq<Action>) returns (d: Device)
    requires Possible(wakenet, actions)
    ensures d.View() == Run(wakenet, actions) && d.open == Open(wakenet, actions)
    ensures Timely(wakenet, actions) ==> !d.doubled && d.Valid()
    ensures NeverDeafens(wakenet, actions) ==> d.Modal()
    ensures NeverLeavesOn(wakenet, actions) ==> d.Silent()
  {
    hide Step, EffectOf, OpenAfter, SessionInv, RightModes, Still, Enabled, Overtakes, Deafens, LeavesOn;
    d := new Device(wakenet);
    StartKeeps(wakenet);
    var i := 0;
    assert actions[..0] == [];
    while i < |actions|
      invariant i <= |actions| && fresh(d) && Possible(wakenet, actions[..i])
      invariant d.View() == Run(wakenet, actions[..i]) && d.open == Open(wakenet, actions[..i])
      invariant Timely(wakenet, actions[..i]) ==> !d.doubled && d.Valid()
      invariant NeverDeafens(wakenet, actions[..i]) ==> d.Modal()
      invariant NeverLeavesOn(wakenet, actions[..i]) ==> d.Silent()
    {
      assert actions[..i + 1][..i] == actions[..i];
      PossiblePrefix(wakenet, actions, i + 1);
      PossibleStep(wakenet, actions[..i], actions[i], actions[..i + 1]);
      if Timely(wakenet, actions[..i]) {
        NoDoubleStart(wakenet, actions[..i], actions[i]);
      }
      d.Take(actions[i]);
      i := i + 1;
    }
    assert actions[..i] == actions;
  }

  lemma StartKeeps(wakenet: bool)
    ensures SessionInv(Initial(wakenet), false) && RightModes(Initial(wakenet)) && Still(Initial(wakenet))
  {
  }

  lemma PossibleStep(wakenet: bool, before: seq<Action>, a: Action, actions: seq<Action>)
    requires Possible(wakenet, actions)
    requires actions != [] && actions[..|actions| - 1] == before && actions[|actions| - 1] == a
    ensures Enabled(Run(wakenet, before), a)
  {
    hide Enabled, Run;
  }

  lemma {:induction false} PossiblePrefix(wakenet: bool, actions: seq<Action>, k: nat)
    requires Possible(wakenet, actions) && k <= |actions|
    ensures Possible(wakenet, actions[..k])
  {
    hide Step, Enabled;
    if k < |actions| {
      PossiblePrefix(wakenet, actions[..|actions| - 1], k);
      assert actions[..|actions| - 1][..k] == actions[..k];
    } else {
      assert actions[..k] == actions;
    }
  }
}
