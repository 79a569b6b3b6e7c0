/** The device's session state machine: the FSM task, the WebSocket callback and the wake-word
    callback over shared flags. A step runs from one point where a task can be preempted for long
    (a vTaskDelay, the blocking connect, waiting for an event) to the next. */
module DeviceSession {
  import opened Events

  datatype App = Idle | Connecting | ConnectedIdle | Handshaking | Listening | Speaking

  /** Where the FSM task stands. */
  datatype Pc =
    | Top              // the head of its loop
    | BargeDelay       // after FinishSession of a barge-in
    | IdleDelay        // after leaving the unexpected IDLE state
    | ConnectWait      // in doubao_ws_connect
    | RetryDelay       // three seconds after a failed connection
    | ButtonDebounce   // after a button press that starts a session
    | PollDelay        // the 50 ms at the end of an iteration
    | SessionDelay     // after a successful StartSession
    | HelloWait        // waiting for the end of the greeting
    | EndDelay         // after a button press that ends a session
    | EndDebounce      // the debounce behind it
    | Stopped

  /** The WebSocket callback itself waits twice: after the FinishSession of an exit intent and after
      the FinishSession of a recoverable error. */
  datatype Callback = Quiet | ExitDelay | ErrorDelay

  datatype State = State(
    app: App, pc: Pc, cb: Callback, waits: nat,
    running: bool, sessionActive: bool, helloDone: bool, querying: bool, bargein: bool,
    streaming: bool, wakenet: bool,
    connected: bool, live: bool)  // live: the WebSocket client exists

  datatype Message =
    | Event(code: int, exitIntent: bool)
    | ServerError(errorCode: nat)
    | OtherMessage

  /** What the environment decides: the button, and whether calls succeed. */
  datatype Env = Env(button: bool, initOk: bool, connectOk: bool, sendOk: bool)

  datatype Action =
    | Fsm(env: Env)
    | Wake
    | Receive(message: Message)
    | Resume          // the waiting callback goes on
    | Link(up: bool)  // the client library connects or disconnects

  const IDLE_TIMEOUT_ERROR := 55000001
  const SESSION_ERROR := 52000042
  const MAX_WAITS := 100

  predicate Recoverable(code: nat) {
    code == IDLE_TIMEOUT_ERROR || code == SESSION_ERROR
  }

  function Initial(wakenet: bool): State {
    State(Connecting, Top, Quiet, 0, true, false, false, false, false, false, wakenet, false, false)
  }

  predicate Enabled(s: State, a: Action) {
    if a.Fsm? then !s.pc.Stopped?
    else if a.Receive? then s.live && s.cb.Quiet?
    else if a.Resume? then !s.cb.Quiet?
    else a.Link? ==> s.live
  }

  function Destroyed(s: State): State {
    s.(live := false, connected := false)
  }

  /** Back to CONNECTED_IDLE with WakeNet on. */
  function Ready(s: State): State {
    s.(wakenet := true, app := ConnectedIdle)
  }

  /** The check of g_session_active at the end of an iteration in LISTENING or SPEAKING. */
  function EndOfTurn(s: State): State {
    (if !s.sessionActive && !s.app.ConnectedIdle? then Ready(s).(streaming := false) else s).(pc := PollDelay)
  }

  function HandshakeDone(s: State): State {
    s.(wakenet := false, streaming := true, querying := true, app := Listening, pc := Top)
  }

  function ConnectingCase(s: State, env: Env): State {
    if s.connected then Ready(s).(pc := Top)
    else if !env.initOk then Ready(Destroyed(s)).(pc := RetryDelay)
    else s.(wakenet := false, connected := false, live := true, pc := ConnectWait)
  }

  function ConnectedIdleCase(s: State, env: Env): State {
    if !s.connected then Destroyed(s).(app := Connecting, pc := Top)
    else if env.button then s.(wakenet := false, app := Handshaking, pc := ButtonDebounce)
    else s.(pc := PollDelay)
  }

  function HandshakingCase(s: State, env: Env): State {
    if !s.connected then Destroyed(s).(app := Connecting, pc := Top)
    else if env.sendOk then s.(pc := SessionDelay)
    else Ready(s).(pc := Top)
  }

  function InSessionCase(s: State, env: Env): State {
    if env.button then s.(streaming := false, pc := EndDelay) else EndOfTurn(s)
  }

  /** The switch on the application state. */
  function Switch(s: State, env: Env): State {
    if s.app.Idle? then s.(app := Connecting, pc := IdleDelay)
    else if s.app.Connecting? then ConnectingCase(s, env)
    else if s.app.ConnectedIdle? then ConnectedIdleCase(s, env)
    else if s.app.Handshaking? then HandshakingCase(s, env)
    else InSessionCase(s, env)
  }

  function LoopHead(s: State, env: Env): State {
    if !s.running then s.(pc := Stopped)
    else if s.bargein then s.(bargein := false, pc := BargeDelay)
    else Switch(s, env)
  }

  function BargedIn(s: State): State {
    s.(sessionActive := false, app := Handshaking)
  }

  function ConnectReturned(s: State, env: Env): State {
    if env.connectOk && s.connected && env.sendOk then Ready(s).(pc := Top)
    else Ready(Destroyed(s)).(pc := RetryDelay)
  }

  function SessionStarted(s: State): State {
    var t := s.(helloDone := false, sessionActive := true, waits := 0);
    if s.running then t.(pc := HelloWait) else HandshakeDone(t)
  }

  function HelloPolled(s: State): State {
    var t := s.(waits := s.waits + 1);
    if !s.helloDone && s.waits + 1 < MAX_WAITS && s.running then t else HandshakeDone(t)
  }

  function SessionEnded(s: State): State {
    Ready(s.(sessionActive := false)).(pc := EndDebounce)
  }

  function FsmStep(s: State, env: Env): State {
    if s.pc.Top? then LoopHead(s, env)
    else if s.pc.BargeDelay? then Switch(BargedIn(s), env)
    else if s.pc.ConnectWait? then ConnectReturned(s, env)
    else if s.pc.RetryDelay? then s.(app := Connecting, pc := Top)
    else if s.pc.ButtonDebounce? then s.(pc := PollDelay)
    else if s.pc.SessionDelay? then SessionStarted(s)
    else if s.pc.HelloWait? then HelloPolled(s)
    else if s.pc.EndDelay? then SessionEnded(s)
    else if s.pc.EndDebounce? then EndOfTurn(s)
    else if s.pc.Stopped? then s
    else s.(pc := Top)
  }

  function WakeStep(s: State): State {
    if s.app.ConnectedIdle? then (if s.connected then s.(wakenet := false, app := Handshaking) else s)
    else if s.app.Speaking? then s.(bargein := true)
    else s
  }

  function StartListening(s: State): State {
    s.(querying := true, wakenet := false, streaming := true, app := Listening)
  }

  function QueryEnded(s: State): State {
    s.(querying := false, streaming := false, wakenet := true, app := Speaking)
  }

  function TtsEnded(s: State, exitIntent: bool): State {
    if !s.helloDone then s.(helloDone := true)
    else if exitIntent then s.(streaming := false, wakenet := true, cb := ExitDelay)
    else StartListening(s)
  }

  function SessionFinished(s: State): State {
    Ready(s.(sessionActive := false, streaming := false))
  }

  function ErrorReceived(s: State, code: nat): State {
    if Recoverable(code) then s.(streaming := false, sessionActive := false, cb := ErrorDelay)
    else s.(running := false)
  }

  function ReceiveStep(s: State, m: Message): State {
    if m.Event? then
      if m.code == EVENT_CLEAR_CACHE then StartListening(s)
      else if m.code == EVENT_USER_QUERY_END then QueryEnded(s)
      else if m.code == EVENT_TTS_ENDED then TtsEnded(s, m.exitIntent)
      else if m.code == EVENT_SESSION_FINISH_1 || m.code == EVENT_SESSION_FINISH_2 then SessionFinished(s)
      else s
    else if m.ServerError? then ErrorReceived(s, m.errorCode)
    else s
  }

  function ResumeStep(s: State): State {
    if s.cb.ExitDelay? then s.(sessionActive := false, app := ConnectedIdle, cb := Quiet)
    else if s.cb.ErrorDelay? then Ready(s).(cb := Quiet)
    else s
  }

  function Step(s: State, a: Action): State {
    if a.Fsm? then FsmStep(s, a.env)
    else if a.Wake? then WakeStep(s)
    else if a.Receive? then ReceiveStep(s, a.message)
    else if a.Resume? then ResumeStep(s)
    else s.(connected := a.up)
  }

  // ---- What the server sees: sessions started and ended ----

  datatype Effect = NoEffect | StartTried(ok: bool) | Ended

  /** The call of doubao_ws_start_session, or an end of the session: FinishSession sent or tried, a
      session-finished event, a recoverable error, or the client destroyed. */
  function FsmEffect(s: State, env: Env): Effect {
    if s.pc.Top? then
      if s.running && s.bargein then Ended else if s.running then SwitchEffect(s, env) else NoEffect
    else if s.pc.BargeDelay? then SwitchEffect(BargedIn(s), env)
    else if s.pc.ConnectWait? then if env.connectOk && s.connected && env.sendOk then NoEffect else Ended
    else NoEffect
  }

  function EffectOf(s: State, a: Action): Effect {
    if a.Fsm? then FsmEffect(s, a.env)
    else if a.Receive? then ReceiveEffect(s, a.message)
    else NoEffect
  }

  function ReceiveEffect(s: State, m: Message): Effect {
    if m.Event? then
      if m.code == EVENT_SESSION_FINISH_1 || m.code == EVENT_SESSION_FINISH_2 then Ended
      else if m.code == EVENT_TTS_ENDED && s.helloDone && m.exitIntent then Ended
      else NoEffect
    else if m.ServerError? && Recoverable(m.errorCode) then Ended
    else NoEffect
  }

  function SwitchEffect(s: State, env: Env): Effect {
    if s.app.Idle? then NoEffect
    else if s.app.Connecting? then if !s.connected && s.live then Ended else NoEffect
    else if s.app.ConnectedIdle? then if s.connected then NoEffect else Ended
    else if s.app.Handshaking? then if s.connected then StartTried(env.sendOk) else Ended
    else if env.button then Ended
    else NoEffect
  }

  predicate Started(e: Effect) {
    e.StartTried? && e.ok
  }

  /** Whether a session is open after an effect. */
  function OpenAfter(open: bool, e: Effect): bool {
    !e.Ended? && (open || Started(e))
  }

  /** A run: `actions` taken one after the other from the initial state. */
  function Run(wakenet: bool, actions: seq<Action>): State {
    if actions == [] then Initial(wakenet)
    else Step(Run(wakenet, actions[..|actions| - 1]), actions[|actions| - 1])
  }

  /** Whether a session was started in the run and nothing has ended it since. */
  function Open(wakenet: bool, actions: seq<Action>): bool {
    if actions == [] then false
    else
      var before := actions[..|actions| - 1];
      OpenAfter(Open(wakenet, before), EffectOf(Run(wakenet, before), actions[|actions| - 1]))
  }

  /** Every step is one the system can take. */
  predicate Possible(wakenet: bool, actions: seq<Action>) {
    actions == [] ||
    var before := actions[..|actions| - 1];
    Possible(wakenet, before) && Enabled(Run(wakenet, before), actions[|actions| - 1])
  }

  /** The FSM task goes on after StartSession before a callback that still waits. */
  predicate Overtakes(s: State, open: bool, a: Action) {
    a.Fsm? && s.pc.SessionDelay? && open && !s.cb.Quiet?
  }

  /** The timing the delays of 300 and 500 ms in the callback and 500 ms in the FSM task are for: a
      callback that already waits when StartSession is sent goes on before the FSM task does. */
  predicate Timely(wakenet: bool, actions: seq<Action>) {
    actions == [] ||
    var before, a := actions[..|actions| - 1], actions[|actions| - 1];
    Timely(wakenet, before) && !Overtakes(Run(wakenet, before), Open(wakenet, before), a)
  }

  /** The switch turns WakeNet off: to connect, or for a session the button starts. */
  predicate SwitchSilences(s: State, env: Env) {
    (s.app.Connecting? && !s.connected && env.initOk) || (s.app.ConnectedIdle? && s.connected && env.button)
  }

  /** So does the FSM task at the end of the greeting. */
  predicate FsmSilences(s: State, env: Env) {
    || (s.pc.Top? && s.running && !s.bargein && SwitchSilences(s, env))
    || (s.pc.SessionDelay? && !s.running)
    || (s.pc.HelloWait? && (s.helloDone || s.waits + 1 >= MAX_WAITS || !s.running))
  }

  /** A step that turns WakeNet off while the callback waits to finish an exit. */
  predicate Disturbs(s: State, a: Action) {
    s.cb.ExitDelay? && ((a.Fsm? && FsmSilences(s, a.env)) || (a.Wake? && s.app.ConnectedIdle? && s.connected))
  }

  /** Nothing turns WakeNet off while the callback waits to finish an exit. */
  predicate Undisturbed(wakenet: bool, actions: seq<Action>) {
    actions == [] ||
    var before, a := actions[..|actions| - 1], actions[|actions| - 1];
    Undisturbed(wakenet, before) && !Disturbs(Run(wakenet, before), a)
  }

  // ---- Sessions ----

  /** What links the open session, g_session_active and the application state, program point by program point. */
  predicate SessionInv(s: State, open: bool) {
    && (open ==> s.pc.Top? || s.pc.PollDelay? || s.pc.SessionDelay? || s.pc.HelloWait? || s.pc.Stopped?)
    && (open && !s.pc.SessionDelay? && !s.pc.HelloWait? ==> s.app.Listening? || s.app.Speaking?)
    && (open && !s.pc.SessionDelay? ==> s.sessionActive)
    && (open && !s.cb.Quiet? ==> s.pc.SessionDelay?)
  }

  lemma ConnectingKeeps(s: State, open: bool, env: Env)
    requires SessionInv(s, open) && s.app.Connecting? && (s.pc.Top? || s.pc.BargeDelay?)
    ensures var e := SwitchEffect(s, env);
            (e.StartTried? ==> !open) &&
            SessionInv(ConnectingCase(s, env), OpenAfter(open, e))
  {
    if s.connected {
    } else if env.initOk {
    }
  }

  lemma ConnectedIdleKeeps(s: State, open: bool, env: Env)
    requires SessionInv(s, open) && s.app.ConnectedIdle? && (s.pc.Top? || s.pc.BargeDelay?)
    ensures var e := SwitchEffect(s, env);
            (e.StartTried? ==> !open) &&
            SessionInv(ConnectedIdleCase(s, env), OpenAfter(open, e))
  {
    if s.connected {
      if env.button {
      }
    }
  }

  lemma HandshakingKeeps(s: State, open: bool, env: Env)
    requires SessionInv(s, open) && s.app.Handshaking? && (s.pc.Top? || s.pc.BargeDelay?)
    ensures var e := SwitchEffect(s, env);
            (e.StartTried? ==> !open) &&
            SessionInv(HandshakingCase(s, env), OpenAfter(open, e))
  {
    if s.connected {
      if env.sendOk {
      }
    }
  }

  lemma EndOfTurnKeeps(s: State, open: bool)
    requires SessionInv(s, open) && !s.pc.SessionDelay? && !s.pc.HelloWait?
    ensures SessionInv(EndOfTurn(s), open)
  {
    if !s.sessionActive && !s.app.ConnectedIdle? {
    }
  }

  lemma SwitchKeeps(s: State, open: bool, env: Env)
    requires SessionInv(s, open) && (s.pc.Top? || s.pc.BargeDelay?)
    ensures var e := SwitchEffect(s, env);
            (e.StartTried? ==> !open) &&
            SessionInv(Switch(s, env), OpenAfter(open, e))
  {
    hide ConnectingCase, ConnectedIdleCase, HandshakingCase, EndOfTurn;
    if s.app.Idle? {
    } else if s.app.Connecting? {
      ConnectingKeeps(s, open, env);
    } else if s.app.ConnectedIdle? {
      ConnectedIdleKeeps(s, open, env);
    } else if s.app.Handshaking? {
      HandshakingKeeps(s, open, env);
    } else if !env.button {
      EndOfTurnKeeps(s, open);
    }
  }

  lemma HandshakeKeeps(s: State, open: bool)
    requires SessionInv(s, open)
    ensures s.pc.SessionDelay? && !(open && !s.cb.Quiet?) ==> SessionInv(SessionStarted(s), open)
    ensures s.pc.HelloWait? ==> SessionInv(HelloPolled(s), open)
  {
    if s.running {
      if !s.helloDone && s.waits + 1 < MAX_WAITS {
      }
    }
  }

  lemma ConnectReturnedKeeps(s: State, env: Env)
    ensures SessionInv(ConnectReturned(s, env), false)
  {
    if env.connectOk && s.connected && env.sendOk {
    }
  }

  lemma FsmKeeps(s: State, open: bool, env: Env)
    requires SessionInv(s, open) && !(s.pc.SessionDelay? && open && !s.cb.Quiet?)
    ensures var e := FsmEffect(s, env);
            (e.StartTried? ==> !open) &&
            SessionInv(FsmStep(s, env), OpenAfter(open, e))
  {
    hide Switch, SwitchEffect, ConnectReturned, SessionStarted, HelloPolled, EndOfTurn;
    if s.pc.Top? {
      if s.running && !s.bargein {
        SwitchKeeps(s, open, env);
      }
    } else if s.pc.BargeDelay? {
      SwitchKeeps(BargedIn(s), open, env);
    } else if s.pc.ConnectWait? {
      ConnectReturnedKeeps(s, env);
    } else if s.pc.SessionDelay? || s.pc.HelloWait? {
      HandshakeKeeps(s, open);
    } else if s.pc.EndDebounce? {
      EndOfTurnKeeps(s, open);
    }
  }

  lemma ListeningKeeps(s: State, open: bool)
    requires SessionInv(s, open)
    ensures SessionInv(StartListening(s), open) && SessionInv(QueryEnded(s), open)
  {
  }

  lemma TtsEndedKeeps(s: State, open: bool, exitIntent: bool)
    requires SessionInv(s, open)
    ensures SessionInv(TtsEnded(s, exitIntent), open && !(s.helloDone && exitIntent))
  {
    hide StartListening, QueryEnded;
    ListeningKeeps(s, open);
  }

  lemma SessionFinishedKeeps(s: State)
    ensures SessionInv(SessionFinished(s), false)
  {
  }

  lemma ErrorKeeps(s: State, open: bool, code: nat)
    requires SessionInv(s, open)
    ensures SessionInv(ErrorReceived(s, code), open && !Recoverable(code))
  {
  }

  lemma ReceiveKeeps(s: State, open: bool, m: Message)
    requires SessionInv(s, open)
    ensures !ReceiveEffect(s, m).StartTried?
    ensures SessionInv(ReceiveStep(s, m), OpenAfter(open, ReceiveEffect(s, m)))
  {
    hide StartListening, QueryEnded, TtsEnded, SessionFinished, ErrorReceived, Recoverable, SessionInv;
    ListeningKeeps(s, open);
    SessionFinishedKeeps(s);
    if m.Event? {
      TtsEndedKeeps(s, open, m.exitIntent);
    } else if m.ServerError? {
      ErrorKeeps(s, open, m.errorCode);
    }
  }

  lemma WakeKeeps(s: State, open: bool)
    requires SessionInv(s, open)
    ensures SessionInv(WakeStep(s), open)
  {
    if s.app.ConnectedIdle? {
      if s.connected {
      }
    } else if s.app.Speaking? {
    }
  }

  lemma ResumeKeeps(s: State, open: bool)
    requires SessionInv(s, open)
    ensures SessionInv(ResumeStep(s), open)
  {
    if s.cb.ExitDelay? {
    } else if s.cb.ErrorDelay? {
    }
  }

  lemma SessionStep(s: State, open: bool, a: Action)
    requires SessionInv(s, open) && Enabled(s, a)
    requires !Overtakes(s, open, a)
    ensures EffectOf(s, a).StartTried? ==> !open
    ensures SessionInv(Step(s, a), OpenAfter(open, EffectOf(s, a)))
  {
    hide FsmStep, FsmEffect, WakeStep, ReceiveStep, ReceiveEffect, ResumeStep;
    if a.Fsm? {
      FsmKeeps(s, open, a.env);
    } else if a.Receive? {
      ReceiveKeeps(s, open, a.message);
    } else if a.Wake? {
      WakeKeeps(s, open);
    } else if a.Resume? {
      ResumeKeeps(s, open);
    }
  }

  /** The timing is exactly what the invariant needs of a step. */
  lemma OvertakingBreaks(s: State, open: bool, a: Action)
    requires SessionInv(s, open) && Enabled(s, a)
    ensures SessionInv(Step(s, a), OpenAfter(open, EffectOf(s, a))) <==> !Overtakes(s, open, a)
  {
    if Overtakes(s, open, a) {
      assert Step(s, a) == SessionStarted(s) && EffectOf(s, a).NoEffect?;
    } else {
      SessionStep(s, open, a);
    }
  }

  lemma {:induction false} SessionInvariant(wakenet: bool, actions: seq<Action>)
    requires Possible(wakenet, actions) && Timely(wakenet, actions)
    ensures SessionInv(Run(wakenet, actions), Open(wakenet, actions))
  {
    if actions != [] {
      var before := actions[..|actions| - 1];
      SessionInvariant(wakenet, before);
      SessionStep(Run(wakenet, before), Open(wakenet, before), actions[|actions| - 1]);
    }
  }

  /** In every run StartSession is called only when no session is open. */
  lemma NoDoubleStart(wakenet: bool, actions: seq<Action>, a: Action)
    requires Possible(wakenet, actions) && Timely(wakenet, actions)
    ensures var s := Run(wakenet, actions);
            Enabled(s, a) && EffectOf(s, a).StartTried? ==> !Open(wakenet, actions)
  {
    hide Step, SessionInv, EffectOf, Enabled, Overtakes;
    var s, open := Run(wakenet, actions), Open(wakenet, actions);
    SessionInvariant(wakenet, actions);
    NothingOvertaken(s, open, a);
    if Enabled(s, a) && EffectOf(s, a).StartTried? {
      SessionStep(s, open, a);
    }
  }

  lemma NothingOvertaken(s: State, open: bool, a: Action)
    ensures EffectOf(s, a).StartTried? ==> !Overtakes(s, open, a)
  {
    hide SwitchEffect;
  }

  // ---- Modes ----

  /** What each application state says about the microphone stream, WakeNet and the query flag. The
      exceptions are the waits during which an end of the session is already under way. */
  predicate RightModes(s: State) {
    && (s.app.Listening? ==> s.querying && (s.cb.ExitDelay? || !s.wakenet)
                             && (s.streaming || s.pc.EndDelay? || !s.cb.Quiet?))
    && (s.app.Speaking? ==> !s.streaming && s.wakenet && !s.querying)
    && (s.app.ConnectedIdle? ==> s.wakenet)
  }

  /** And WakeNet is on already while the callback waits to finish an exit. */
  predicate Modes(s: State) {
    RightModes(s) && (s.cb.ExitDelay? ==> s.wakenet)
  }

  /** The callback finishes an exit after something has turned WakeNet off again. */
  predicate Deafens(s: State, a: Action) {
    a.Resume? && s.cb.ExitDelay? && !s.wakenet
  }

  lemma ConnectingModes(s: State, env: Env)
    requires RightModes(s) && s.app.Connecting?
    ensures RightModes(ConnectingCase(s, env))
  {
    if s.connected {
    } else if env.initOk {
    }
  }

  lemma ConnectedIdleModes(s: State, env: Env)
    requires RightModes(s) && s.app.ConnectedIdle?
    ensures RightModes(ConnectedIdleCase(s, env))
  {
    if s.connected {
      if env.button {
      }
    }
  }

  lemma HandshakingModes(s: State, env: Env)
    requires RightModes(s) && s.app.Handshaking?
    ensures RightModes(HandshakingCase(s, env))
  {
    if s.connected {
      if env.sendOk {
      }
    }
  }

  lemma EndOfTurnModes(s: State)
    requires RightModes(s) && !s.pc.EndDelay?
    ensures RightModes(EndOfTurn(s))
  {
    if !s.sessionActive && !s.app.ConnectedIdle? {
    }
  }

  lemma SwitchModes(s: State, env: Env)
    requires RightModes(s) && !s.pc.EndDelay?
    ensures RightModes(Switch(s, env))
  {
    hide ConnectingCase, ConnectedIdleCase, HandshakingCase, EndOfTurn;
    if s.app.Idle? {
    } else if s.app.Connecting? {
      ConnectingModes(s, env);
    } else if s.app.ConnectedIdle? {
      ConnectedIdleModes(s, env);
    } else if s.app.Handshaking? {
      HandshakingModes(s, env);
    } else if !env.button {
      EndOfTurnModes(s);
    }
  }

  lemma SessionStartedModes(s: State)
    requires RightModes(s) && !s.pc.EndDelay?
    ensures RightModes(SessionStarted(s))
  {
    if s.running {
    }
  }

  lemma HelloPolledModes(s: State)
    requires RightModes(s) && !s.pc.EndDelay?
    ensures RightModes(HelloPolled(s))
  {
    if !s.helloDone && s.waits + 1 < MAX_WAITS && s.running {
    }
  }

  lemma ConnectReturnedModes(s: State, env: Env)
    requires RightModes(s)
    ensures RightModes(ConnectReturned(s, env)) && RightModes(SessionEnded(s))
  {
    if env.connectOk && s.connected && env.sendOk {
    }
  }

  lemma LoopHeadModes(s: State, env: Env)
    requires RightModes(s) && s.pc.Top?
    ensures RightModes(LoopHead(s, env))
  {
    hide Switch;
    if s.running {
      if !s.bargein {
        SwitchModes(s, env);
      }
    }
  }

  lemma BargedInModes(s: State)
    requires RightModes(s) && !s.pc.EndDelay?
    ensures RightModes(BargedIn(s)) && !BargedIn(s).pc.EndDelay? && BargedIn(s).cb == s.cb
  {
  }

  lemma MovingOnModes(s: State)
    requires RightModes(s) && !s.pc.EndDelay?
    ensures RightModes(s.(pc := Top)) && RightModes(s.(pc := PollDelay)) && RightModes(s.(app := Connecting, pc := Top))
  {
  }

  lemma FsmModes(s: State, env: Env)
    requires RightModes(s)
    ensures RightModes(FsmStep(s, env))
  {
    hide LoopHead, Switch, ConnectReturned, SessionStarted, HelloPolled, EndOfTurn, SessionEnded, BargedIn, RightModes;
    if s.pc.Top? {
      LoopHeadModes(s, env);
    } else if s.pc.BargeDelay? {
      BargedInModes(s);
      SwitchModes(BargedIn(s), env);
    } else if s.pc.ConnectWait? || s.pc.EndDelay? {
      ConnectReturnedModes(s, env);
    } else if s.pc.SessionDelay? {
      SessionStartedModes(s);
    } else if s.pc.HelloWait? {
      HelloPolledModes(s);
    } else if s.pc.EndDebounce? {
      EndOfTurnModes(s);
    } else {
      MovingOnModes(s);
    }
  }

  lemma TtsEndedModes(s: State, exitIntent: bool)
    requires RightModes(s) && s.cb.Quiet?
    ensures RightModes(TtsEnded(s, exitIntent))
  {
    if !s.helloDone {
    } else if exitIntent {
    }
  }

  lemma ReceiveModes(s: State, m: Message)
    requires RightModes(s) && s.cb.Quiet?
    ensures RightModes(ReceiveStep(s, m))
  {
    hide TtsEnded, ErrorReceived;
    if m.Event? {
      TtsEndedModes(s, m.exitIntent);
      if m.code == EVENT_CLEAR_CACHE {
      } else if m.code == EVENT_USER_QUERY_END {
      } else if m.code == EVENT_TTS_ENDED {
      } else if m.code == EVENT_SESSION_FINISH_1 || m.code == EVENT_SESSION_FINISH_2 {
      }
    } else if m.ServerError? {
      ErrorModes(s, m.errorCode);
    }
  }

  lemma ErrorModes(s: State, code: nat)
    requires RightModes(s) && s.cb.Quiet?
    ensures RightModes(ErrorReceived(s, code))
  {
    if Recoverable(code) {
    }
  }

  lemma WakeModes(s: State)
    requires RightModes(s)
    ensures RightModes(WakeStep(s))
  {
    if s.app.ConnectedIdle? {
      if s.connected {
      }
    } else if s.app.Speaking? {
    }
  }

  lemma ResumeModes(s: State)
    requires RightModes(s)
    ensures RightModes(ResumeStep(s)) <==> !(s.cb.ExitDelay? && !s.wakenet)
  {
    if s.cb.ExitDelay? {
    } else if s.cb.ErrorDelay? {
    }
  }

  /** `t` comes after `s`, in the same callback, and has lost WakeNet, if it had it, or not. */
  predicate Silenced(s: State, t: State, lost: bool) {
    t.cb == s.cb && (s.wakenet ==> t.wakenet == !lost)
  }

  lemma ConnectingSilences(s: State, env: Env)
    requires s.app.Connecting?
    ensures Silenced(s, ConnectingCase(s, env), SwitchSilences(s, env))
  {
    if s.connected {
    } else if env.initOk {
    }
  }

  lemma ConnectedIdleSilences(s: State, env: Env)
    requires s.app.ConnectedIdle?
    ensures Silenced(s, ConnectedIdleCase(s, env), SwitchSilences(s, env))
  {
    if s.connected {
      if env.button {
      }
    }
  }

  lemma HandshakingSilences(s: State, env: Env)
    ensures Silenced(s, HandshakingCase(s, env), false)
  {
    if s.connected {
      if env.sendOk {
      }
    }
  }

  lemma InSessionSilences(s: State, env: Env)
    ensures Silenced(s, InSessionCase(s, env), false)
  {
    hide EndOfTurn;
    EndOfTurnSilences(s);
    if env.button {
    }
  }

  lemma EndOfTurnSilences(s: State)
    ensures Silenced(s, EndOfTurn(s), false)
  {
    if !s.sessionActive && !s.app.ConnectedIdle? {
    }
  }

  lemma SwitchSilencesMeans(s: State, env: Env)
    ensures Silenced(s, Switch(s, env), SwitchSilences(s, env))
  {
    hide ConnectingCase, ConnectedIdleCase, HandshakingCase, InSessionCase;
    if s.app.Connecting? {
      ConnectingSilences(s, env);
    } else if s.app.ConnectedIdle? {
      ConnectedIdleSilences(s, env);
    } else if s.app.Handshaking? {
      HandshakingSilences(s, env);
    } else if !s.app.Idle? {
      InSessionSilences(s, env);
    }
  }

  lemma LoopHeadSilences(s: State, env: Env)
    ensures Silenced(s, LoopHead(s, env), s.running && !s.bargein && SwitchSilences(s, env))
  {
    hide Switch, SwitchSilences;
    SwitchSilencesMeans(s, env);
  }

  lemma BargedInSilences(s: State, env: Env)
    ensures Silenced(s, Switch(BargedIn(s), env), false)
  {
    hide Switch;
    SwitchSilencesMeans(BargedIn(s), env);
  }

  lemma HandshakeSilences(s: State, env: Env)
    ensures Silenced(s, SessionStarted(s), !s.running)
    ensures Silenced(s, HelloPolled(s), s.helloDone || s.waits + 1 >= MAX_WAITS || !s.running)
  {
    if s.running {
      if !s.helloDone && s.waits + 1 < MAX_WAITS {
      }
    }
  }

  lemma ReturnSilences(s: State, env: Env)
    ensures Silenced(s, ConnectReturned(s, env), false) && Silenced(s, SessionEnded(s), false)
  {
    if env.connectOk && s.connected && env.sendOk {
    }
  }

  lemma MovingOnSilences(s: State)
    ensures Silenced(s, s, false) && Silenced(s, s.(pc := Top), false) && Silenced(s, s.(pc := PollDelay), false)
    ensures Silenced(s, s.(app := Connecting, pc := Top), false)
  {
  }

  lemma FsmSilencesMeans(s: State, env: Env)
    ensures Silenced(s, FsmStep(s, env), FsmSilences(s, env))
  {
    hide LoopHead, Switch, SwitchSilences, BargedIn, ConnectReturned, SessionStarted, HelloPolled, SessionEnded,
         EndOfTurn, Silenced;
    if s.pc.Top? {
      LoopHeadSilences(s, env);
    } else if s.pc.BargeDelay? {
      BargedInSilences(s, env);
    } else if s.pc.ConnectWait? || s.pc.EndDelay? {
      ReturnSilences(s, env);
    } else if s.pc.SessionDelay? || s.pc.HelloWait? {
      HandshakeSilences(s, env);
    } else if s.pc.EndDebounce? {
      EndOfTurnSilences(s);
    } else {
      MovingOnSilences(s);
    }
  }

  lemma DisturbsMeans(s: State, a: Action)
    requires s.cb.ExitDelay? && s.wakenet && Enabled(s, a)
    ensures Step(s, a).wakenet <==> !Disturbs(s, a)
  {
    hide FsmStep, FsmSilences;
    if a.Fsm? {
      FsmSilencesMeans(s, a.env);
    } else if a.Wake? {
    } else if a.Resume? {
    } else {
    }
  }

  /** A step keeps the modes exactly if it does not disturb an exit. */
  lemma ModesStep(s: State, a: Action)
    requires Modes(s) && Enabled(s, a)
    ensures Modes(Step(s, a)) <==> !Disturbs(s, a)
  {
    hide Step, Disturbs;
    if s.cb.ExitDelay? {
      DisturbsMeans(s, a);
    }
    if s.cb.ExitDelay? && !Step(s, a).wakenet {
      StaysInExit(s, a);
    } else {
      NotExiting(s, a);
      ModesKept(s, a);
    }
  }

  lemma NotExiting(s: State, a: Action)
    ensures Disturbs(s, a) ==> s.cb.ExitDelay?
  {
  }

  lemma StaysInExit(s: State, a: Action)
    requires s.cb.ExitDelay? && s.wakenet && Enabled(s, a) && !Step(s, a).wakenet
    ensures Step(s, a).cb.ExitDelay?
  {
    hide FsmStep;
    if a.Fsm? {
      FsmSilencesMeans(s, a.env);
    } else if a.Resume? {
    } else {
    }
  }

  /** A step keeps the modes right exactly if it does not finish an exit with WakeNet off. */
  lemma RightModesStep(s: State, a: Action)
    requires RightModes(s) && Enabled(s, a)
    ensures RightModes(Step(s, a)) <==> !Deafens(s, a)
  {
    hide FsmStep, WakeStep, ReceiveStep, ResumeStep;
    if a.Fsm? {
      FsmModes(s, a.env);
    } else if a.Receive? {
      ReceiveModes(s, a.message);
    } else if a.Wake? {
      WakeModes(s);
    } else if a.Resume? {
      ResumeModes(s);
    }
  }

  lemma ModesKept(s: State, a: Action)
    requires Modes(s) && Enabled(s, a) && (s.cb.ExitDelay? ==> Step(s, a).wakenet)
    ensures Modes(Step(s, a))
  {
    hide Step, RightModes;
    RightModesStep(s, a);
    if !s.cb.ExitDelay? {
      StartsExit(s, a);
    }
  }

  lemma ReceiveStartsExit(s: State, m: Message)
    requires s.cb.Quiet?
    ensures ReceiveStep(s, m).cb.ExitDelay? ==> ReceiveStep(s, m).wakenet
  {
    hide TtsEnded, ErrorReceived;
    ErrorStartsNone(s, if m.ServerError? then m.errorCode else 0);
    if m.Event? {
      TtsStartsExit(s, m.exitIntent);
    } else if m.ServerError? {
    }
  }

  lemma TtsStartsExit(s: State, exitIntent: bool)
    requires s.cb.Quiet?
    ensures TtsEnded(s, exitIntent).cb.ExitDelay? ==> TtsEnded(s, exitIntent).wakenet
  {
    if !s.helloDone {
    } else if exitIntent {
    }
  }

  lemma ErrorStartsNone(s: State, code: nat)
    requires s.cb.Quiet?
    ensures !ErrorReceived(s, code).cb.ExitDelay?
  {
    if Recoverable(code) {
    }
  }

  /** Whoever starts an exit turns WakeNet on. */
  lemma StartsExit(s: State, a: Action)
    requires !s.cb.ExitDelay? && Enabled(s, a)
    ensures Step(s, a).cb.ExitDelay? ==> Step(s, a).wakenet
  {
    hide FsmStep, ReceiveStep;
    if a.Fsm? {
      FsmSilencesMeans(s, a.env);
    } else if a.Receive? {
      ReceiveStartsExit(s, a.message);
    } else if a.Wake? {
    } else if a.Resume? {
    }
  }

  /** In every run in which nothing turns WakeNet off during an exit, the modes are right in every state. */
  lemma {:induction false} ModesInvariant(wakenet: bool, actions: seq<Action>)
    requires Possible(wakenet, actions) && Undisturbed(wakenet, actions)
    ensures Modes(Run(wakenet, actions))
  {
    hide Step, Modes;
    if actions == [] {
      InitialModes(wakenet);
    } else {
      var before := actions[..|actions| - 1];
      ModesInvariant(wakenet, before);
      ModesStep(Run(wakenet, before), actions[|actions| - 1]);
    }
  }

  lemma InitialModes(wakenet: bool)
    ensures Modes(Initial(wakenet))
  {
  }
}
