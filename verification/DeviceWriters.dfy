/** What the device's flags mean as a history: for every flag the steps that set it and the steps that clear it, by
    event number and by what the FSM task finds. A flag has the value its last writer gave it. */
module DeviceWriters {
  import opened DeviceSession

  datatype Flag = Streaming | Querying | WakeNet | SessionActive | HelloDone | Bargein | Running | Connected | Live

  predicate Value(s: State, f: Flag) {
    if f.Streaming? then s.streaming
    else if f.Querying? then s.querying
    else if f.WakeNet? then s.wakenet
    else if f.SessionActive? then s.sessionActive
    else if f.HelloDone? then s.helloDone
    else if f.Bargein? then s.bargein
    else if f.Running? then s.running
    else if f.Connected? then s.connected
    else s.live
  }

  // ---- What happens in a step ----

  predicate IsEvent(a: Action, code: int) {
    a.Receive? && a.message.Event? && a.message.code == code
  }

  predicate IsError(a: Action) {
    a.Receive? && a.message.ServerError?
  }

  /** Event 152 or 153. */
  predicate SessionEnds(a: Action) {
    IsEvent(a, 152) || IsEvent(a, 153)
  }

  /** An idle timeout or a session error, which the session does not survive but the device does. */
  predicate SessionFails(a: Action) {
    IsError(a) && (a.message.errorCode == 55000001 || a.message.errorCode == 52000042)
  }

  /** Event 359 behind the greeting with the exit status. */
  predicate Exits(s: State, a: Action) {
    IsEvent(a, 359) && s.helloDone && a.message.exitIntent
  }

  /** The FSM task is at its switch, in the given application state. */
  predicate Sees(s: State, a: Action, app: App) {
    a.Fsm? && s.pc.Top? && s.running && !s.bargein && s.app == app
  }

  /** The FSM task is about to start a session: it finds HANDSHAKING, or goes on with a barge-in. */
  predicate Shakes(s: State, a: Action) {
    Sees(s, a, Handshaking) || (a.Fsm? && s.pc.BargeDelay?)
  }

  predicate InSession(s: State, a: Action) {
    Sees(s, a, Listening) || Sees(s, a, Speaking)
  }

  /** The wait for the greeting is over: it has ended, a hundred polls went by, or the device stops. */
  predicate GreetingEnds(s: State, a: Action) {
    a.Fsm? && ((s.pc.SessionDelay? && !s.running)
               || (s.pc.HelloWait? && (s.helloDone || s.waits >= 99 || !s.running)))
  }

  /** The FSM task finds the session gone. */
  predicate SessionGone(s: State, a: Action) {
    a.Fsm? && !s.sessionActive && ((InSession(s, a) && !a.env.button) || (s.pc.EndDebounce? && s.app != ConnectedIdle))
  }

  predicate ConnectFails(s: State, a: Action) {
    a.Fsm? && s.pc.ConnectWait? && !(a.env.connectOk && s.connected && a.env.sendOk)
  }

  /** The FSM task gives the client up: none can be made, it does not connect, or the connection is lost. */
  predicate GivesUp(s: State, a: Action) {
    || (Sees(s, a, Connecting) && !s.connected && !a.env.initOk)
    || ((Sees(s, a, ConnectedIdle) || Shakes(s, a)) && !s.connected)
    || ConnectFails(s, a)
  }

  /** The user is listened to: a cloud barge-in (450), a reply that has ended (359) without an exit, or the end of the
      greeting. */
  predicate Listens(s: State, a: Action) {
    IsEvent(a, 450) || (IsEvent(a, 359) && s.helloDone && !a.message.exitIntent) || GreetingEnds(s, a)
  }

  /** The step goes back to waiting for the wake word. */
  predicate GoesIdle(s: State, a: Action) {
    || SessionEnds(a) || SessionGone(s, a)
    || (a.Fsm? && (s.pc.EndDelay? || s.pc.ConnectWait?))
    || (Sees(s, a, Connecting) && (s.connected || !a.env.initOk))
    || (Shakes(s, a) && s.connected && !a.env.sendOk)
  }

  // ---- Who writes what ----

  predicate On(s: State, a: Action, f: Flag) {
    if f.Streaming? || f.Querying? then Listens(s, a)
    else if f.WakeNet? then
      IsEvent(a, 459) || Exits(s, a) || GoesIdle(s, a) || (a.Resume? && s.cb.ErrorDelay?)
    else if f.SessionActive? then a.Fsm? && s.pc.SessionDelay?
    else if f.HelloDone? then IsEvent(a, 359)
    else if f.Bargein? then a.Wake? && s.app == Speaking
    else if f.Connected? then a.Link? && a.up
    else if f.Live? then Sees(s, a, Connecting) && !s.connected && a.env.initOk
    else false
  }

  predicate Off(s: State, a: Action, f: Flag) {
    if f.Streaming? then
      || IsEvent(a, 459) || Exits(s, a) || SessionEnds(a) || SessionFails(a) || SessionGone(s, a)
      || (InSession(s, a) && a.env.button)
    else if f.Querying? then IsEvent(a, 459)
    else if f.WakeNet? then
      || Listens(s, a)
      || (Sees(s, a, Connecting) && !s.connected && a.env.initOk)
      || (Sees(s, a, ConnectedIdle) && s.connected && a.env.button)
      || (a.Wake? && s.app == ConnectedIdle && s.connected)
    else if f.SessionActive? then
      || SessionEnds(a) || SessionFails(a) || (a.Resume? && s.cb.ExitDelay?)
      || (a.Fsm? && (s.pc.BargeDelay? || s.pc.EndDelay?))
    else if f.HelloDone? then a.Fsm? && s.pc.SessionDelay?
    else if f.Bargein? then a.Fsm? && s.pc.Top? && s.running
    else if f.Running? then IsError(a) && !SessionFails(a)
    else if f.Connected? then (a.Link? && !a.up) || GivesUp(s, a)
    else GivesUp(s, a)
  }

  /** The application state a step sets. */
  predicate Sets(s: State, a: Action, app: App) {
    if app.Listening? then Listens(s, a)
    else if app.Speaking? then IsEvent(a, 459)
    else if app.ConnectedIdle? then GoesIdle(s, a) || (a.Resume? && !s.cb.Quiet?)
    else if app.Connecting? then
      || Sees(s, a, Idle) || (a.Fsm? && s.pc.RetryDelay?)
      || ((Sees(s, a, ConnectedIdle) || Shakes(s, a)) && !s.connected)
    else if app.Handshaking? then
      || (a.Wake? && s.app == ConnectedIdle && s.connected)
      || (Sees(s, a, ConnectedIdle) && s.connected && a.env.button)
      || (a.Fsm? && s.pc.BargeDelay? && s.connected && a.env.sendOk)
    else false
  }

  predicate Follows(s: State, a: Action, t: State, f: Flag) {
    Value(t, f) <==> On(s, a, f) || (Value(s, f) && !Off(s, a, f))
  }

  /** No step sets two application states, and most set none. */
  predicate SetsNone(s: State, a: Action) {
    && !Sets(s, a, Listening) && !Sets(s, a, Speaking) && !Sets(s, a, ConnectedIdle)
    && !Sets(s, a, Connecting) && !Sets(s, a, Handshaking)
  }

  /** Where a step of the FSM task ends. */
  predicate Arrives(s: State, a: Action, p: Pc) {
    a.Fsm? &&
    if p.Stopped? then s.pc.Top? && !s.running
    else if p.BargeDelay? then s.pc.Top? && s.running && s.bargein
    else if p.IdleDelay? then Sees(s, a, Idle)
    else if p.ConnectWait? then Sees(s, a, Connecting) && !s.connected && a.env.initOk
    else if p.RetryDelay? then (Sees(s, a, Connecting) && !s.connected && !a.env.initOk) || ConnectFails(s, a)
    else if p.ButtonDebounce? then Sees(s, a, ConnectedIdle) && s.connected && a.env.button
    else if p.SessionDelay? then Shakes(s, a) && s.connected && a.env.sendOk
    else if p.HelloWait? then (s.pc.SessionDelay? || s.pc.HelloWait?) && !GreetingEnds(s, a)
    else if p.EndDelay? then InSession(s, a) && a.env.button
    else if p.EndDebounce? then s.pc.EndDelay?
    else if p.PollDelay? then
      || (Sees(s, a, ConnectedIdle) && s.connected && !a.env.button) || (InSession(s, a) && !a.env.button)
      || s.pc.ButtonDebounce? || s.pc.EndDebounce?
    else
      || (Sees(s, a, Connecting) && s.connected) || (Sees(s, a, ConnectedIdle) && !s.connected)
      || (Shakes(s, a) && !(s.connected && a.env.sendOk))
      || (s.pc.ConnectWait? && !ConnectFails(s, a)) || GreetingEnds(s, a)
      || s.pc.IdleDelay? || s.pc.RetryDelay? || s.pc.PollDelay?
  }

  predicate AppFollows(s: State, a: Action, t: State) {
    Sets(s, a, t.app) || (t.app == s.app && SetsNone(s, a))
  }

  /** Only the FSM task moves on, and only the callback starts to wait; the polls for the greeting are counted. */
  predicate PlaceFollows(s: State, a: Action, t: State) {
    && (if a.Fsm? then Arrives(s, a, t.pc) else t.pc == s.pc)
    && (t.waits == if a.Fsm? && s.pc.SessionDelay? then 0
                   else if a.Fsm? && s.pc.HelloWait? then s.waits + 1 else s.waits)
    && (t.cb.ExitDelay? <==> Exits(s, a) || (s.cb.ExitDelay? && !a.Resume? && !SessionFails(a)))
    && (t.cb.ErrorDelay? <==> SessionFails(a) || (s.cb.ErrorDelay? && !a.Resume? && !Exits(s, a)))
  }

  /** `t` is what the writers make of `s`; `f` is any flag. */
  predicate Writes(s: State, a: Action, t: State, f: Flag) {
    Follows(s, a, t, f) && AppFollows(s, a, t) && PlaceFollows(s, a, t)
  }

  lemma NotFsm(s: State, a: Action)
    requires !a.Fsm?
    ensures forall app :: !Sees(s, a, app)
    ensures !Shakes(s, a) && !InSession(s, a) && !GreetingEnds(s, a) && !SessionGone(s, a) && !ConnectFails(s, a)
    ensures !GivesUp(s, a)
  {
  }

  lemma ListeningWrites(s: State, a: Action, f: Flag)
    requires IsEvent(a, 450) || (IsEvent(a, 359) && s.helloDone && !a.message.exitIntent)
    ensures Writes(s, a, StartListening(s), f)
  {
    hide Sees, Shakes, InSession, GreetingEnds, SessionGone, ConnectFails, GivesUp;
    NotFsm(s, a);
  }

  lemma QueryEndedWrites(s: State, a: Action, f: Flag)
    requires IsEvent(a, 459)
    ensures Writes(s, a, QueryEnded(s), f)
  {
    hide Sees, Shakes, InSession, GreetingEnds, SessionGone, ConnectFails, GivesUp;
    NotFsm(s, a);
  }

  lemma GreetingHeard(s: State, a: Action, t: State, f: Flag)
    requires IsEvent(a, 359) && !s.helloDone
    requires t == s.(helloDone := true)
    ensures Writes(s, a, t, f)
  {
    hide Sees, Shakes, InSession, GreetingEnds, SessionGone, ConnectFails, GivesUp;
    NotFsm(s, a);
  }

  lemma ExitAsked(s: State, a: Action, t: State, f: Flag)
    requires Exits(s, a)
    requires t == s.(streaming := false, wakenet := true, cb := ExitDelay)
    ensures Writes(s, a, t, f)
  {
    hide Sees, Shakes, InSession, GreetingEnds, SessionGone, ConnectFails, GivesUp;
    NotFsm(s, a);
  }

  lemma TtsEndedWrites(s: State, a: Action, f: Flag)
    requires IsEvent(a, 359)
    ensures Writes(s, a, TtsEnded(s, a.message.exitIntent), f)
  {
    hide Writes, StartListening;
    var t := TtsEnded(s, a.message.exitIntent);
    if !s.helloDone {
      GreetingHeard(s, a, t, f);
    } else if a.message.exitIntent {
      ExitAsked(s, a, t, f);
    } else {
      ListeningWrites(s, a, f);
    }
  }

  lemma SessionFinishedWrites(s: State, a: Action, f: Flag)
    requires SessionEnds(a)
    ensures Writes(s, a, SessionFinished(s), f)
  {
    hide Sees, Shakes, InSession, GreetingEnds, SessionGone, ConnectFails, GivesUp;
    NotFsm(s, a);
  }

  lemma SessionFailed(s: State, a: Action, t: State, f: Flag)
    requires SessionFails(a)
    requires t == s.(streaming := false, sessionActive := false, cb := ErrorDelay)
    ensures Writes(s, a, t, f)
  {
    hide Sees, Shakes, InSession, GreetingEnds, SessionGone, ConnectFails, GivesUp;
    NotFsm(s, a);
  }

  lemma DeviceFailed(s: State, a: Action, t: State, f: Flag)
    requires IsError(a) && !SessionFails(a)
    requires t == s.(running := false)
    ensures Writes(s, a, t, f)
  {
    hide Sees, Shakes, InSession, GreetingEnds, SessionGone, ConnectFails, GivesUp;
    NotFsm(s, a);
  }

  lemma ErrorWrites(s: State, a: Action, f: Flag)
    requires IsError(a)
    ensures Writes(s, a, ErrorReceived(s, a.message.errorCode), f)
  {
    hide Writes;
    var t := ErrorReceived(s, a.message.errorCode);
    if Recoverable(a.message.errorCode) {
      SessionFailed(s, a, t, f);
    } else {
      DeviceFailed(s, a, t, f);
    }
  }

  lemma NothingWritten(s: State, a: Action, f: Flag)
    requires a.Receive? && !a.message.ServerError?
    requires a.message.Event? ==> a.message.code !in {450, 459, 359, 152, 153}
    ensures Writes(s, a, s, f)
  {
    hide Sees, Shakes, InSession, GreetingEnds, SessionGone, ConnectFails, GivesUp;
    NotFsm(s, a);
  }

  lemma ReceiveWrites(s: State, a: Action, f: Flag)
    requires a.Receive?
    ensures Writes(s, a, ReceiveStep(s, a.message), f)
  {
    hide Writes, StartListening, QueryEnded, TtsEnded, SessionFinished, ErrorReceived;
    if a.message.Event? {
      if a.message.code == 450 {
        ListeningWrites(s, a, f);
      } else if a.message.code == 459 {
        QueryEndedWrites(s, a, f);
      } else if a.message.code == 359 {
        TtsEndedWrites(s, a, f);
      } else if a.message.code == 152 || a.message.code == 153 {
        SessionFinishedWrites(s, a, f);
      } else {
        NothingWritten(s, a, f);
      }
    } else if a.message.ServerError? {
      ErrorWrites(s, a, f);
    } else {
      NothingWritten(s, a, f);
    }
  }

  lemma WakeStarts(s: State, a: Action, t: State, f: Flag)
    requires a.Wake? && s.app.ConnectedIdle? && s.connected
    requires t == s.(wakenet := false, app := Handshaking)
    ensures Writes(s, a, t, f)
  {
    hide Sees, Shakes, InSession, GreetingEnds, SessionGone, ConnectFails, GivesUp;
    NotFsm(s, a);
  }

  lemma WakeBargesIn(s: State, a: Action, t: State, f: Flag)
    requires a.Wake? && s.app.Speaking?
    requires t == s.(bargein := true)
    ensures Writes(s, a, t, f)
  {
    hide Sees, Shakes, InSession, GreetingEnds, SessionGone, ConnectFails, GivesUp;
    NotFsm(s, a);
  }

  lemma WakeIgnored(s: State, a: Action, t: State, f: Flag)
    requires a.Wake? && !s.app.Speaking? && !(s.app.ConnectedIdle? && s.connected)
    requires t == s
    ensures Writes(s, a, t, f)
  {
    hide Sees, Shakes, InSession, GreetingEnds, SessionGone, ConnectFails, GivesUp;
    NotFsm(s, a);
  }

  lemma WakeWrites(s: State, a: Action, f: Flag)
    requires a.Wake?
    ensures Writes(s, a, WakeStep(s), f)
  {
    hide Writes;
    var t := WakeStep(s);
    if s.app.ConnectedIdle? && s.connected {
      WakeStarts(s, a, t, f);
    } else if s.app.Speaking? {
      WakeBargesIn(s, a, t, f);
    } else {
      WakeIgnored(s, a, t, f);
    }
  }

  lemma ExitFinished(s: State, a: Action, t: State, f: Flag)
    requires a.Resume? && s.cb.ExitDelay?
    requires t == s.(sessionActive := false, app := ConnectedIdle, cb := Quiet)
    ensures Writes(s, a, t, f)
  {
    hide Sees, Shakes, InSession, GreetingEnds, SessionGone, ConnectFails, GivesUp;
    NotFsm(s, a);
  }

  lemma ErrorFinished(s: State, a: Action, t: State, f: Flag)
    requires a.Resume? && s.cb.ErrorDelay?
    requires t == s.(wakenet := true, app := ConnectedIdle, cb := Quiet)
    ensures Writes(s, a, t, f)
  {
    hide Sees, Shakes, InSession, GreetingEnds, SessionGone, ConnectFails, GivesUp;
    NotFsm(s, a);
  }

  lemma ResumeWrites(s: State, a: Action, f: Flag)
    requires a.Resume? && !s.cb.Quiet?
    ensures Writes(s, a, ResumeStep(s), f)
  {
    hide Writes;
    var t := ResumeStep(s);
    if s.cb.ExitDelay? {
      ExitFinished(s, a, t, f);
    } else {
      ErrorFinished(s, a, t, f);
    }
  }

  lemma LinkWrites(s: State, a: Action, f: Flag)
    requires a.Link?
    ensures Writes(s, a, s.(connected := a.up), f)
  {
    hide Sees, Shakes, InSession, GreetingEnds, SessionGone, ConnectFails, GivesUp;
    NotFsm(s, a);
  }

  // ---- The FSM task ----

  /** Nothing but the place changes. */
  lemma SwitchMoves(s: State, a: Action, t: State, f: Flag)
    requires || (Sees(s, a, ConnectedIdle) && s.connected && !a.env.button && t == s.(pc := PollDelay))
             || (Sees(s, a, Handshaking) && s.connected && a.env.sendOk && t == s.(pc := SessionDelay))
             || (InSession(s, a) && s.sessionActive && !a.env.button && t == s.(pc := PollDelay))
    ensures Writes(s, a, t, f)
  {
  }

  lemma Stops(s: State, a: Action, t: State, f: Flag)
    requires a.Fsm? && s.pc.Top? && !s.running && t == s.(pc := Stopped)
    ensures Writes(s, a, t, f)
  {
  }

  lemma GreetingPolled(s: State, a: Action, t: State, f: Flag)
    requires a.Fsm? && s.pc.HelloWait? && !GreetingEnds(s, a) && t == s.(waits := s.waits + 1)
    ensures Writes(s, a, t, f)
  {
  }

  lemma DelayOver(s: State, a: Action, t: State, f: Flag)
    requires a.Fsm? && (s.pc.IdleDelay? || s.pc.PollDelay?) && t == s.(pc := Top)
    ensures Writes(s, a, t, f)
  {
  }

  lemma DebounceOver(s: State, a: Action, t: State, f: Flag)
    requires a.Fsm? && t == s.(pc := PollDelay)
    requires s.pc.ButtonDebounce? || (s.pc.EndDebounce? && (s.sessionActive || s.app.ConnectedIdle?))
    ensures Writes(s, a, t, f)
  {
    if s.pc.ButtonDebounce? {
    }
  }

  lemma IdleLeft(s: State, a: Action, t: State, f: Flag)
    requires Sees(s, a, Idle) && t == s.(app := Connecting, pc := IdleDelay)
    ensures Writes(s, a, t, f)
  {
  }

  lemma AlreadyConnected(s: State, a: Action, t: State, f: Flag)
    requires Sees(s, a, Connecting) && s.connected && t == s.(wakenet := true, app := ConnectedIdle, pc := Top)
    ensures Writes(s, a, t, f)
  {
  }

  lemma NoClient(s: State, a: Action, t: State, f: Flag)
    requires Sees(s, a, Connecting) && !s.connected && !a.env.initOk
    requires t == s.(live := false, connected := false, wakenet := true, app := ConnectedIdle, pc := RetryDelay)
    ensures Writes(s, a, t, f)
  {
  }

  lemma ClientMade(s: State, a: Action, t: State, f: Flag)
    requires Sees(s, a, Connecting) && !s.connected && a.env.initOk
    requires t == s.(wakenet := false, connected := false, live := true, pc := ConnectWait)
    ensures Writes(s, a, t, f)
  {
  }

  lemma ConnectingWrites(s: State, a: Action, f: Flag)
    requires Sees(s, a, Connecting)
    ensures Writes(s, a, ConnectingCase(s, a.env), f)
  {
    hide Writes;
    var t := ConnectingCase(s, a.env);
    if s.connected {
      AlreadyConnected(s, a, t, f);
    } else if a.env.initOk {
      ClientMade(s, a, t, f);
    } else {
      NoClient(s, a, t, f);
    }
  }

  lemma ConnectionLost(s: State, a: Action, t: State, f: Flag)
    requires (Sees(s, a, ConnectedIdle) || Sees(s, a, Handshaking)) && !s.connected
    requires t == s.(live := false, connected := false, app := Connecting, pc := Top)
    ensures Writes(s, a, t, f)
  {
  }

  lemma ButtonStarts(s: State, a: Action, t: State, f: Flag)
    requires Sees(s, a, ConnectedIdle) && s.connected && a.env.button
    requires t == s.(wakenet := false, app := Handshaking, pc := ButtonDebounce)
    ensures Writes(s, a, t, f)
  {
  }

  lemma ConnectedIdleWrites(s: State, a: Action, f: Flag)
    requires Sees(s, a, ConnectedIdle)
    ensures Writes(s, a, ConnectedIdleCase(s, a.env), f)
  {
    hide Writes;
    var t := ConnectedIdleCase(s, a.env);
    if !s.connected {
      ConnectionLost(s, a, t, f);
    } else if a.env.button {
      ButtonStarts(s, a, t, f);
    } else {
      SwitchMoves(s, a, t, f);
    }
  }

  lemma StartFails(s: State, a: Action, t: State, f: Flag)
    requires Sees(s, a, Handshaking) && s.connected && !a.env.sendOk
    requires t == s.(wakenet := true, app := ConnectedIdle, pc := Top)
    ensures Writes(s, a, t, f)
  {
  }

  lemma HandshakingWrites(s: State, a: Action, f: Flag)
    requires Sees(s, a, Handshaking)
    ensures Writes(s, a, HandshakingCase(s, a.env), f)
  {
    hide Writes;
    var t := HandshakingCase(s, a.env);
    if !s.connected {
      ConnectionLost(s, a, t, f);
    } else if a.env.sendOk {
      SwitchMoves(s, a, t, f);
    } else {
      StartFails(s, a, t, f);
    }
  }

  /** Behind the wait of a barge-in the next session is started at once. */
  lemma Restarts(s: State, a: Action, t: State, f: Flag)
    requires a.Fsm? && s.pc.BargeDelay? && s.connected && a.env.sendOk
    requires t == s.(sessionActive := false, app := Handshaking, pc := SessionDelay)
    ensures Writes(s, a, t, f)
  {
  }

  lemma RestartFails(s: State, a: Action, t: State, f: Flag)
    requires a.Fsm? && s.pc.BargeDelay? && s.connected && !a.env.sendOk
    requires t == s.(sessionActive := false, wakenet := true, app := ConnectedIdle, pc := Top)
    ensures Writes(s, a, t, f)
  {
  }

  lemma RestartLost(s: State, a: Action, t: State, f: Flag)
    requires a.Fsm? && s.pc.BargeDelay? && !s.connected
    requires t == s.(sessionActive := false, live := false, connected := false, app := Connecting, pc := Top)
    ensures Writes(s, a, t, f)
  {
  }

  lemma BargedInWrites(s: State, a: Action, f: Flag)
    requires a.Fsm? && s.pc.BargeDelay?
    ensures Writes(s, a, Switch(BargedIn(s), a.env), f)
  {
    hide Writes, ConnectingCase, ConnectedIdleCase, InSessionCase;
    var t := HandshakingCase(BargedIn(s), a.env);
    if !s.connected {
      RestartLost(s, a, t, f);
    } else if a.env.sendOk {
      Restarts(s, a, t, f);
    } else {
      RestartFails(s, a, t, f);
    }
  }

  lemma ButtonEnds(s: State, a: Action, t: State, f: Flag)
    requires InSession(s, a) && a.env.button && t == s.(streaming := false, pc := EndDelay)
    ensures Writes(s, a, t, f)
  {
  }

  lemma FoundGone(s: State, a: Action, t: State, f: Flag)
    requires SessionGone(s, a) && t == s.(wakenet := true, app := ConnectedIdle, streaming := false, pc := PollDelay)
    ensures Writes(s, a, t, f)
  {
  }

  lemma EndOfTurnWrites(s: State, a: Action, f: Flag)
    requires (InSession(s, a) && !a.env.button) || (a.Fsm? && s.pc.EndDebounce?)
    ensures Writes(s, a, EndOfTurn(s), f)
  {
    hide Writes;
    var t := EndOfTurn(s);
    if !s.sessionActive && !s.app.ConnectedIdle? {
      FoundGone(s, a, t, f);
    } else if s.pc.EndDebounce? {
      DebounceOver(s, a, t, f);
    } else {
      SwitchMoves(s, a, t, f);
    }
  }

  lemma SwitchWrites(s: State, a: Action, f: Flag)
    requires a.Fsm? && s.pc.Top? && s.running && !s.bargein
    ensures Writes(s, a, Switch(s, a.env), f)
  {
    hide Writes, ConnectingCase, ConnectedIdleCase, HandshakingCase, EndOfTurn;
    if s.app.Idle? {
      IdleLeft(s, a, Switch(s, a.env), f);
    } else if s.app.Connecting? {
      ConnectingWrites(s, a, f);
    } else if s.app.ConnectedIdle? {
      ConnectedIdleWrites(s, a, f);
    } else if s.app.Handshaking? {
      HandshakingWrites(s, a, f);
    } else if a.env.button {
      ButtonEnds(s, a, Switch(s, a.env), f);
    } else {
      EndOfTurnWrites(s, a, f);
    }
  }

  lemma BargeInSeen(s: State, a: Action, t: State, f: Flag)
    requires a.Fsm? && s.pc.Top? && s.running && s.bargein && t == s.(bargein := false, pc := BargeDelay)
    ensures Writes(s, a, t, f)
  {
  }

  lemma LoopHeadWrites(s: State, a: Action, f: Flag)
    requires a.Fsm? && s.pc.Top?
    ensures Writes(s, a, LoopHead(s, a.env), f)
  {
    hide Writes, Switch;
    if !s.running {
      Stops(s, a, LoopHead(s, a.env), f);
    } else if s.bargein {
      BargeInSeen(s, a, LoopHead(s, a.env), f);
    } else {
      SwitchWrites(s, a, f);
    }
  }

  lemma Connects(s: State, a: Action, t: State, f: Flag)
    requires a.Fsm? && s.pc.ConnectWait? && !ConnectFails(s, a)
    requires t == s.(wakenet := true, app := ConnectedIdle, pc := Top)
    ensures Writes(s, a, t, f)
  {
  }

  lemma NotConnected(s: State, a: Action, t: State, f: Flag)
    requires ConnectFails(s, a)
    requires t == s.(live := false, connected := false, wakenet := true, app := ConnectedIdle, pc := RetryDelay)
    ensures Writes(s, a, t, f)
  {
  }

  lemma ConnectReturnedWrites(s: State, a: Action, f: Flag)
    requires a.Fsm? && s.pc.ConnectWait?
    ensures Writes(s, a, ConnectReturned(s, a.env), f)
  {
    hide Writes, ConnectReturned;
    ConnectReturnedIs(s, a.env);
    if a.env.connectOk && s.connected && a.env.sendOk {
      Connects(s, a, ConnectReturned(s, a.env), f);
    } else {
      NotConnected(s, a, ConnectReturned(s, a.env), f);
    }
  }

  lemma ConnectReturnedIs(s: State, env: Env)
    ensures env.connectOk && s.connected && env.sendOk ==>
              ConnectReturned(s, env) == s.(wakenet := true, app := ConnectedIdle, pc := Top)
    ensures !(env.connectOk && s.connected && env.sendOk) ==>
              ConnectReturned(s, env)
              == s.(live := false, connected := false, wakenet := true, app := ConnectedIdle, pc := RetryDelay)
  {
  }

  lemma GreetingAwaited(s: State, a: Action, t: State, f: Flag)
    requires a.Fsm? && s.pc.SessionDelay? && s.running
    requires t == s.(helloDone := false, sessionActive := true, waits := 0, pc := HelloWait)
    ensures Writes(s, a, t, f)
  {
  }

  lemma GreetingSkipped(s: State, a: Action, t: State, f: Flag)
    requires a.Fsm? && s.pc.SessionDelay? && !s.running
    requires t == s.(helloDone := false, sessionActive := true, waits := 0, wakenet := false, streaming := true,
                     querying := true, app := Listening, pc := Top)
    ensures Writes(s, a, t, f)
  {
  }

  lemma GreetingOver(s: State, a: Action, t: State, f: Flag)
    requires s.pc.HelloWait? && GreetingEnds(s, a)
    requires t == s.(waits := s.waits + 1, wakenet := false, streaming := true, querying := true, app := Listening,
                     pc := Top)
    ensures Writes(s, a, t, f)
  {
  }

  lemma SessionStartedWrites(s: State, a: Action, f: Flag)
    requires a.Fsm? && s.pc.SessionDelay?
    ensures Writes(s, a, SessionStarted(s), f)
  {
    hide Writes;
    if s.running {
      GreetingAwaited(s, a, SessionStarted(s), f);
    } else {
      GreetingSkipped(s, a, SessionStarted(s), f);
    }
  }

  lemma HelloPolledWrites(s: State, a: Action, f: Flag)
    requires a.Fsm? && s.pc.HelloWait?
    ensures Writes(s, a, HelloPolled(s), f)
  {
    hide Writes;
    if !s.helloDone && s.waits + 1 < MAX_WAITS && s.running {
      GreetingPolled(s, a, HelloPolled(s), f);
    } else {
      GreetingOver(s, a, HelloPolled(s), f);
    }
  }

  lemma ButtonEnded(s: State, a: Action, f: Flag)
    requires a.Fsm? && s.pc.EndDelay?
    ensures Writes(s, a, SessionEnded(s), f)
  {
  }

  lemma Retries(s: State, a: Action, t: State, f: Flag)
    requires a.Fsm? && s.pc.RetryDelay? && t == s.(app := Connecting, pc := Top)
    ensures Writes(s, a, t, f)
  {
  }

  lemma FsmWrites(s: State, a: Action, f: Flag)
    requires a.Fsm? && !s.pc.Stopped?
    ensures Writes(s, a, FsmStep(s, a.env), f)
  {
    hide Writes, LoopHead, Switch, BargedIn, ConnectReturned, SessionStarted, HelloPolled, SessionEnded, EndOfTurn;
    if s.pc.Top? {
      LoopHeadWrites(s, a, f);
    } else if s.pc.BargeDelay? {
      BargedInWrites(s, a, f);
    } else if s.pc.ConnectWait? {
      ConnectReturnedWrites(s, a, f);
    } else if s.pc.SessionDelay? {
      SessionStartedWrites(s, a, f);
    } else if s.pc.HelloWait? {
      HelloPolledWrites(s, a, f);
    } else if s.pc.EndDelay? {
      ButtonEnded(s, a, f);
    } else if s.pc.EndDebounce? {
      EndOfTurnWrites(s, a, f);
    } else {
      DelayWrites(s, a, f);
    }
  }

  lemma DelayWrites(s: State, a: Action, f: Flag)
    requires a.Fsm? && (s.pc.RetryDelay? || s.pc.ButtonDebounce? || s.pc.IdleDelay? || s.pc.PollDelay?)
    ensures Writes(s, a, FsmStep(s, a.env), f)
  {
    hide Writes, LoopHead, Switch, BargedIn, ConnectReturned, SessionStarted, HelloPolled, SessionEnded, EndOfTurn;
    if s.pc.RetryDelay? {
      Retries(s, a, s.(app := Connecting, pc := Top), f);
    } else if s.pc.ButtonDebounce? {
      DebounceOver(s, a, s.(pc := PollDelay), f);
    } else {
      DelayOver(s, a, s.(pc := Top), f);
    }
  }

  /** Every step writes exactly what its writers say. */
  lemma StepWrites(s: State, a: Action, f: Flag)
    requires Enabled(s, a)
    ensures Follows(s, a, Step(s, a), f) && AppFollows(s, a, Step(s, a)) && PlaceFollows(s, a, Step(s, a))
  {
    hide Follows, AppFollows, PlaceFollows, FsmStep, WakeStep, ReceiveStep, ResumeStep;
    if a.Fsm? {
      FsmWrites(s, a, f);
    } else if a.Wake? {
      WakeWrites(s, a, f);
    } else if a.Receive? {
      ReceiveWrites(s, a, f);
    } else if a.Resume? {
      ResumeWrites(s, a, f);
    } else {
      LinkWrites(s, a, f);
    }
  }

  // ---- Throughout a run ----

  /** No step from the `k`th on clears the flag. */
  predicate NeverOff(wakenet: bool, actions: seq<Action>, f: Flag, k: nat) {
    forall j {:trigger actions[j]} :: k <= j < |actions| ==> !Off(Run(wakenet, actions[..j]), actions[j], f)
  }

  /** Step `i` sets the flag and no later one clears it. */
  predicate LastOn(wakenet: bool, actions: seq<Action>, f: Flag, i: nat) {
    i < |actions| && On(Run(wakenet, actions[..i]), actions[i], f) && NeverOff(wakenet, actions, f, i + 1)
  }

  /** Every flag is what its last writer made of it: it is set exactly if some step has set it and none has cleared it
      since, or if it was set at the start and none has cleared it. */
  lemma {:induction false} FlagLaw(wakenet: bool, actions: seq<Action>, f: Flag)
    requires Possible(wakenet, actions)
    ensures Value(Run(wakenet, actions), f) <==>
              (exists i :: LastOn(wakenet, actions, f, i))
              || (Value(Initial(wakenet), f) && NeverOff(wakenet, actions, f, 0))
  {
    hide On, Off, Value, Step, Enabled, Initial;
    if actions == [] {
      assert !exists i :: LastOn(wakenet, actions, f, i);
    } else {
      hide LastOn, NeverOff;
      var before, a := actions[..|actions| - 1], actions[|actions| - 1];
      FlagLaw(wakenet, before, f);
      StepWrites(Run(wakenet, before), a, f);
      NeverOffMore(wakenet, actions, f, 0);
      LastOnMore(wakenet, actions, f);
    }
  }

  lemma LastOnMore(wakenet: bool, actions: seq<Action>, f: Flag)
    requires actions != []
    ensures var before, a := actions[..|actions| - 1], actions[|actions| - 1];
            (exists i :: LastOn(wakenet, actions, f, i)) <==>
            On(Run(wakenet, before), a, f)
            || ((exists i :: LastOn(wakenet, before, f, i)) && !Off(Run(wakenet, before), a, f))
  {
    hide On, Off, Run, NeverOff;
    var n := |actions| - 1;
    var before := actions[..n];
    NeverOffEnd(wakenet, actions, f);
    assert LastOn(wakenet, actions, f, n) <==> On(Run(wakenet, before), actions[n], f);
    forall i: nat | i < n
      ensures LastOn(wakenet, actions, f, i)
              <==> LastOn(wakenet, before, f, i) && !Off(Run(wakenet, before), actions[n], f)
    {
      assert before[..i] == actions[..i] && before[i] == actions[i];
      NeverOffMore(wakenet, actions, f, i + 1);
    }
  }

  lemma NeverOffEnd(wakenet: bool, actions: seq<Action>, f: Flag)
    ensures NeverOff(wakenet, actions, f, |actions|)
  {
  }

  lemma NeverOffMore(wakenet: bool, actions: seq<Action>, f: Flag, k: nat)
    requires k < |actions|
    ensures var before := actions[..|actions| - 1];
            NeverOff(wakenet, actions, f, k)
            <==> NeverOff(wakenet, before, f, k) && !Off(Run(wakenet, before), actions[|actions| - 1], f)
  {
    hide On, Off, Run;
    var before := actions[..|actions| - 1];
    forall j | k <= j < |before| ensures before[..j] == actions[..j] && before[j] == actions[j] {
    }
  }

  /** No step from the `k`th on sets an application state. */
  predicate NoneSet(wakenet: bool, actions: seq<Action>, k: nat) {
    forall j {:trigger actions[j]} :: k <= j < |actions| ==> SetsNone(Run(wakenet, actions[..j]), actions[j])
  }

  /** Step `i` is the last that sets one, and sets `app`. */
  predicate LastSet(wakenet: bool, actions: seq<Action>, app: App, i: nat) {
    i < |actions| && Sets(Run(wakenet, actions[..i]), actions[i], app) && NoneSet(wakenet, actions, i + 1)
  }

  /** The application state is the one set last. */
  lemma {:induction false} AppLaw(wakenet: bool, actions: seq<Action>, app: App)
    requires Possible(wakenet, actions)
    ensures Run(wakenet, actions).app == app <==>
              (exists i :: LastSet(wakenet, actions, app, i)) || (app == Connecting && NoneSet(wakenet, actions, 0))
  {
    hide Sets, SetsNone, Step, Enabled;
    if actions == [] {
      assert !exists i :: LastSet(wakenet, actions, app, i);
    } else {
      var n := |actions| - 1;
      var before, a := actions[..n], actions[n];
      var s := Run(wakenet, before);
      AppLaw(wakenet, before, app);
      SetOnce(s, a, app);
      forall k: nat | k <= n
        ensures NoneSet(wakenet, actions, k) <==> NoneSet(wakenet, before, k) && SetsNone(s, a)
      {
        NoneSetMore(wakenet, actions, k);
      }
      forall i: nat | i < n
        ensures LastSet(wakenet, actions, app, i) <==> LastSet(wakenet, before, app, i) && SetsNone(s, a)
      {
        assert before[..i] == actions[..i] && before[i] == actions[i];
      }
      assert LastSet(wakenet, actions, app, n) <==> Sets(s, a, app);
    }
  }

  lemma NoneSetMore(wakenet: bool, actions: seq<Action>, k: nat)
    requires k < |actions|
    ensures var before := actions[..|actions| - 1];
            NoneSet(wakenet, actions, k)
            <==> NoneSet(wakenet, before, k) && SetsNone(Run(wakenet, before), actions[|actions| - 1])
  {
    hide SetsNone, Run;
    var before := actions[..|actions| - 1];
    forall j | k <= j < |before| ensures before[..j] == actions[..j] && before[j] == actions[j] {
    }
  }

  /** A step that sets an application state sets that one. */
  lemma SetOnce(s: State, a: Action, app: App)
    requires Enabled(s, a)
    ensures Step(s, a).app == app <==> Sets(s, a, app) || (SetsNone(s, a) && s.app == app)
  {
    hide Step, Enabled, Sets, SetsNone;
    StepWrites(s, a, Running);
    SetsOne(s, a, app, Step(s, a).app);
    SetsSome(s, a, app);
    SetsSome(s, a, Step(s, a).app);
  }

  lemma SetsOne(s: State, a: Action, app: App, other: App)
    requires Enabled(s, a)
    ensures Sets(s, a, app) && Sets(s, a, other) ==> app == other
  {
    hide Sets;
    if Sets(s, a, app) && Sets(s, a, other) {
      SetsMeans(s, a, app);
      SetsMeans(s, a, other);
    }
  }

  /** What a step finds and what it sets. */
  lemma SetsMeans(s: State, a: Action, app: App)
    requires Sets(s, a, app)
    ensures app == (if a.Receive? then
                      if a.message.Event? && a.message.code == 459 then Speaking
                      else if a.message.Event? && (a.message.code == 152 || a.message.code == 153) then ConnectedIdle
                      else Listening
                    else if a.Wake? then Handshaking
                    else if a.Resume? || s.pc.ConnectWait? || s.pc.EndDelay? || s.pc.EndDebounce? then ConnectedIdle
                    else if s.pc.SessionDelay? || s.pc.HelloWait? then Listening
                    else if s.pc.RetryDelay? then Connecting
                    else if s.pc.BargeDelay? || s.app.Handshaking? then
                      if !s.connected then Connecting else if a.env.sendOk then Handshaking else ConnectedIdle
                    else if s.app.ConnectedIdle? then if s.connected then Handshaking else Connecting
                    else if s.app.Idle? then Connecting
                    else ConnectedIdle)
  {
  }

  lemma SetsSome(s: State, a: Action, app: App)
    ensures Sets(s, a, app) ==> !SetsNone(s, a)
  {
    hide Listens, IsEvent, GoesIdle, Sees, Shakes;
    if app.Idle? {
      NeverIdle(s, a);
    } else if app.Listening? || app.Speaking? || app.Connecting? {
    } else if app.Handshaking? {
    }
  }

  lemma NeverIdle(s: State, a: Action)
    ensures !Sets(s, a, Idle)
  {
  }
}
