/** The desktop client's run: the main thread, the microphone or keyboard thread, the service thread and the
    signal handler over shared flags, with a condition variable between the service and the input thread.
    A section under the mutex is one step, and every other step ends at a sleep, a blocking read or a test of a
    shared flag. Allocation never fails here. */
module DesktopSession {
  import opened Bytes
  import opened SendRing

  datatype Mode = Mic | Text | File

  datatype Command =
    | StartConnection | StartSession | SayHello | TaskRequest | ChatTextQuery | FinishSession | FinishConnection

  datatype MainPc =
    | Start | SendSession | SendHello | Launch
    | Playing     // sending an audio file, in File mode
    | Waiting     // until the session finishes or the user quits
    | Finishing | Draining | Leaving | Closing | Joining | Cancelling | Done

  datatype InputPc =
    | Absent | AtGate
    | Blocked     // in pthread_cond_wait, not signalled
    | Checking    // past the gate, before the test of `running`
    | Testing     // the head of the sending loop
    | Capturing   // reading the microphone or the keyboard
    | Ended

  datatype ServicePc =
    | Serving
    | Telling     // saw event 359, about to take the mutex
    | Stopped

  datatype State = State(
    mode: Mode, main: MainPc, input: InputPc, service: ServicePc,
    running: bool, clientRunning: bool, finished: bool, hello: bool,
    queue: Fifo<Command>)

  datatype Event = TtsEnded | SessionFinished | ServerError | OtherEvent
  datatype Got = Data | Nothing | EndOfFile

  datatype Action =
    | Main(ok: bool)     // whether the file or microphone opens, has more data, or more time to drain remains
    | Input(got: Got)
    | Spurious           // a wakeup without a signal
    | Receive(event: Event)
    | Tell
    | Write
    | Closed             // the connection breaks
    | ServiceExit
    | Signal             // Ctrl+C

  function Initial(mode: Mode): State {
    State(mode, Start, Absent, Serving, true, true, false, false, Fifo([], 0))
  }

  function Enqueue(s: State, c: Command): State {
    s.(queue := FifoStep(s.queue, Send(c, false)))
  }

  /** What the input thread, or the main thread in File mode, sends. */
  function InputCommand(mode: Mode): Command {
    if mode.Text? then ChatTextQuery else TaskRequest
  }

  function LaunchStep(s: State, ok: bool): State {
    if s.mode.File? then s.(main := if ok then Playing else Waiting)
    else if s.mode.Mic? && !ok then s.(running := false, main := Waiting)
    else s.(input := AtGate, main := Waiting)
  }

  function PlayingStep(s: State, ok: bool): State {
    if s.running && ok then Enqueue(s, TaskRequest) else s.(main := Waiting)
  }

  function MainStep(s: State, ok: bool): State {
    if s.main.Start? then Enqueue(s, StartConnection).(main := SendSession)
    else if s.main.SendSession? then Enqueue(s, StartSession).(main := SendHello)
    else if s.main.SendHello? then (if s.mode.File? then s else Enqueue(s, SayHello)).(main := Launch)
    else if s.main.Launch? then LaunchStep(s, ok)
    else if s.main.Playing? then PlayingStep(s, ok)
    else ShutdownStep(s, ok)
  }

  function ShutdownStep(s: State, ok: bool): State {
    if s.main.Waiting? then (if s.running && !s.finished then s else s.(main := Finishing))
    else if s.main.Finishing? then Enqueue(s, FinishSession).(main := Draining)
    else if s.main.Draining? then (if !s.finished && ok then s else s.(main := Leaving))
    else if s.main.Leaving? then Enqueue(s, FinishConnection).(main := Closing)
    else if s.main.Closing? then s.(running := false, clientRunning := false, main := Joining)
    else if s.main.Joining? then (if s.service.Stopped? then s.(main := Cancelling) else s)
    else if s.main.Cancelling? then s.(input := if s.input.Absent? then Absent else Ended, main := Done)
    else s
  }

  function CapturingStep(s: State, got: Got): State {
    if got.Data? then Enqueue(s, InputCommand(s.mode)).(input := Testing)
    else s.(input := if s.mode.Text? && got.EndOfFile? then Ended else Testing)
  }

  function InputStep(s: State, got: Got): State {
    if s.input.AtGate? then s.(input := if !s.hello && s.running then Blocked else Checking)
    else if s.input.Checking? then s.(input := if s.running then Testing else Ended)
    else if s.input.Testing? then s.(input := if s.running then Capturing else Ended)
    else if s.input.Capturing? then CapturingStep(s, got)
    else s
  }

  function Woken(s: State): State {
    if s.input.Blocked? then s.(input := AtGate) else s
  }

  function ReceiveStep(s: State, event: Event): State {
    if event.TtsEnded? then (if s.hello then s else s.(service := Telling))
    else if event.SessionFinished? then s.(finished := true)
    else if event.ServerError? then s.(running := false)
    else s
  }

  function ServiceStep(s: State, a: Action): State {
    if s.service.Stopped? then s
    else if s.service.Telling? then (if a.Tell? then Woken(s).(hello := true, service := Serving) else s)
    else if a.Receive? then ReceiveStep(s, a.event)
    else if a.Write? then s.(queue := FifoStep(s.queue, Writeable(0)))
    else if a.Closed? then s.(clientRunning := false)
    else if a.ServiceExit? && !s.clientRunning then s.(service := Stopped)
    else s
  }

  /** A thread that cannot take its step now stays where it is. */
  function Step(s: State, a: Action): State {
    if a.Main? then MainStep(s, a.ok)
    else if a.Input? then InputStep(s, a.got)
    else if a.Spurious? then Woken(s)
    else if a.Signal? then s.(running := false, clientRunning := false)
    else ServiceStep(s, a)
  }

  function After(s: State, actions: seq<Action>): State {
    if actions == [] then s else Step(After(s, actions[..|actions| - 1]), actions[|actions| - 1])
  }

  function Run(mode: Mode, actions: seq<Action>): State {
    After(Initial(mode), actions)
  }

  // ------------------------------------------------------------------------------------------------
  // The hello gate

  predicate IsInput(c: Command) {
    c.TaskRequest? || c.ChatTextQuery?
  }

  predicate NoInput(commands: seq<Command>) {
    forall c :: c in commands ==> !IsInput(c)
  }

  /** Before the main thread launches the input. */
  predicate Early(main: MainPc) {
    main.Start? || main.SendSession? || main.SendHello? || main.Launch?
  }

  /** Nothing passes the gate before the greeting ended, nobody sleeps on after it, and input goes out through the
      gate only. */
  predicate Gated(s: State) {
    && (s.input.Blocked? ==> !s.hello)
    && (s.service.Telling? ==> !s.hello)
    && (s.input.Testing? || s.input.Capturing? ==> s.hello)
    && (s.input.Checking? ==> s.hello || !s.running)
    && (Early(s.main) || s.mode.File? ==> s.input.Absent?)
    && (s.main.Playing? ==> s.mode.File?)
    && (s.main.Done? ==> s.input.Absent? || s.input.Ended?)
    && (Early(s.main) || (!s.mode.File? && !s.hello) ==> NoInput(s.queue.accepted))
  }

  lemma EarlyGated(s: State, ok: bool)
    requires Gated(s) && (s.main.Start? || s.main.SendSession? || s.main.SendHello?)
    ensures Gated(MainStep(s, ok))
  {
    if s.main.Start? {
    } else if s.main.SendSession? {
    } else {
    }
  }

  lemma LaunchGated(s: State, ok: bool)
    requires Gated(s) && s.main.Launch?
    ensures Gated(LaunchStep(s, ok))
  {
  }

  lemma PlayingGated(s: State, ok: bool)
    requires Gated(s) && s.main.Playing?
    ensures Gated(PlayingStep(s, ok))
  {
  }

  lemma MainGated(s: State, ok: bool)
    requires Gated(s)
    ensures Gated(MainStep(s, ok))
  {
    hide Gated, LaunchStep, PlayingStep, ShutdownStep;
    if s.main.Launch? {
      LaunchGated(s, ok);
    } else if s.main.Playing? {
      PlayingGated(s, ok);
    } else if Early(s.main) {
      EarlyGated(s, ok);
    } else {
      ShutdownGated(s, ok);
    }
  }

  lemma FinishGated(s: State, c: Command, main: MainPc)
    requires Gated(s) && !Early(s.main) && !s.main.Playing? && (c.FinishSession? || c.FinishConnection?)
    requires main.Draining? || main.Closing?
    ensures Gated(Enqueue(s, c).(main := main))
  {
  }

  lemma ShutdownGated(s: State, ok: bool)
    requires Gated(s) && !Early(s.main) && !s.main.Playing?
    ensures Gated(ShutdownStep(s, ok))
  {
    hide Enqueue, NoInput;
    if s.main.Waiting? {
    } else if s.main.Finishing? {
      FinishGated(s, FinishSession, Draining);
    } else if s.main.Draining? {
    } else if s.main.Leaving? {
      FinishGated(s, FinishConnection, Closing);
    } else if s.main.Closing? {
    } else if s.main.Joining? {
    } else if s.main.Cancelling? {
    } else {
    }
  }

  lemma InputGated(s: State, got: Got)
    requires Gated(s)
    ensures Gated(InputStep(s, got))
  {
    if s.input.AtGate? {
    } else if s.input.Checking? {
    } else if s.input.Testing? {
    } else if s.input.Capturing? {
    } else {
    }
  }

  lemma ServiceGated(s: State, a: Action)
    requires Gated(s)
    ensures Gated(ServiceStep(s, a))
  {
    if s.service.Stopped? {
    } else if s.service.Telling? {
    } else if a.Receive? {
    } else {
    }
  }

  lemma GatedStep(s: State, a: Action)
    requires Gated(s)
    ensures Gated(Step(s, a))
  {
    hide MainStep, InputStep, ServiceStep;
    if a.Main? {
      MainGated(s, a.ok);
    } else if a.Input? {
      InputGated(s, a.got);
    } else if a.Spurious? {
    } else if a.Signal? {
    } else {
      ServiceGated(s, a);
    }
  }

  /** In every run. */
  lemma {:induction false} GateInvariant(mode: Mode, actions: seq<Action>)
    ensures Gated(Run(mode, actions))
  {
    hide Gated, Step;
    if actions == [] {
      InitialGated(mode);
    } else {
      GateInvariant(mode, actions[..|actions| - 1]);
      GatedStep(Run(mode, actions[..|actions| - 1]), actions[|actions| - 1]);
    }
  }

  lemma InitialGated(mode: Mode)
    ensures Gated(Initial(mode))
  {
  }

  ghost predicate Heard(actions: seq<Action>) {
    exists i :: 0 <= i < |actions| && actions[i] == Receive(TtsEnded)
  }

  /** Event 359 was received and then handled, under the mutex. */
  ghost predicate Told(actions: seq<Action>) {
    exists i, j :: 0 <= i < j < |actions| && actions[i] == Receive(TtsEnded) && actions[j] == Tell
  }

  lemma HeardLater(actions: seq<Action>, a: Action)
    ensures Heard(actions) ==> Heard(actions + [a])
    ensures a == Receive(TtsEnded) ==> Heard(actions + [a])
    ensures Told(actions) ==> Told(actions + [a])
    ensures Heard(actions) && a == Tell ==> Told(actions + [a])
  {
    if a == Receive(TtsEnded) {
      assert (actions + [a])[|actions|] == a;
    }
    if Heard(actions) {
      var i :| 0 <= i < |actions| && actions[i] == Receive(TtsEnded);
      assert (actions + [a])[i] == actions[i] && (actions + [a])[|actions|] == a;
    }
    if Told(actions) {
      var i, j :| 0 <= i < j < |actions| && actions[i] == Receive(TtsEnded) && actions[j] == Tell;
      assert (actions + [a])[i] == actions[i] && (actions + [a])[j] == actions[j];
    }
  }

  lemma MainKeeps(s: State, ok: bool)
    ensures var t := MainStep(s, ok);
            t.mode == s.mode && t.hello == s.hello && t.service == s.service && t.finished == s.finished
  {
    hide FifoStep;
    if Early(s.main) {
    } else if s.main.Playing? {
    } else {
      ShutdownKeeps(s, ok);
    }
  }

  lemma ShutdownKeeps(s: State, ok: bool)
    ensures var t := ShutdownStep(s, ok);
            t.mode == s.mode && t.hello == s.hello && t.service == s.service && t.finished == s.finished
  {
    hide FifoStep;
  }

  lemma InputKeeps(s: State, got: Got)
    ensures InputStep(s, got) == s.(input := InputStep(s, got).input, queue := InputStep(s, got).queue)
  {
  }

  lemma HelloStep(s: State, a: Action)
    ensures Step(s, a).hello ==> s.hello || (s.service.Telling? && a == Tell)
    ensures Step(s, a).service.Telling? ==> s.service.Telling? || a == Receive(TtsEnded)
    ensures Step(s, a).mode == s.mode
  {
    hide MainStep, InputStep, FifoStep;
    if a.Main? {
      MainKeeps(s, a.ok);
    } else if a.Input? {
      InputKeeps(s, a.got);
    } else {
    }
  }

  lemma {:induction false} HelloWasTold(mode: Mode, actions: seq<Action>)
    ensures Run(mode, actions).hello ==> Told(actions)
    ensures Run(mode, actions).service.Telling? ==> Heard(actions)
  {
    hide Step, Heard, Told;
    if actions != [] {
      var before, a := actions[..|actions| - 1], actions[|actions| - 1];
      HelloWasTold(mode, before);
      HelloStep(Run(mode, before), a);
      HeardLater(before, a);
      assert before + [a] == actions;
    }
  }

  /** With a microphone or keyboard, no audio and no question is queued before the first event 359 was handled. */
  lemma GateHolds(mode: Mode, actions: seq<Action>)
    requires !mode.File? && !NoInput(Run(mode, actions).queue.accepted)
    ensures Told(actions)
  {
    hide Step, Told, NoInput;
    GateInvariant(mode, actions);
    HelloWasTold(mode, actions);
    SameMode(mode, actions);
  }

  lemma {:induction false} SameMode(mode: Mode, actions: seq<Action>)
    ensures Run(mode, actions).mode == mode
  {
    hide Step;
    if actions != [] {
      SameMode(mode, actions[..|actions| - 1]);
      HelloStep(Run(mode, actions[..|actions| - 1]), actions[|actions| - 1]);
    }
  }

  /** What gets a sleeping input thread out of its wait: handling event 359, a wakeup without a signal, or the
      cancellation at the very end. Clearing `running` does not. */
  lemma WhoWakes(s: State, a: Action)
    requires Gated(s) && s.input.Blocked?
    ensures !Step(s, a).input.Blocked? <==>
            (s.service.Telling? && a.Tell?) || a.Spurious? || (s.main.Cancelling? && a.Main?)
  {
    hide FifoStep, NoInput;
    if a.Main? {
    } else if a.Input? {
    } else {
    }
  }

  /** No wakeup is lost: once the greeting has ended nobody sleeps, and a thread at the gate gets through it in
      two steps of its own, unless the run is over. */
  lemma GetsThrough(mode: Mode, actions: seq<Action>, got: Got, other: Got)
    requires Run(mode, actions).hello
    ensures !Run(mode, actions).input.Blocked?
    ensures Run(mode, actions).input.AtGate? ==>
              InputStep(InputStep(Run(mode, actions), got), other).input ==
              if Run(mode, actions).running then Testing else Ended
  {
    hide Step;
    GateInvariant(mode, actions);
  }

  // ------------------------------------------------------------------------------------------------
  // The order on the wire

  function Prologue(mode: Mode): seq<Command> {
    if mode.File? then [StartConnection, StartSession] else [StartConnection, StartSession, SayHello]
  }

  /** How much of the prologue is queued. */
  function Opened(s: State): nat {
    if s.main.Start? then 0 else if s.main.SendSession? then 1 else if s.main.SendHello? then 2 else |Prologue(s.mode)|
  }

  predicate Ending(c: Command) {
    c.FinishSession? || c.FinishConnection?
  }

  /** The finishing commands among `commands`. */
  function Endings(commands: seq<Command>): seq<Command> {
    if commands == [] then []
    else
      var rest := Endings(commands[..|commands| - 1]);
      if Ending(commands[|commands| - 1]) then rest + [commands[|commands| - 1]] else rest
  }

  /** Each at most once and in this order; a full ring swallows them. */
  predicate Finished(endings: seq<Command>) {
    || endings == [] || endings == [FinishSession] || endings == [FinishConnection]
    || endings == [FinishSession, FinishConnection]
  }

  predicate InBody(mode: Mode, c: Command) {
    c == (if mode.Text? then ChatTextQuery else TaskRequest) || Ending(c)
  }

  predicate Body(mode: Mode, commands: seq<Command>, from: nat) {
    forall i :: from <= i < |commands| ==> InBody(mode, commands[i])
  }

  /** The main thread has not queued FinishSession, or not yet FinishConnection. */
  predicate BeforeEnd(main: MainPc) {
    Early(main) || main.Playing? || main.Waiting? || main.Finishing?
  }

  predicate Endable(main: MainPc, endings: seq<Command>) {
    if BeforeEnd(main) then endings == []
    else if main.Draining? || main.Leaving? then endings == [] || endings == [FinishSession]
    else Finished(endings)
  }

  predicate Queued(q: Fifo<Command>) {
    q.handed <= |q.accepted| <= q.handed + 63
  }

  predicate Ordered(s: State) {
    && Queued(s.queue) && Opened(s) <= |s.queue.accepted|
    && s.queue.accepted[..Opened(s)] == Prologue(s.mode)[..Opened(s)]
    && (Early(s.main) ==> |s.queue.accepted| == Opened(s))
    && Body(s.mode, s.queue.accepted, Opened(s))
    && Endable(s.main, Endings(s.queue.accepted))
  }

  lemma EndingsPush(commands: seq<Command>, c: Command)
    ensures Endings(commands + [c]) == if Ending(c) then Endings(commands) + [c] else Endings(commands)
  {
    assert (commands + [c])[..|commands|] == commands;
  }

  /** The queue may or may not take it. */
  lemma EnqueueOrdered(s: State, c: Command)
    requires Ordered(s) && !Early(s.main) && InBody(s.mode, c)
    requires Ending(c) ==> Endable(s.main, Endings(s.queue.accepted) + [c])
    ensures Ordered(Enqueue(s, c))
  {
    hide Endable, Prologue;
    EndingsPush(s.queue.accepted, c);
  }

  /** What the main thread does to the order, one command at a time. */
  lemma EarlyOrdered(s: State, ok: bool)
    requires Ordered(s) && (s.main.Start? || s.main.SendSession? || s.main.SendHello?)
    ensures Ordered(MainStep(s, ok))
  {
    hide InputCommand;
    var c := if s.main.Start? then StartConnection else if s.main.SendSession? then StartSession else SayHello;
    EndingsPush(s.queue.accepted, c);
    assert s.queue.accepted == s.queue.accepted[..Opened(s)];
    if s.main.Start? {
    } else if s.main.SendSession? {
    } else if s.mode.File? {
    } else {
    }
  }

  lemma ShutdownOrdered(s: State, ok: bool)
    requires Ordered(s) && !Early(s.main) && !s.main.Playing?
    ensures Ordered(ShutdownStep(s, ok))
  {
    hide Prologue, Body, Queued, Enqueue;
    if s.main.Waiting? {
    } else if s.main.Finishing? {
      FinishingOrdered(s);
    } else if s.main.Leaving? {
      LeavingOrdered(s);
    } else if s.main.Joining? {
    } else {
    }
  }

  lemma FinishingOrdered(s: State)
    requires Ordered(s) && s.main.Finishing?
    ensures Ordered(Enqueue(s, FinishSession).(main := Draining))
  {
    hide Prologue;
    EndingsPush(s.queue.accepted, FinishSession);
  }

  lemma LeavingOrdered(s: State)
    requires Ordered(s) && s.main.Leaving?
    ensures Ordered(Enqueue(s, FinishConnection).(main := Closing))
  {
    hide Prologue;
    EndingsPush(s.queue.accepted, FinishConnection);
  }

  lemma MainOrdered(s: State, ok: bool)
    requires Ordered(s) && Gated(s)
    ensures Ordered(MainStep(s, ok))
  {
    hide Enqueue, Body, Queued, Endings, Prologue, ShutdownStep, NoInput;
    if s.main.Launch? {
    } else if s.main.Playing? {
      EnqueueOrdered(s, TaskRequest);
    } else if Early(s.main) {
      EarlyOrdered(s, ok);
    } else {
      ShutdownOrdered(s, ok);
    }
  }

  lemma InputOrdered(s: State, got: Got)
    requires Ordered(s) && Gated(s)
    ensures Ordered(InputStep(s, got))
  {
    hide Enqueue, Body, Queued, Endings, Endable, Prologue, NoInput;
    if s.input.Capturing? {
      EnqueueOrdered(s, InputCommand(s.mode));
    } else {
    }
  }

  lemma OrderedStep(s: State, a: Action)
    requires Ordered(s) && Gated(s)
    ensures Ordered(Step(s, a))
  {
    hide MainStep, InputStep, Body, Endings, Endable, Prologue, Gated;
    if a.Main? {
      MainOrdered(s, a.ok);
    } else if a.Input? {
      InputOrdered(s, a.got);
    } else {
    }
  }

  lemma {:induction false} OrderInvariant(mode: Mode, actions: seq<Action>)
    ensures Ordered(Run(mode, actions))
  {
    hide Ordered, Step;
    if actions == [] {
      InitialOrdered(mode);
    } else {
      var before := actions[..|actions| - 1];
      OrderInvariant(mode, before);
      GateInvariant(mode, before);
      OrderedStep(Run(mode, before), actions[|actions| - 1]);
    }
  }

  lemma InitialOrdered(mode: Mode)
    ensures Ordered(Initial(mode))
  {
  }

  lemma {:induction false} EndingsPrefix(commands: seq<Command>, k: nat)
    requires k <= |commands|
    ensures Endings(commands[..k]) <= Endings(commands)
  {
    if k < |commands| {
      EndingsPrefix(commands[..|commands| - 1], k);
      assert commands[..|commands| - 1][..k] == commands[..k];
    } else {
      assert commands[..k] == commands;
    }
  }

  /** What lws_write got, in any run: StartConnection, StartSession and, unless a file is played, SayHello, as far
      as it got, and then only input and the two finishing commands, each of these at most once and in order. */
  lemma WireOrder(mode: Mode, actions: seq<Action>)
    ensures var q := Run(mode, actions).queue;
            && q.handed <= |q.accepted|
            && (q.accepted[..q.handed] <= Prologue(mode)
                || (Prologue(mode) <= q.accepted[..q.handed] && Body(mode, q.accepted[..q.handed], |Prologue(mode)|)))
            && Finished(Endings(q.accepted[..q.handed]))
  {
    OrderInvariant(mode, actions);
    SameMode(mode, actions);
    OnTheWire(Run(mode, actions));
  }

  lemma OnTheWire(s: State)
    requires Ordered(s)
    ensures var sent := s.queue.accepted[..s.queue.handed];
            && (sent <= Prologue(s.mode) || (Prologue(s.mode) <= sent && Body(s.mode, sent, |Prologue(s.mode)|)))
            && Finished(Endings(sent))
  {
    hide Endings, InBody;
    var q := s.queue;
    EndingsPrefix(q.accepted, q.handed);
    assert q.accepted[..Opened(s)] == Prologue(s.mode)[..Opened(s)];
  }

  // ------------------------------------------------------------------------------------------------
  // The ring underneath

  /** The queue of commands as the ring sees it, `encode` being build_command. */
  ghost function Encoded(q: Fifo<Command>, encode: Command -> seq<byte>): Fifo<seq<byte>> {
    Fifo(EncodeAll(q.accepted, encode), q.handed)
  }

  ghost function EncodeAll(commands: seq<Command>, encode: Command -> seq<byte>): (r: seq<seq<byte>>)
    ensures |r| == |commands|
  {
    seq(|commands|, i requires 0 <= i < |commands| => encode(commands[i]))
  }

  lemma QueueStep(s: State, a: Action) returns (ops: seq<Op<Command>>)
    ensures ops == [] ==> Step(s, a).queue == s.queue
    ensures ops != [] ==> |ops| == 1 && Step(s, a).queue == FifoStep(s.queue, ops[0])
  {
    hide FifoStep;
    ops := [];
    if a.Main? {
      ops := MainQueueStep(s, a.ok);
    } else if a.Input? {
      if s.input.Capturing? && a.got.Data? {
        ops := [Send(InputCommand(s.mode), false)];
      } else {
      }
    } else if a.Write? && s.service.Serving? {
      ops := [Writeable(0)];
    } else {
    }
  }

  lemma MainQueueStep(s: State, ok: bool) returns (ops: seq<Op<Command>>)
    ensures ops == [] ==> MainStep(s, ok).queue == s.queue
    ensures ops != [] ==> |ops| == 1 && MainStep(s, ok).queue == FifoStep(s.queue, ops[0])
  {
    hide FifoStep;
    if s.main.Start? {
      ops := [Send(StartConnection, false)];
    } else if s.main.SendSession? {
      ops := [Send(StartSession, false)];
    } else if s.main.SendHello? && !s.mode.File? {
      ops := [Send(SayHello, false)];
    } else if s.main.Playing? && s.running && ok {
      ops := [Send(TaskRequest, false)];
    } else if s.main.Finishing? {
      ops := [Send(FinishSession, false)];
    } else if s.main.Leaving? {
      ops := [Send(FinishConnection, false)];
    } else {
      ops := [];
    }
  }

  function EncodeOp(op: Op<Command>, encode: Command -> seq<byte>): Op<seq<byte>> {
    if op.Send? then Send(encode(op.data), op.noMemory) else Writeable(op.written)
  }

  lemma EncodeStep(q: Fifo<Command>, op: Op<Command>, encode: Command -> seq<byte>)
    ensures Encoded(FifoStep(q, op), encode) == FifoStep(Encoded(q, encode), EncodeOp(op, encode))
  {
  }

  /** For any run there are operations on the ring that hand over exactly its commands, encoded. */
  lemma {:induction false} SendsAsRing(mode: Mode, actions: seq<Action>, encode: Command -> seq<byte>)
    returns (ops: seq<Op<seq<byte>>>)
    ensures FifoRun(ops) == Encoded(Run(mode, actions).queue, encode)
  {
    hide Step, FifoStep, Encoded;
    if actions == [] {
      ops := [];
      EncodedNothing(encode);
    } else {
      var before, a := actions[..|actions| - 1], actions[|actions| - 1];
      ops := SendsAsRing(mode, before, encode);
      var more := QueueStep(Run(mode, before), a);
      if more != [] {
        EncodeStep(Run(mode, before).queue, more[0], encode);
        FifoRunMore(ops, EncodeOp(more[0], encode));
        ops := ops + [EncodeOp(more[0], encode)];
      }
    }
  }

  lemma EncodedNothing(encode: Command -> seq<byte>)
    ensures Encoded(Fifo([], 0), encode) == Fifo([], 0)
  {
  }

  lemma FifoRunMore(ops: seq<Op<seq<byte>>>, op: Op<seq<byte>>)
    ensures FifoRun(ops + [op]) == FifoStep(FifoRun(ops), op)
  {
    assert (ops + [op])[..|ops|] == ops;
  }
}
