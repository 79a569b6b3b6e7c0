/** What the desktop client's flags and its queue mean as a history: the steps that write each of them. */
module DesktopWriters {
  import opened SendRing
  import opened DesktopSession

  datatype Flag = Running | ClientRunning | SessionFinished | HelloDone

  predicate Value(s: State, f: Flag) {
    if f.Running? then s.running
    else if f.ClientRunning? then s.clientRunning
    else if f.SessionFinished? then s.finished
    else s.hello
  }

  /** The step writes the flag: Ctrl+C, a microphone that does not open, a server error and the end of main clear
      `running`; Ctrl+C, a broken connection and the end of main clear the client's flag; the server reports the end
      of the session; and the service thread tells the end of the greeting under the mutex. */
  predicate WritesFlag(s: State, a: Action, f: Flag) {
    if f.Running? then
      || a.Signal? || (a.Receive? && a.event.ServerError? && s.service.Serving?)
      || (a.Main? && ((s.main.Launch? && s.mode.Mic? && !a.ok) || s.main.Closing?))
    else if f.ClientRunning? then
      a.Signal? || (a.Closed? && s.service.Serving?) || (a.Main? && s.main.Closing?)
    else if f.SessionFinished? then a.Receive? && a.event.SessionFinished? && s.service.Serving?
    else a.Tell? && s.service.Telling?
  }

  /** The commands a step sends: one of main's, or what the keyboard or the microphone gave. */
  function Sends(s: State, a: Action): seq<Command> {
    if a.Main? then
      if s.main.Start? then [StartConnection]
      else if s.main.SendSession? then [StartSession]
      else if s.main.SendHello? && !s.mode.File? then [SayHello]
      else if s.main.Playing? && s.running && a.ok then [TaskRequest]
      else if s.main.Finishing? then [FinishSession]
      else if s.main.Leaving? then [FinishConnection]
      else []
    else if a.Input? && s.input.Capturing? && a.got.Data? then
      if s.mode.Text? then [ChatTextQuery] else [TaskRequest]
    else []
  }

  /** What is sent is queued unless 63 commands wait already, and the service thread writes the oldest. */
  predicate QueueFollows(s: State, a: Action, t: State) {
    var waiting := |s.queue.accepted| - s.queue.handed;
    && t.queue.accepted == (if waiting == 63 then s.queue.accepted else s.queue.accepted + Sends(s, a))
    && t.queue.handed ==
       (if a.Write? && s.service.Serving? && waiting != 0 then s.queue.handed + 1 else s.queue.handed)
  }

  predicate FlagFollows(s: State, a: Action, t: State, f: Flag) {
    Value(t, f) == (if WritesFlag(s, a, f) then f.SessionFinished? || f.HelloDone? else Value(s, f))
  }

  /** Where main is next: it waits for the end of the session or of the run, then up to the end of the session or of
      its patience, and then for the service thread. */
  function NextMain(s: State, ok: bool): MainPc {
    if s.main.Start? then SendSession
    else if s.main.SendSession? then SendHello
    else if s.main.SendHello? then Launch
    else if s.main.Launch? then if s.mode.File? && ok then Playing else Waiting
    else if s.main.Playing? then if s.running && ok then Playing else Waiting
    else if s.main.Waiting? then if !s.running || s.finished then Finishing else Waiting
    else if s.main.Finishing? then Draining
    else if s.main.Draining? then if s.finished || !ok then Leaving else Draining
    else if s.main.Leaving? then Closing
    else if s.main.Closing? then Joining
    else if s.main.Joining? then if s.service.Stopped? then Cancelling else Joining
    else Done
  }

  /** Where the input thread is next: main starts it, except for a file or without a microphone, and cancels it; it
      sleeps at the gate until the greeting is told, and ends when the run does or the keyboard is closed. */
  function NextInput(s: State, a: Action): InputPc {
    if a.Main? && s.main.Launch? && (s.mode.Text? || (s.mode.Mic? && a.ok)) then AtGate
    else if a.Main? && s.main.Cancelling? && !s.input.Absent? then Ended
    else if s.input.Blocked? && (a.Spurious? || (a.Tell? && s.service.Telling?)) then AtGate
    else if !a.Input? then s.input
    else if s.input.AtGate? then if s.hello || !s.running then Checking else Blocked
    else if s.input.Checking? then if s.running then Testing else Ended
    else if s.input.Testing? then if s.running then Capturing else Ended
    else if s.input.Capturing? then if s.mode.Text? && a.got.EndOfFile? then Ended else Testing
    else s.input
  }

  /** Where the service thread is next. */
  function NextService(s: State, a: Action): ServicePc {
    if s.service.Telling? then if a.Tell? then Serving else Telling
    else if s.service.Serving? && a.Receive? && a.event.TtsEnded? && !s.hello then Telling
    else if s.service.Serving? && a.ServiceExit? && !s.clientRunning then Stopped
    else s.service
  }

  predicate PlaceFollows(s: State, a: Action, t: State) {
    && t.mode == s.mode && t.main == (if a.Main? then NextMain(s, a.ok) else s.main)
    && t.input == NextInput(s, a) && t.service == NextService(s, a)
  }

  lemma MainPlaces(s: State, a: Action)
    requires a.Main?
    ensures PlaceFollows(s, a, MainStep(s, a.ok))
  {
    hide FifoStep;
    if Early(s.main) || s.main.Playing? {
    } else {
      ShutdownPlaces(s, a);
    }
  }

  lemma ShutdownPlaces(s: State, a: Action)
    requires a.Main? && !Early(s.main) && !s.main.Playing?
    ensures PlaceFollows(s, a, ShutdownStep(s, a.ok))
  {
    hide FifoStep;
    if s.main.Waiting? || s.main.Draining? || s.main.Joining? {
    } else {
    }
  }

  lemma InputPlaces(s: State, a: Action)
    requires a.Input?
    ensures PlaceFollows(s, a, InputStep(s, a.got))
  {
    hide FifoStep;
    if s.input.Capturing? {
    } else {
    }
  }

  lemma OtherPlaces(s: State, a: Action)
    requires !a.Main? && !a.Input?
    ensures PlaceFollows(s, a, Step(s, a))
  {
    hide FifoStep, MainStep, InputStep;
    if a.Spurious? || a.Signal? {
    } else if s.service.Telling? {
    } else if a.Receive? {
    } else {
    }
  }

  lemma EnqueueFollows(s: State, c: Command)
    ensures var waiting, t := |s.queue.accepted| - s.queue.handed, Enqueue(s, c);
            t == s.(queue := Fifo(if waiting == 63 then s.queue.accepted else s.queue.accepted + [c], s.queue.handed))
  {
  }

  lemma OpeningWrites(s: State, a: Action, f: Flag)
    requires a.Main? && (s.main.Start? || s.main.SendSession? || s.main.SendHello?)
    ensures FlagFollows(s, a, MainStep(s, a.ok), f) && QueueFollows(s, a, MainStep(s, a.ok))
  {
    hide Enqueue, LaunchStep, PlayingStep, ShutdownStep;
    if s.main.Start? {
      EnqueueFollows(s, StartConnection);
    } else if s.main.SendSession? {
      EnqueueFollows(s, StartSession);
    } else if !s.mode.File? {
      EnqueueFollows(s, SayHello);
    } else {
    }
  }

  lemma LaunchWrites(s: State, a: Action, f: Flag)
    requires a.Main? && s.main.Launch?
    ensures FlagFollows(s, a, LaunchStep(s, a.ok), f) && QueueFollows(s, a, LaunchStep(s, a.ok))
  {
    if s.mode.File? {
    } else if s.mode.Mic? && !a.ok {
    } else {
    }
  }

  lemma PlayingWrites(s: State, a: Action, f: Flag)
    requires a.Main? && s.main.Playing?
    ensures FlagFollows(s, a, PlayingStep(s, a.ok), f) && QueueFollows(s, a, PlayingStep(s, a.ok))
  {
    hide Enqueue;
    EnqueueFollows(s, TaskRequest);
    if s.running && a.ok {
    } else {
    }
  }

  lemma FinishWrites(s: State, a: Action, c: Command, next: MainPc, f: Flag)
    requires a.Main? && Sends(s, a) == [c] && !s.main.Launch? && !s.main.Closing?
    ensures var t := Enqueue(s, c).(main := next); FlagFollows(s, a, t, f) && QueueFollows(s, a, t)
  {
    hide Enqueue, Sends;
    EnqueueFollows(s, c);
  }

  lemma OnlyPlaces(s: State, a: Action, t: State, f: Flag)
    requires t == s.(main := t.main, input := t.input, service := t.service)
    requires Sends(s, a) == [] && !WritesFlag(s, a, f) && !a.Write?
    ensures FlagFollows(s, a, t, f) && QueueFollows(s, a, t)
  {
    hide Sends, WritesFlag;
  }

  lemma ShutdownWrites(s: State, a: Action, f: Flag)
    requires a.Main? && !Early(s.main) && !s.main.Playing?
    ensures FlagFollows(s, a, ShutdownStep(s, a.ok), f) && QueueFollows(s, a, ShutdownStep(s, a.ok))
  {
    hide Enqueue, FlagFollows, QueueFollows;
    if s.main.Finishing? {
      FinishWrites(s, a, FinishSession, Draining, f);
    } else if s.main.Leaving? {
      FinishWrites(s, a, FinishConnection, Closing, f);
    } else if s.main.Closing? {
      ClosingWrites(s, a, f);
    } else {
      OnlyPlaces(s, a, ShutdownStep(s, a.ok), f);
    }
  }

  lemma ClosingWrites(s: State, a: Action, f: Flag)
    requires a.Main? && s.main.Closing?
    ensures var t := s.(running := false, clientRunning := false, main := Joining);
            FlagFollows(s, a, t, f) && QueueFollows(s, a, t)
  {
  }

  lemma MainWrites(s: State, a: Action, f: Flag)
    requires a.Main?
    ensures FlagFollows(s, a, MainStep(s, a.ok), f) && QueueFollows(s, a, MainStep(s, a.ok))
  {
    hide FlagFollows, QueueFollows, Enqueue, LaunchStep, PlayingStep, ShutdownStep;
    if s.main.Start? || s.main.SendSession? || s.main.SendHello? {
      OpeningWrites(s, a, f);
    } else if s.main.Launch? {
      LaunchWrites(s, a, f);
    } else if s.main.Playing? {
      PlayingWrites(s, a, f);
    } else {
      ShutdownWrites(s, a, f);
    }
  }

  lemma InputWrites(s: State, a: Action, f: Flag)
    requires a.Input?
    ensures FlagFollows(s, a, InputStep(s, a.got), f) && QueueFollows(s, a, InputStep(s, a.got))
  {
    hide Enqueue;
    if s.input.Capturing? && a.got.Data? {
      EnqueueFollows(s, if s.mode.Text? then ChatTextQuery else TaskRequest);
    } else {
    }
  }

  lemma ReceiveWrites(s: State, a: Action, f: Flag)
    requires a.Receive? && s.service.Serving?
    ensures FlagFollows(s, a, ReceiveStep(s, a.event), f) && QueueFollows(s, a, ReceiveStep(s, a.event))
  {
    if a.event.TtsEnded? {
      if s.hello {
      } else {
      }
    } else if a.event.SessionFinished? {
    } else if a.event.ServerError? {
    } else {
    }
  }

  lemma TellWrites(s: State, a: Action, f: Flag)
    requires a.Tell? && s.service.Telling?
    ensures var t := Woken(s).(hello := true, service := Serving); FlagFollows(s, a, t, f) && QueueFollows(s, a, t)
  {
    if s.input.Blocked? {
    } else {
    }
  }

  lemma WriteWrites(s: State, a: Action, f: Flag)
    requires a.Write? && s.service.Serving? && Queued(s.queue)
    ensures var t := s.(queue := FifoStep(s.queue, Writeable(0))); FlagFollows(s, a, t, f) && QueueFollows(s, a, t)
  {
  }

  lemma ClosedWrites(s: State, a: Action, f: Flag)
    requires a.Closed? && s.service.Serving?
    ensures var t := s.(clientRunning := false); FlagFollows(s, a, t, f) && QueueFollows(s, a, t)
  {
  }

  lemma NothingWritten(s: State, a: Action, t: State, f: Flag)
    requires t == s && !a.Main? && !a.Input? && !a.Signal?
    requires || s.service.Stopped? || (s.service.Telling? && !a.Tell?)
             || (s.service.Serving? && (a.Tell? || a.ServiceExit?))
    ensures FlagFollows(s, a, t, f) && QueueFollows(s, a, t)
  {
  }

  lemma ServiceWrites(s: State, a: Action, f: Flag)
    requires !a.Main? && !a.Input? && !a.Spurious? && !a.Signal? && Queued(s.queue)
    ensures FlagFollows(s, a, ServiceStep(s, a), f) && QueueFollows(s, a, ServiceStep(s, a))
  {
    hide FlagFollows, QueueFollows, ReceiveStep, Woken, FifoStep;
    if s.service.Stopped? {
      NothingWritten(s, a, ServiceStep(s, a), f);
    } else if s.service.Telling? {
      if a.Tell? {
        TellWrites(s, a, f);
      } else {
        NothingWritten(s, a, ServiceStep(s, a), f);
      }
    } else if a.Receive? {
      ReceiveWrites(s, a, f);
    } else if a.Write? {
      WriteWrites(s, a, f);
    } else if a.Closed? {
      ClosedWrites(s, a, f);
    } else {
      OnlyPlaces(s, a, ServiceStep(s, a), f);
    }
  }

  lemma SignalWrites(s: State, a: Action, f: Flag)
    requires a.Spurious? || a.Signal?
    ensures FlagFollows(s, a, Step(s, a), f) && QueueFollows(s, a, Step(s, a))
  {
    hide MainStep, InputStep, ServiceStep;
    if a.Spurious? {
      if s.input.Blocked? {
      } else {
      }
    } else {
    }
  }

  /** Every step writes the flags and the queue, and goes on, as told. */
  lemma StepWrites(s: State, a: Action, f: Flag)
    requires Queued(s.queue)
    ensures FlagFollows(s, a, Step(s, a), f) && QueueFollows(s, a, Step(s, a)) && PlaceFollows(s, a, Step(s, a))
  {
    hide FlagFollows, QueueFollows, PlaceFollows, MainStep, InputStep, ServiceStep;
    if a.Main? {
      MainWrites(s, a, f);
      MainPlaces(s, a);
    } else if a.Input? {
      InputWrites(s, a, f);
      InputPlaces(s, a);
    } else {
      OtherPlaces(s, a);
      if a.Spurious? || a.Signal? {
        SignalWrites(s, a, f);
      } else {
        ServiceWrites(s, a, f);
      }
    }
  }

  // ---- Throughout a run ----

  /** Some step of the run wrote the flag. */
  ghost predicate Written(mode: Mode, actions: seq<Action>, f: Flag) {
    exists i :: WrittenAt(mode, actions, f, i)
  }

  predicate WrittenAt(mode: Mode, actions: seq<Action>, f: Flag, i: nat) {
    i < |actions| && WritesFlag(Run(mode, actions[..i]), actions[i], f)
  }

  /** Throughout a run: both running flags are set until the first step that clears them, the other two are clear until
      the first step that sets them. */
  lemma {:induction false} FlagLaw(mode: Mode, actions: seq<Action>, f: Flag)
    ensures Value(Run(mode, actions), f) <==> ((f.Running? || f.ClientRunning?) != Written(mode, actions, f))
  {
    hide Step, Value, WritesFlag, Queued;
    if actions == [] {
      InitialValue(mode, f);
    } else {
      var before, a := actions[..|actions| - 1], actions[|actions| - 1];
      var s := Run(mode, before);
      FlagLaw(mode, before, f);
      OrderInvariant(mode, before);
      QueuedIfOrdered(s);
      StepWrites(s, a, f);
      WrittenMore(mode, actions, f);
    }
  }

  lemma InitialValue(mode: Mode, f: Flag)
    ensures Value(Initial(mode), f) <==> f.Running? || f.ClientRunning?
  {
  }

  lemma QueuedIfOrdered(s: State)
    requires Ordered(s)
    ensures Queued(s.queue)
  {
  }

  lemma WrittenMore(mode: Mode, actions: seq<Action>, f: Flag)
    requires actions != []
    ensures var before, a := actions[..|actions| - 1], actions[|actions| - 1];
            Written(mode, actions, f) <==> Written(mode, before, f) || WritesFlag(Run(mode, before), a, f)
  {
    hide WritesFlag, Run;
    var n := |actions| - 1;
    var before := actions[..n];
    assert WrittenAt(mode, actions, f, n) <==> WritesFlag(Run(mode, before), actions[n], f);
    forall i: nat | i < n ensures WrittenAt(mode, actions, f, i) <==> WrittenAt(mode, before, f, i) {
      assert before[..i] == actions[..i] && before[i] == actions[i];
    }
  }
}
