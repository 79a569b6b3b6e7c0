/** What the desktop client's run does not keep: the exact conditions, and runs that meet them. */
module DesktopLimits {
  import opened SendRing
  import opened DesktopSession

  // ------------------------------------------------------------------------------------------------
  // Runs that show what does not hold

  lemma Extend(mode: Mode, actions: seq<Action>, a: Action)
    ensures Run(mode, actions + [a]) == Step(Run(mode, actions), a)
  {
    hide Step;
    assert (actions + [a])[..|actions|] == actions;
  }

  /** The microphone thread sleeps at the gate. */
  lemma ReachBlocked() returns (r: seq<Action>)
    ensures Run(Mic, r) == State(Mic, Waiting, Blocked, Serving, true, true, false, false,
                                 Fifo([StartConnection, StartSession, SayHello], 0))
  {
    hide After;
    r := [];
    assert Run(Mic, r) == Initial(Mic) by { NoActions(Mic); }
    Extend(Mic, r, Main(true));
    r := r + [Main(true)];
    Extend(Mic, r, Main(true));
    r := r + [Main(true)];
    Extend(Mic, r, Main(true));
    r := r + [Main(true)];
    Extend(Mic, r, Main(true));
    r := r + [Main(true)];
    Extend(Mic, r, Input(Nothing));
    r := r + [Input(Nothing)];
  }

  lemma NoActions(mode: Mode)
    ensures Run(mode, []) == Initial(mode)
  {
  }

  /** A server error ends the run while the input thread still sleeps: clearing `running` signals nobody. */
  lemma SleepsThroughError() returns (r: seq<Action>)
    ensures var s := Run(Mic, r); s.input.Blocked? && !s.running && !s.hello
  {
    hide After;
    r := ReachBlocked();
    Extend(Mic, r, Receive(ServerError));
    r := r + [Receive(ServerError)];
  }

  /** Past the gate and reading the microphone. */
  lemma ReachCapturing() returns (r: seq<Action>)
    ensures Run(Mic, r) == State(Mic, Waiting, Capturing, Serving, true, true, false, true,
                                 Fifo([StartConnection, StartSession, SayHello], 0))
  {
    hide After;
    r := ReachBlocked();
    Extend(Mic, r, Receive(TtsEnded));
    r := r + [Receive(TtsEnded)];
    Extend(Mic, r, Tell);
    r := r + [Tell];
    Extend(Mic, r, Input(Nothing));
    r := r + [Input(Nothing)];
    Extend(Mic, r, Input(Nothing));
    r := r + [Input(Nothing)];
    Extend(Mic, r, Input(Nothing));
    r := r + [Input(Nothing)];
  }

  // ------------------------------------------------------------------------------------------------
  // Losing the connection

  predicate Stranded(s: State) {
    s.main.Waiting? && s.service.Stopped? && s.running && !s.finished
  }

  /** Once the connection is gone and the service thread has stopped, the main thread waits for a session end that
      nobody can report any more, until a signal comes. */
  lemma {:induction false} StrandedMain(s: State, actions: seq<Action>)
    requires Stranded(s)
    requires forall i :: 0 <= i < |actions| ==> !actions[i].Signal?
    ensures Stranded(After(s, actions))
  {
    hide Step, Stranded;
    if actions != [] {
      StrandedMain(s, actions[..|actions| - 1]);
      StrandedStep(After(s, actions[..|actions| - 1]), actions[|actions| - 1]);
    }
  }

  lemma StrandedStep(s: State, a: Action)
    requires Stranded(s)
    ensures Stranded(Step(s, a)) <==> !a.Signal?
  {
    hide InputStep;
    if a.Main? {
    } else if a.Input? {
      InputKeeps(s, a.got);
    } else {
    }
  }

  /** The connection breaks in the middle of a session. */
  lemma ReachStranded() returns (r: seq<Action>)
    ensures Stranded(Run(Mic, r))
  {
    hide After;
    r := ReachCapturing();
    Extend(Mic, r, Closed);
    r := r + [Closed];
    Extend(Mic, r, ServiceExit);
    r := r + [ServiceExit];
  }

  // ------------------------------------------------------------------------------------------------
  // Input behind the finishing commands

  /** No audio and no question follows a finishing command. */
  predicate Tidy(commands: seq<Command>) {
    forall i, j :: 0 <= i < j < |commands| && Ending(commands[i]) ==> !IsInput(commands[j])
  }

  /** The input thread, past its last look at `running`, has something to send, the ring has room, and a finishing
      command is queued already. */
  predicate Late(s: State, a: Action) {
    a.Input? && s.input.Capturing? && a.got.Data? && Room(s.queue) && Endings(s.queue.accepted) != []
  }

  predicate Room(q: Fifo<Command>) {
    |q.accepted| - q.handed != 63
  }

  lemma {:induction false} SomeEnding(commands: seq<Command>)
    ensures Endings(commands) != [] <==> exists i :: 0 <= i < |commands| && Ending(commands[i])
  {
    if commands != [] {
      var before := commands[..|commands| - 1];
      SomeEnding(before);
      assert forall i :: 0 <= i < |before| ==> before[i] == commands[i];
    }
  }

  lemma TidyPush(commands: seq<Command>, c: Command)
    ensures Tidy(commands + [c]) <==> Tidy(commands) && !(IsInput(c) && Endings(commands) != [])
  {
    hide Ending, IsInput;
    var longer := commands + [c];
    SomeEnding(commands);
    assert forall i :: 0 <= i < |commands| ==> longer[i] == commands[i];
    if IsInput(c) && Endings(commands) != [] {
      var i :| 0 <= i < |commands| && Ending(commands[i]);
      assert Ending(longer[i]) && IsInput(longer[|commands|]);
    } else if Tidy(longer) {
      forall i, j | 0 <= i < j < |commands| && Ending(commands[i]) ensures !IsInput(commands[j]) {
        assert Ending(longer[i]) && longer[j] == commands[j];
      }
    }
  }

  lemma EnqueueTidy(s: State, c: Command)
    ensures Tidy(Enqueue(s, c).queue.accepted) <==>
            Tidy(s.queue.accepted) && !(IsInput(c) && Room(s.queue) && Endings(s.queue.accepted) != [])
  {
    hide Tidy, Endings, IsInput;
    TidyPush(s.queue.accepted, c);
  }

  lemma MainTidy(s: State, ok: bool)
    requires Ordered(s)
    ensures Tidy(MainStep(s, ok).queue.accepted) <==> Tidy(s.queue.accepted)
  {
    hide Tidy, Enqueue, Ordered, Endings;
    NothingEnded(s);
    if s.main.Start? {
      EnqueueTidy(s, StartConnection);
    } else if s.main.SendSession? {
      EnqueueTidy(s, StartSession);
    } else if s.main.SendHello? {
      EnqueueTidy(s, SayHello);
    } else if s.main.Playing? {
      EnqueueTidy(s, TaskRequest);
    } else if s.main.Finishing? {
      EnqueueTidy(s, FinishSession);
    } else if s.main.Leaving? {
      EnqueueTidy(s, FinishConnection);
    } else {
    }
  }

  lemma NothingEnded(s: State)
    requires Ordered(s)
    ensures s.main.Playing? ==> Endings(s.queue.accepted) == []
  {
  }

  lemma InputTidy(s: State, got: Got)
    ensures Tidy(InputStep(s, got).queue.accepted) <==> Tidy(s.queue.accepted) && !Late(s, Input(got))
  {
    hide Tidy, Enqueue, Endings, Room;
    if s.input.Capturing? && got.Data? {
      EnqueueTidy(s, InputCommand(s.mode));
    } else {
    }
  }

  /** A step leaves the commands tidy exactly if it is not late. */
  lemma TidyStep(s: State, a: Action)
    requires Ordered(s)
    ensures Tidy(Step(s, a).queue.accepted) <==> Tidy(s.queue.accepted) && !Late(s, a)
  {
    hide MainStep, InputStep, Tidy, Ordered, Endings, Room;
    if a.Main? {
      MainTidy(s, a.ok);
    } else if a.Input? {
      InputTidy(s, a.got);
    } else {
    }
  }

  predicate NeverLate(mode: Mode, actions: seq<Action>) {
    actions == [] ||
    var before := actions[..|actions| - 1];
    NeverLate(mode, before) && !Late(Run(mode, before), actions[|actions| - 1])
  }

  /** In any run: no input follows a finishing command exactly if no step of the run was late. */
  lemma {:induction false} TidyExactly(mode: Mode, actions: seq<Action>)
    ensures Tidy(Run(mode, actions).queue.accepted) <==> NeverLate(mode, actions)
  {
    hide Step, Late, Tidy, Ordered;
    if actions == [] {
      assert Tidy([]) by { NothingTidy(); }
    } else {
      var before, a := actions[..|actions| - 1], actions[|actions| - 1];
      TidyExactly(mode, before);
      OrderInvariant(mode, before);
      TidyStep(Run(mode, before), a);
    }
  }

  lemma NothingTidy()
    ensures Tidy([])
  {
  }

  /** Playing a file never is. */
  lemma {:induction false} FileIsTidy(mode: Mode, actions: seq<Action>)
    requires mode.File?
    ensures NeverLate(mode, actions)
  {
    hide Step, NoInput, Endings, Room;
    if actions != [] {
      var before := actions[..|actions| - 1];
      FileIsTidy(mode, before);
      GateInvariant(mode, before);
      SameMode(mode, before);
    }
  }

  /** The input thread is not stopped before the session is finished: audio may follow both finishing commands. */
  lemma LateInput() returns (r: seq<Action>)
    ensures Run(Mic, r).queue.accepted ==
            [StartConnection, StartSession, SayHello, FinishSession, FinishConnection, TaskRequest]
  {
    hide After;
    r := ReachCapturing();
    Extend(Mic, r, Receive(SessionFinished));
    r := r + [Receive(SessionFinished)];
    Extend(Mic, r, Main(true));
    r := r + [Main(true)];
    Extend(Mic, r, Main(true));
    r := r + [Main(true)];
    Extend(Mic, r, Main(true));
    r := r + [Main(true)];
    Extend(Mic, r, Main(true));
    r := r + [Main(true)];
    Extend(Mic, r, Input(Data));
    r := r + [Input(Data)];
  }

  /** A session to its end: question and answer by keyboard, everything written, main done. */
  lemma ReachDone() returns (r: seq<Action>)
    ensures Run(Text, r) == State(Text, Done, Ended, Stopped, false, false, true, true,
                                  Fifo([StartConnection, StartSession, SayHello, ChatTextQuery, FinishSession,
                                        FinishConnection], 6))
  {
    hide After;
    r := ReachAsked();
    Extend(Text, r, Receive(SessionFinished));
    r := r + [Receive(SessionFinished)];
    Extend(Text, r, Main(true));
    r := r + [Main(true)];
    Extend(Text, r, Main(true));
    r := r + [Main(true)];
    Extend(Text, r, Main(true));
    r := r + [Main(true)];
    Extend(Text, r, Main(true));
    r := r + [Main(true)];
    r := WrittenUp(r);
    Extend(Text, r, Main(true));
    r := r + [Main(true)];
    Extend(Text, r, ServiceExit);
    r := r + [ServiceExit];
    Extend(Text, r, Main(true));
    r := r + [Main(true)];
    Extend(Text, r, Main(true));
    r := r + [Main(true)];
  }

  /** The keyboard thread is at the gate. */
  lemma ReachTextGate() returns (r: seq<Action>)
    ensures Run(Text, r) == State(Text, Waiting, AtGate, Serving, true, true, false, false,
                                  Fifo([StartConnection, StartSession, SayHello], 0))
  {
    hide After;
    r := [];
    assert Run(Text, r) == Initial(Text) by { NoActions(Text); }
    Extend(Text, r, Main(true));
    r := r + [Main(true)];
    Extend(Text, r, Main(true));
    r := r + [Main(true)];
    Extend(Text, r, Main(true));
    r := r + [Main(true)];
    Extend(Text, r, Main(true));
    r := r + [Main(true)];
  }

  /** A question was typed. */
  lemma ReachAsked() returns (r: seq<Action>)
    ensures Run(Text, r) == State(Text, Waiting, Testing, Serving, true, true, false, true,
                                  Fifo([StartConnection, StartSession, SayHello, ChatTextQuery], 0))
  {
    hide After;
    r := ReachTextGate();
    Extend(Text, r, Receive(TtsEnded));
    r := r + [Receive(TtsEnded)];
    Extend(Text, r, Tell);
    r := r + [Tell];
    Extend(Text, r, Input(Nothing));
    r := r + [Input(Nothing)];
    Extend(Text, r, Input(Nothing));
    r := r + [Input(Nothing)];
    Extend(Text, r, Input(Nothing));
    r := r + [Input(Nothing)];
    Extend(Text, r, Input(Data));
    r := r + [Input(Data)];
  }

  /** The service thread writes whatever waits. */
  lemma {:induction false} WrittenUp(before: seq<Action>) returns (r: seq<Action>)
    requires var s := Run(Text, before); s.service.Serving? && s.queue.handed <= |s.queue.accepted|
    ensures var s := Run(Text, before); Run(Text, r) == s.(queue := Fifo(s.queue.accepted, |s.queue.accepted|))
    decreases |Run(Text, before).queue.accepted| - Run(Text, before).queue.handed
  {
    hide After;
    r := before;
    if Run(Text, before).queue.handed < |Run(Text, before).queue.accepted| {
      Extend(Text, before, Write);
      r := WrittenUp(before + [Write]);
    }
  }
}
