/** The desktop client's session struct and the code that changes it, in the order of the source. Every stretch
    between two waits is a method, proved against the step of the state machine. */
module Desktop {
  import opened Bytes
  import DoubaoProtocol
  import opened Events
  import opened SendRing
  import opened DesktopSession
  import opened DesktopLimits

  class Desktop {
    const mode: Mode
    var main: MainPc
    var input: InputPc
    var service: ServicePc
    var running: bool
    var clientRunning: bool
    var sessionFinished: bool
    var sayHelloDone: bool
    var queue: Fifo<Command>

    /** As main leaves it once connected. */
    constructor (mode: Mode)
      ensures View() == Initial(mode)
    {
      this.mode := mode;
      main, input, service := Start, Absent, Serving;
      running, clientRunning, sessionFinished, sayHelloDone := true, true, false, false;
      queue := Fifo([], 0);
    }

    function View(): State
      reads this
    {
      State(mode, main, input, service, running, clientRunning, sessionFinished, sayHelloDone, queue)
    }

    // send_command: the ring takes it or refuses it, and nobody looks
    method SendCommand(c: Command)
      modifies this`queue
      ensures View() == Enqueue(old(View()), c)
    {
      queue := FifoStep(queue, Send(c, false));
    }

    // signal_handler
    method OnSignal()
      modifies this`running, this`clientRunning
      ensures View() == Step(old(View()), Signal)
    {
      running := false;
      clientRunning := false;
    }

    // the WRITEABLE branch of lws_callback
    method OnWriteable()
      requires service.Serving?
      modifies this`queue
      ensures View() == Step(old(View()), Write)
    {
      queue := FifoStep(queue, Writeable(0));
    }

    // LWS_CALLBACK_CLIENT_CLOSED
    method OnClosed()
      requires service.Serving?
      modifies this`clientRunning
      ensures View() == Step(old(View()), Closed)
    {
      clientRunning := false;
    }

    // the test of client_service_loop
    method TestClientRunning()
      requires service.Serving?
      modifies this`service
      ensures View() == Step(old(View()), ServiceExit)
    {
      if !clientRunning {
        service := Stopped;
      }
    }

    // on_ws_receive, up to the mutex
    method OnWsReceive(event: Event)
      requires service.Serving?
      modifies this`service, this`sessionFinished, this`running
      ensures View() == ReceiveStep(old(View()), event)
    {
      if event.TtsEnded? {
        if !sayHelloDone {
          service := Telling;
        }
      } else if event.SessionFinished? {
        sessionFinished := true;
      } else if event.ServerError? {
        running := false;
      }
    }

    // on_ws_receive: a full response with event 359 (the end of the greeting), 152 or 153 (the end of the session), and
    // an error message; nothing else reaches the session
    method OnMessage(messageType: byte, code: Option<int>)
      requires service.Serving?
      modifies this`service, this`sessionFinished, this`running
      ensures messageType == 9 && code == Some(359) ==> View() == Step(old(View()), Receive(TtsEnded))
      ensures messageType == 9 && (code == Some(152) || code == Some(153)) ==>
                View() == Step(old(View()), Receive(SessionFinished))
      ensures messageType == 15 ==> View() == Step(old(View()), Receive(ServerError))
      ensures messageType != 9 && messageType != 15 ==> View() == old(View())
      ensures messageType == 9 && (code.None? || code.value !in {359, 152, 153}) ==> View() == old(View())
    {
      hide MainStep, InputStep;
      if messageType == DoubaoProtocol.MSG_SERVER_FULL_RESPONSE {
        if code == Some(EVENT_TTS_ENDED) {
          OnWsReceive(TtsEnded);
        } else if code == Some(EVENT_SESSION_FINISH_1) || code == Some(EVENT_SESSION_FINISH_2) {
          OnWsReceive(SessionFinished);
        }
      } else if messageType == DoubaoProtocol.MSG_SERVER_ERROR {
        OnWsReceive(ServerError);
      }
    }

    // the locked section of case EVENT_TTS_ENDED
    method TellHello()
      requires service.Telling?
      modifies this`service, this`sayHelloDone, this`input
      ensures View() == ServiceStep(old(View()), Tell)
    {
      sayHelloDone := true;
      if input.Blocked? { // pthread_cond_signal
        input := AtGate;
      }
      service := Serving;
    }

    // the test of the wait loop, under the mutex
    method WaitForHello()
      requires input.AtGate?
      modifies this`input
      ensures View() == InputStep(old(View()), Nothing)
    {
      if !sayHelloDone && running {
        input := Blocked;
      } else {
        input := Checking;
      }
    }

    // the tests of `running` behind it and at the head of the sending loop
    method TestRunning()
      requires input.Checking? || input.Testing?
      modifies this`input
      ensures View() == InputStep(old(View()), Nothing)
    {
      if !running {
        input := Ended;
      } else if input.Checking? {
        input := Testing;
      } else {
        input := Capturing;
      }
    }

    // one pass of the sending loop of mic_input_thread_func or text_input_thread_func
    method SendInput(got: Got)
      requires input.Capturing?
      modifies this`input, this`queue
      ensures View() == InputStep(old(View()), got)
    {
      if got.Data? {
        SendCommand(if mode.Text? then ChatTextQuery else TaskRequest);
      } else if mode.Text? && got.EndOfFile? {
        input := Ended;
        return;
      }
      input := Testing;
    }

    // main, up to the input thread
    method OpenSession(ok: bool)
      requires Early(main)
      modifies this`main, this`input, this`running, this`queue
      ensures View() == MainStep(old(View()), ok)
    {
      if main.Start? {
        SendCommand(StartConnection);
        main := SendSession;
      } else if main.SendSession? {
        SendCommand(StartSession);
        main := SendHello;
      } else if main.SendHello? {
        if !mode.File? {
          SendCommand(SayHello);
        }
        main := Launch;
      } else if mode.File? {
        main := if ok then Playing else Waiting;
      } else {
        if mode.Mic? && !ok {
          running := false;
        } else {
          input := AtGate;
        }
        main := Waiting;
      }
    }

    // one pass of process_audio_file
    method PlayFile(ok: bool)
      requires main.Playing?
      modifies this`main, this`queue
      ensures View() == MainStep(old(View()), ok)
    {
      if running && ok {
        SendCommand(TaskRequest);
      } else {
        main := Waiting;
      }
    }

    // main, from its wait loop on
    method ShutDown(ok: bool)
      requires !Early(main) && !main.Playing?
      modifies this`main, this`input, this`running, this`clientRunning, this`queue
      ensures View() == MainStep(old(View()), ok)
    {
      hide FifoStep;
      if main.Waiting? {
        if !running || sessionFinished {
          main := Finishing;
        }
      } else if main.Finishing? {
        SendCommand(FinishSession);
        main := Draining;
      } else if main.Draining? {
        if sessionFinished || !ok {
          main := Leaving;
        }
      } else if main.Leaving? {
        SendCommand(FinishConnection);
        main := Closing;
      } else if main.Closing? {
        running := false;
        clientRunning := false;
        main := Joining;
      } else if main.Joining? {
        if service.Stopped? {
          main := Cancelling;
        }
      } else if main.Cancelling? {
        if !input.Absent? {
          input := Ended;
        }
        main := Done;
      }
    }

    // pthread_cond_wait may return without a signal
    method WakeSpuriously()
      modifies this`input
      ensures View() == Step(old(View()), Spurious)
    {
      if input.Blocked? {
        input := AtGate;
      }
    }

    /** What every step keeps: the gate, and the order of the commands. */
    ghost predicate Valid()
      reads this
    {
      Gated(View()) && Ordered(View())
    }

    ghost predicate Clean()
      reads this
    {
      Tidy(queue.accepted)
    }

    // the main thread
    method TakeMain(ok: bool)
      modifies this
      ensures View() == MainStep(old(View()), ok)
    {
      hide MainStep, FifoStep;
      if Early(main) {
        OpenSession(ok);
      } else if main.Playing? {
        PlayFile(ok);
      } else {
        ShutDown(ok);
      }
    }

    // the input thread
    method TakeInput(got: Got)
      modifies this
      ensures View() == InputStep(old(View()), got)
    {
      hide FifoStep;
      if input.AtGate? {
        WaitForHello();
      } else if input.Checking? || input.Testing? {
        TestRunning();
      } else if input.Capturing? {
        SendInput(got);
      }
    }

    // the service thread
    method TakeService(a: Action)
      requires a.Receive? || a.Tell? || a.Write? || a.Closed? || a.ServiceExit?
      modifies this
      ensures View() == ServiceStep(old(View()), a)
    {
      hide FifoStep;
      if service.Telling? {
        if a.Tell? {
          TellHello();
        }
      } else if service.Serving? {
        if a.Receive? {
          OnWsReceive(a.event);
        } else if a.Write? {
          OnWriteable();
        } else if a.Closed? {
          OnClosed();
        } else if a.ServiceExit? {
          TestClientRunning();
        }
      }
    }

    // one step of whichever thread takes it
    method Take(a: Action)
      requires Valid()
      modifies this
      ensures View() == Step(old(View()), a) && Valid()
      ensures Clean() <==> old(Clean()) && !Late(old(View()), a)
    {
      hide MainStep, InputStep, ServiceStep, Gated, Ordered, Tidy, Late;
      GatedStep(View(), a);
      OrderedStep(View(), a);
      TidyStep(View(), a);
      if a.Main? {
        TakeMain(a.ok);
      } else if a.Input? {
        TakeInput(a.got);
      } else if a.Spurious? {
        WakeSpuriously();
      } else if a.Signal? {
        OnSignal();
      } else {
        TakeService(a);
      }
    }
  }

  /** A whole run of the client: no input is queued before event 359 was handled, except from a file; what lws_write
      got is the prologue as far as it got, then input and the finishing commands in order; and no input follows a
      finishing command exactly if no step was late. */
  method AnyRun(mode: Mode, actions: seq<Action>) returns (d: Desktop)
    ensures d.View() == Run(mode, actions) && d.Valid()
    ensures !mode.File? && !NoInput(d.queue.accepted) ==> Told(actions)
    ensures d.queue.handed <= |d.queue.accepted|
            && (d.queue.accepted[..d.queue.handed] <= Prologue(mode)
                || (Prologue(mode) <= d.queue.accepted[..d.queue.handed]
                    && Body(mode, d.queue.accepted[..d.queue.handed], |Prologue(mode)|)))
            && Finished(Endings(d.queue.accepted[..d.queue.handed]))
    ensures d.Clean() <==> NeverLate(mode, actions)
  {
    hide Step, Gated, Ordered, Tidy, Late, NoInput, Told, Body, Endings, Finished, Prologue;
    d := new Desktop(mode);
    InitialGated(mode);
    InitialOrdered(mode);
    var i := 0;
    assert actions[..0] == [];
    while i < |actions|
      invariant i <= |actions| && fresh(d)
      invariant d.View() == Run(mode, actions[..i]) && d.Valid()
    {
      assert actions[..i + 1][..i] == actions[..i];
      d.Take(actions[i]);
      i := i + 1;
    }
    assert actions[..i] == actions;
    if !mode.File? && !NoInput(d.queue.accepted) {
      GateHolds(mode, actions);
    }
    WireOrder(mode, actions);
    TidyExactly(mode, actions);
  }
}
