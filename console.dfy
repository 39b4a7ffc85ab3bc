/** main's controller as an object over the shared flags: each menu command
    updates the fields and the flag array in place, and each method is proved
    against the transition functions of module Control. */
module Console {
  import opened Config
  import opened Control
  import Worker

  class Controller {
    var runFlag: bool
    var menuPause: bool
    var messageIntervalMs: int
    const threadActive: array<bool>
    /** Every value stored into menuPause, oldest first. */
    ghost var pauseLog: seq<bool>

    ghost predicate Valid()
      reads this
    {
      threadActive.Length == ThreadCount
    }

    /** The shared flags as a value. */
    function State(): ControlState
      reads this, threadActive
    {
      ControlState(runFlag, menuPause, messageIntervalMs, threadActive[..])
    }

    /** The globals' initial values and the start of main (threads.cpp:75-77). */
    constructor ()
      ensures Valid() && fresh(threadActive)
      ensures State() == Initial() && pauseLog == []
    {
      runFlag := true;
      menuPause := false;
      messageIntervalMs := DefaultIntervalMs;
      threadActive := new bool[ThreadCount];
      pauseLog := [];
      new;
      SetAll(false);
    }

    /** `for (auto &flag : threadActive) flag.store(value);` */
    method SetAll(value: bool)
      requires Valid()
      modifies threadActive
      ensures threadActive[..] == AllSet(value)
    {
      for i := 0 to threadActive.Length
        invariant forall k :: 0 <= k < i ==> threadActive[k] == value
      {
        threadActive[i] := value;
      }
    }

    /** `menuPause.store(value)`, recorded in pauseLog. */
    method StorePause(value: bool)
      modifies this`menuPause, this`pauseLog
      ensures menuPause == value && pauseLog == old(pauseLog) + [value]
    {
      menuPause := value;
      pauseLog := pauseLog + [value];
    }

    /** showStatus: one reading of every worker flag, in worker order. */
    method ShowStatus() returns (snapshot: seq<bool>)
      requires Valid()
      ensures |snapshot| == ThreadCount
      ensures forall i :: 0 <= i < ThreadCount ==> snapshot[i] == threadActive[i]
    {
      snapshot := [];
      for i := 0 to threadActive.Length
        invariant snapshot == threadActive[..i]
      {
        snapshot := snapshot + [threadActive[i]];
      }
    }

    /** Menu item 2 after a well-formed id was read. */
    method ToggleThread(id: int) returns (outcome: Outcome)
      requires Valid()
      modifies threadActive
      ensures ValidId(id) ==>
                threadActive[id - 1] == !old(threadActive[id - 1]) &&
                outcome == Toggled(id, threadActive[id - 1])
      ensures forall j :: 0 <= j < ThreadCount && j != id - 1 ==> threadActive[j] == old(threadActive[j])
      ensures !ValidId(id) ==> outcome == NoSuchThread(id)
    {
      if id < 1 || id > ThreadCount {
        outcome := NoSuchThread(id);
        return;
      }
      var newState := !threadActive[id - 1];
      threadActive[id - 1] := newState;
      outcome := Toggled(id, newState);
    }

    /** Menu item 3 after a well-formed interval was read. */
    method SetInterval(requested: int) returns (outcome: Outcome)
      modifies this`messageIntervalMs
      ensures messageIntervalMs >= MinIntervalMs
      ensures requested >= MinIntervalMs ==> messageIntervalMs == requested
      ensures requested < MinIntervalMs ==> messageIntervalMs == MinIntervalMs
      ensures outcome == IntervalSet(messageIntervalMs)
    {
      var interval := Clamp(requested);
      messageIntervalMs := interval;
      outcome := IntervalSet(interval);
    }

    /** Menu item 4. */
    method StartAll() returns (outcome: Outcome)
      requires Valid()
      modifies threadActive
      ensures threadActive[..] == AllSet(true) && outcome == AllStarted
    {
      SetAll(true);
      outcome := AllStarted;
    }

    /** Menu item 5. */
    method StopAll() returns (outcome: Outcome)
      requires Valid()
      modifies threadActive
      ensures threadActive[..] == AllSet(false) && outcome == AllStopped
    {
      SetAll(false);
      outcome := AllStopped;
    }

    /** Menu item 0. */
    method Exit() returns (outcome: Outcome)
      modifies this`runFlag
      ensures !runFlag && outcome == Exiting
    {
      runFlag := false;
      outcome := Exiting;
    }

    /** The `switch (choice)` with its `waitAfterAction`. */
    method Step(choice: int, arg: Token) returns (outcome: Outcome, waitAfterAction: bool)
      requires Valid()
      modifies this`runFlag, this`messageIntervalMs, threadActive
      ensures StepResult(State(), outcome, waitAfterAction) == Apply(old(State()), choice, arg)
    {
      waitAfterAction := true;
      if choice == 1 {
        var snapshot := ShowStatus();
        assert snapshot == threadActive[..];
        outcome := Status(snapshot);
      } else if choice == 2 {
        match arg
        case Malformed =>
          outcome := BadThreadInput;
        case Num(id) =>
          outcome := ToggleThread(id);
          assert ValidId(id) ==> threadActive[..] == old(threadActive[..])[id - 1 := threadActive[id - 1]];
      } else if choice == 3 {
        match arg
        case Malformed =>
          outcome := BadIntervalInput;
        case Num(requested) =>
          outcome := SetInterval(requested);
      } else if choice == 4 {
        outcome := StartAll();
      } else if choice == 5 {
        outcome := StopAll();
      } else if choice == 0 {
        outcome := Exit();
        waitAfterAction := false;
      } else {
        outcome := NoSuchItem(choice);
      }
    }

    /** waitForEnter: menuPause is cleared while the controller blocks, on
        one character read from the terminal (waiting for Enter) or, without
        a terminal, for one interval, and set again afterwards. */
    method WaitForEnter(interactive: bool) returns (wait: Wait)
      modifies this`menuPause, this`pauseLog
      ensures menuPause && pauseLog == old(pauseLog) + [false, true]
      ensures wait == if interactive then AwaitEnter else Sleep(messageIntervalMs)
    {
      if !interactive {
        StorePause(false);
        wait := Sleep(messageIntervalMs);
        StorePause(true);
        return;
      }
      StorePause(false);
      wait := AwaitEnter;
      StorePause(true);
    }

    /** One pass of main's menu loop. */
    method MenuIteration(cmd: Command, interactive: bool) returns (outcome: Outcome, wait: Wait)
      requires Valid()
      modifies this, threadActive
      ensures var r := Iterate(old(State()), cmd, interactive);
        State() == r.state && outcome == r.outcome && wait == r.wait &&
        pauseLog == old(pauseLog) + r.stores
    {
      StorePause(true);
      match cmd.choice
      case Malformed =>
        StorePause(false);
        outcome, wait := BadMenuInput, NoWait;
      case Num(choice) =>
        var waitAfterAction;
        outcome, waitAfterAction := Step(choice, cmd.arg);
        if !runFlag {
          StorePause(false);
          wait := NoWait;
          return;
        }
        if waitAfterAction {
          wait := WaitForEnter(interactive);
        } else {
          // The short 50 ms pause of main's else-branch cannot be reached:
          // only choice 0 clears waitAfterAction, and it also clears runFlag,
          // so the loop has already been left above.
          assert false;
        }
    }

    /** main's `while (runFlag.load())` over a finite scripted input. */
    method RunMenu(cmds: seq<Command>, interactive: bool) returns (consumed: nat)
      requires Valid()
      modifies this, threadActive
      ensures var r := Session(old(State()), cmds, interactive);
        State() == r.state && consumed == r.consumed && pauseLog == old(pauseLog) + r.stores
    {
      ghost var whole := Session(State(), cmds, interactive);
      ghost var log0 := pauseLog;
      consumed := 0;
      while runFlag && consumed < |cmds|
        invariant Valid()
        invariant consumed <= |cmds|
        invariant var rest := Session(State(), cmds[consumed..], interactive);
          rest.state == whole.state && consumed + rest.consumed == whole.consumed &&
          pauseLog + rest.stores == log0 + whole.stores
        decreases |cmds| - consumed
      {
        SessionStep(State(), cmds, consumed, interactive, whole, log0, pauseLog);
        var _, _ := MenuIteration(cmds[consumed], interactive);
        consumed := consumed + 1;
      }
    }

    /** The flag clearing after the menu loop (threads.cpp:229-231). */
    method ShutdownFlags()
      requires Valid()
      modifies threadActive
      ensures State() == Shutdown(old(State()))
    {
      SetAll(false);
    }
  }

  /** main without the threads: set up the globals, run the menu over the
      scripted input, clear every worker flag. */
  method RunProgram(cmds: seq<Command>, interactive: bool) returns (final: ControlState)
    ensures final == Program(cmds, interactive)
  {
    var c := new Controller();
    var _ := c.RunMenu(cmds, interactive);
    c.ShutdownFlags();
    final := c.State();
  }

  /** Once main has shut down after the exit command, every worker's next
      decision is to terminate, so none can re-enter a work cycle before the
      join. */
  lemma WorkersTerminateAfterExit(cmds: seq<Command>, interactive: bool, i: int)
    requires FirstExit(cmds) < |cmds| && 0 <= i < ThreadCount
    ensures var p := Program(cmds, interactive);
      Worker.Decide(p.run, p.pause, p.active[i]) == Worker.Terminate
  {
    ProgramExit(cmds, interactive);
  }

  /** While the menu owns the console (menuPause set), no worker announces
      work, whatever its own flag says. */
  lemma NoWorkDuringMenu(s: ControlState, i: int)
    requires WellFormed(s) && s.pause && 0 <= i < ThreadCount
    ensures Worker.Decide(s.run, s.pause, s.active[i]) != Worker.Work
  {
  }
}
