/** The controller's shared state and the menu as a pure transition system:
    one menu command (the `switch` in main), one iteration of the menu loop
    with its pause-flag bookkeeping, the whole loop over a scripted input,
    and the shutdown that follows it. */
module Control {
  import opened Config

  /** runFlag, menuPause, messageIntervalMs and threadActive[0..2]. */
  datatype ControlState = ControlState(run: bool, pause: bool, intervalMs: int, active: seq<bool>)

  /** What one `cin >> n` yields: an integer, or a token that is not one. */
  datatype Token = Num(n: int) | Malformed

  /** What the controller reports for one menu command. */
  datatype Outcome =
    | BadMenuInput
    | Status(snapshot: seq<bool>)
    | BadThreadInput
    | NoSuchThread(id: int)
    | Toggled(id: int, nowActive: bool)
    | BadIntervalInput
    | IntervalSet(ms: int)
    | AllStarted
    | AllStopped
    | Exiting
    | NoSuchItem(choice: int)

  /** The state after one command, its report and main's `waitAfterAction`. */
  datatype StepResult = StepResult(state: ControlState, outcome: Outcome, waitAfterAction: bool)

  /** One round of operator input: the menu choice and, for choices 2 and 3,
      the integer read after it. */
  datatype Command = Command(choice: Token, arg: Token)

  /** How the controller blocks at the end of a menu iteration: not at all,
      on one character read from a terminal (waiting for Enter), or for a
      fixed time. */
  datatype Wait = NoWait | AwaitEnter | Sleep(ms: int)

  /** One menu iteration: the new state, its report, every value stored into
      menuPause in order, and how the controller then blocked. */
  datatype IterResult = IterResult(state: ControlState, outcome: Outcome, stores: seq<bool>, wait: Wait)

  /** The menu loop over a scripted input: the final state, all stores into
      menuPause, and how many commands were read. */
  datatype SessionResult = SessionResult(state: ControlState, stores: seq<bool>, consumed: nat)

  predicate WellFormed(s: ControlState) {
    |s.active| == ThreadCount
  }

  /** The invariant the controller keeps: one flag per worker and an
      interval never below the floor. */
  predicate Consistent(s: ControlState) {
    WellFormed(s) && s.intervalMs >= MinIntervalMs
  }

  predicate ValidId(id: int) {
    1 <= id <= ThreadCount
  }

  /** Every worker flag set to `value`. */
  function AllSet(value: bool): (a: seq<bool>)
    ensures |a| == ThreadCount
    ensures forall i :: 0 <= i < |a| ==> a[i] == value
  {
    seq(ThreadCount, _ => value)
  }

  /** The state at the start of main: running, not paused, 500 ms, every
      worker inactive. */
  function Initial(): (s: ControlState)
    ensures Consistent(s)
  {
    ControlState(true, false, DefaultIntervalMs, AllSet(false))
  }

  /** `max(requested, kMinIntervalMs)`. */
  function Clamp(requested: int): (ms: int)
    ensures ms >= MinIntervalMs
    ensures requested >= MinIntervalMs ==> ms == requested
    ensures ms == requested || ms == MinIntervalMs
  {
    if requested < MinIntervalMs then MinIntervalMs else requested
  }

  /** Reports that change nothing in the control state. */
  predicate Rejected(o: Outcome) {
    o.BadThreadInput? || o.NoSuchThread? || o.BadIntervalInput? || o.NoSuchItem?
  }

  /** The `switch (choice)` in main. */
  function Apply(s: ControlState, choice: int, arg: Token): (r: StepResult)
    requires WellFormed(s)
    ensures WellFormed(r.state)
    ensures r.state.pause == s.pause
    ensures r.state.run == (s.run && choice != 0)
    ensures r.waitAfterAction == (choice != 0)
    ensures r.state.intervalMs != s.intervalMs ==>
              choice == 3 && r.state.intervalMs >= MinIntervalMs && r.outcome == IntervalSet(r.state.intervalMs)
    ensures r.state.active != s.active ==> choice in {2, 4, 5}
    ensures Rejected(r.outcome) || r.outcome.Status? ==> r.state == s
    ensures r.outcome.Status? ==> r.outcome.snapshot == s.active
    ensures choice == 1 ==> r.state == s && r.outcome == Status(s.active)
    ensures choice == 2 && arg.Malformed? ==> r.state == s && r.outcome == BadThreadInput
    ensures choice == 2 && arg.Num? && !ValidId(arg.n) ==> r.state == s && r.outcome == NoSuchThread(arg.n)
    ensures choice == 2 && arg.Num? && ValidId(arg.n) ==>
              r.state.active[arg.n - 1] == !s.active[arg.n - 1] &&
              (forall j :: 0 <= j < ThreadCount && j != arg.n - 1 ==> r.state.active[j] == s.active[j]) &&
              r.state.run == s.run && r.state.intervalMs == s.intervalMs &&
              r.outcome == Toggled(arg.n, r.state.active[arg.n - 1])
    ensures choice == 3 && arg.Malformed? ==> r.state == s && r.outcome == BadIntervalInput
    ensures choice == 3 && arg.Num? ==>
              r.state == s.(intervalMs := Clamp(arg.n)) && r.outcome == IntervalSet(Clamp(arg.n))
    ensures choice == 4 ==> r.state == s.(active := AllSet(true)) && r.outcome == AllStarted
    ensures choice == 5 ==> r.state == s.(active := AllSet(false)) && r.outcome == AllStopped
    ensures choice == 0 ==> r.state == s.(run := false) && r.outcome == Exiting
    ensures !(0 <= choice <= 5) ==> r.state == s && r.outcome == NoSuchItem(choice)
  {
    if choice == 1 then
      StepResult(s, Status(s.active), true)
    else if choice == 2 then
      match arg
      case Malformed => StepResult(s, BadThreadInput, true)
      case Num(id) =>
        if !ValidId(id) then StepResult(s, NoSuchThread(id), true)
        else
          var now := !s.active[id - 1];
          StepResult(s.(active := s.active[id - 1 := now]), Toggled(id, now), true)
    else if choice == 3 then
      match arg
      case Malformed => StepResult(s, BadIntervalInput, true)
      case Num(requested) =>
        var ms := Clamp(requested);
        StepResult(s.(intervalMs := ms), IntervalSet(ms), true)
    else if choice == 4 then
      StepResult(s.(active := AllSet(true)), AllStarted, true)
    else if choice == 5 then
      StepResult(s.(active := AllSet(false)), AllStopped, true)
    else if choice == 0 then
      StepResult(s.(run := false), Exiting, false)
    else
      StepResult(s, NoSuchItem(choice), true)
  }

  /** One pass of main's `while (runFlag.load())` body. The loop goes on
      exactly when the resulting state still runs. */
  function Iterate(s: ControlState, cmd: Command, interactive: bool): (r: IterResult)
    requires WellFormed(s)
    ensures WellFormed(r.state)
    ensures r.state.run ==> s.run
    ensures |r.stores| >= 2 && r.stores[0] && r.stores[|r.stores| - 1] == r.state.pause
    ensures r.state.pause <==> r.state.run && cmd.choice.Num?
    ensures r.wait != NoWait ==> r.stores == [true, false, true]
    ensures cmd.choice.Malformed? ==>
              r.state == s.(pause := false) && r.outcome == BadMenuInput &&
              r.stores == [true, false] && r.wait == NoWait
    ensures cmd.choice.Num? ==>
              var step := Apply(s.(pause := true), cmd.choice.n, cmd.arg);
              r.state == step.state.(pause := r.state.run) && r.outcome == step.outcome
    ensures cmd.choice.Num? && r.state.run ==>
              r.wait == (if interactive then AwaitEnter else Sleep(r.state.intervalMs))
    ensures !r.state.run ==> r.wait == NoWait && r.stores == [true, false]
  {
    var s1 := s.(pause := true);
    match cmd.choice
    case Malformed =>
      IterResult(s1.(pause := false), BadMenuInput, [true, false], NoWait)
    case Num(choice) =>
      var step := Apply(s1, choice, cmd.arg);
      var s2 := step.state;
      if !s2.run then
        IterResult(s2.(pause := false), step.outcome, [true, false], NoWait)
      else if step.waitAfterAction then
        IterResult(s2.(pause := true), step.outcome, [true, false, true],
                   if interactive then AwaitEnter else Sleep(s2.intervalMs))
      else
        IterResult(s2.(pause := true), step.outcome, [true, false, true], Sleep(PauseCheckMs))
  }

  /** main's menu loop over a finite scripted input: it stops once runFlag
      is false or the input is used up. */
  function Session(s: ControlState, cmds: seq<Command>, interactive: bool): (r: SessionResult)
    requires WellFormed(s)
    ensures WellFormed(r.state)
    ensures r.consumed <= |cmds|
    ensures r.state.run ==> s.run
    decreases |cmds|
  {
    if !s.run || cmds == [] then SessionResult(s, [], 0)
    else
      var it := Iterate(s, cmds[0], interactive);
      var rest := Session(it.state, cmds[1..], interactive);
      SessionResult(rest.state, it.stores + rest.stores, rest.consumed + 1)
  }

  /** One turn of the menu loop, read at position i of the input: what is
      left of the session after it is the session from the next command. */
  lemma SessionStep(s: ControlState, cmds: seq<Command>, i: nat, interactive: bool,
                    whole: SessionResult, log0: seq<bool>, log: seq<bool>)
    requires WellFormed(s) && s.run && i < |cmds|
    requires var rest := Session(s, cmds[i..], interactive);
      rest.state == whole.state && i + rest.consumed == whole.consumed && log + rest.stores == log0 + whole.stores
    ensures var it := Iterate(s, cmds[i], interactive);
      var rest := Session(it.state, cmds[i + 1..], interactive);
      rest.state == whole.state && i + 1 + rest.consumed == whole.consumed &&
      (log + it.stores) + rest.stores == log0 + whole.stores
  {
    assert cmds[i..][0] == cmds[i];
    assert cmds[i..][1..] == cmds[i + 1..];
    var it := Iterate(s, cmds[i], interactive);
    var rest := Session(it.state, cmds[i + 1..], interactive);
    assert (log + it.stores) + rest.stores == log + (it.stores + rest.stores);
  }

  /** The loop after the menu (threads.cpp:229-231): every worker flag false. */
  function Shutdown(s: ControlState): (r: ControlState)
    ensures WellFormed(r) && forall i :: 0 <= i < |r.active| ==> !r.active[i]
    ensures r.run == s.run && r.pause == s.pause && r.intervalMs == s.intervalMs
  {
    s.(active := AllSet(false))
  }

  /** The control state main leaves behind for the join. */
  function Program(cmds: seq<Command>, interactive: bool): (r: ControlState)
    ensures Consistent(r) && forall i :: 0 <= i < |r.active| ==> !r.active[i]
  {
    SessionConsistent(Initial(), cmds, interactive);
    Shutdown(Session(Initial(), cmds, interactive).state)
  }

  /** Position of the first exit command (choice 0), or |cmds| if none. */
  function FirstExit(cmds: seq<Command>): (k: nat)
    ensures k <= |cmds|
    ensures forall j :: 0 <= j < k ==> cmds[j].choice != Num(0)
    ensures k < |cmds| ==> cmds[k].choice == Num(0)
  {
    if cmds == [] then 0
    else if cmds[0].choice == Num(0) then 0
    else 1 + FirstExit(cmds[1..])
  }

  /** Toggle commands (choice 2) for each id in turn. */
  function ToggleSeq(s: ControlState, ids: seq<int>): (r: ControlState)
    requires WellFormed(s)
    ensures WellFormed(r)
    ensures r.run == s.run && r.pause == s.pause && r.intervalMs == s.intervalMs
    decreases |ids|
  {
    if ids == [] then s else ToggleSeq(Apply(s, 2, Num(ids[0])).state, ids[1..])
  }

  function Occurrences(ids: seq<int>, id: int): nat {
    if ids == [] then 0 else (if ids[0] == id then 1 else 0) + Occurrences(ids[1..], id)
  }

  // ---------------------------------------------------------------------
  // Properties of the menu commands

  /** Toggling an id twice restores the whole control state, for valid and
      invalid ids alike. */
  lemma ToggleTwiceRestores(s: ControlState, id: int)
    requires WellFormed(s)
    ensures Apply(Apply(s, 2, Num(id)).state, 2, Num(id)).state == s
  {
  }

  /** After any sequence of toggles, worker i is active exactly when it
      started active XOR it was toggled an odd number of times. */
  lemma {:induction false} ToggleParity(s: ControlState, ids: seq<int>, i: int)
    requires WellFormed(s) && 0 <= i < ThreadCount
    ensures ToggleSeq(s, ids).active[i] == (s.active[i] != (Occurrences(ids, i + 1) % 2 == 1))
    decreases |ids|
  {
    if ids != [] {
      var s1 := Apply(s, 2, Num(ids[0])).state;
      ToggleParity(s1, ids[1..], i);
      assert s1.active[i] == (s.active[i] != (ids[0] == i + 1));
    }
  }

  /** The interval floor and the shape of the flag array survive any run of
      the menu loop. */
  lemma {:induction false} SessionConsistent(s: ControlState, cmds: seq<Command>, interactive: bool)
    requires Consistent(s)
    ensures Consistent(Session(s, cmds, interactive).state)
    decreases |cmds|
  {
    if s.run && cmds != [] {
      SessionConsistent(Iterate(s, cmds[0], interactive).state, cmds[1..], interactive);
    }
  }

  /** Starting from a running state, the menu loop reads commands up to and
      including the first exit command, and it clears runFlag exactly when
      the input holds one; nothing sets runFlag back to true. */
  lemma {:induction false} SessionExit(s: ControlState, cmds: seq<Command>, interactive: bool)
    requires WellFormed(s) && s.run
    ensures var r := Session(s, cmds, interactive);
      (!r.state.run <==> FirstExit(cmds) < |cmds|) &&
      r.consumed == if FirstExit(cmds) < |cmds| then FirstExit(cmds) + 1 else |cmds|
    decreases |cmds|
  {
    if cmds != [] {
      var it := Iterate(s, cmds[0], interactive);
      if cmds[0].choice != Num(0) {
        assert it.state.run;
        SessionExit(it.state, cmds[1..], interactive);
      }
    }
  }

  /** menuPause is set at the start of every iteration and is the last value
      stored in it when the loop stops; it is false when the loop stops on
      the exit command. */
  lemma {:induction false} SessionPauseStores(s: ControlState, cmds: seq<Command>, interactive: bool)
    requires WellFormed(s)
    ensures var r := Session(s, cmds, interactive);
      (r.consumed > 0 ==> |r.stores| >= 2 && r.stores[0] && r.stores[|r.stores| - 1] == r.state.pause) &&
      (r.consumed == 0 ==> r.stores == [] && r.state == s) &&
      (s.run && !r.state.run ==> !r.state.pause)
    decreases |cmds|
  {
    if s.run && cmds != [] {
      var it := Iterate(s, cmds[0], interactive);
      SessionPauseStores(it.state, cmds[1..], interactive);
    }
  }

  /** After the menu loop ends on the exit command, main has cleared runFlag,
      menuPause and every worker flag, and kept the interval floor. */
  lemma ProgramExit(cmds: seq<Command>, interactive: bool)
    requires FirstExit(cmds) < |cmds|
    ensures var p := Program(cmds, interactive);
      !p.run && !p.pause && p.active == AllSet(false) && p.intervalMs >= MinIntervalMs
  {
    SessionExit(Initial(), cmds, interactive);
    SessionConsistent(Initial(), cmds, interactive);
    SessionPauseStores(Initial(), cmds, interactive);
  }
}
