# Console controller for three worker threads — Dafny model

The program runs three background worker threads and a text menu that
controls them through shared flags: `runFlag` (the whole system keeps
running), `menuPause` (workers keep quiet while the menu owns the console),
`messageIntervalMs` (the work-cycle length, default 500 ms, floor 100 ms) and
`threadActive[0..2]` (which workers do work; all off at start).

This project models the sequential core under the threads:

- `config.dfy` — module `Config`: the constants (3 workers, 50 ms pause poll,
  100 ms floor, 500 ms default, 100 ms idle poll and sleep chunk).
- `control.dfy` — module `Control`: the control state as a value and the
  menu as a pure transition system. `Apply` is the `switch (choice)` of
  `main`; `Iterate` is one pass of the menu loop, including every store into
  `menuPause` and how the controller then blocks; `Session` is the whole loop
  over a finite scripted input; `Shutdown` and `Program` add the flag
  clearing after the loop. Input is a sequence of `Command`s. Each one holds
  the menu token and the integer token read after it for choices 2 and 3.
  A `Token` is an integer or `Malformed`, which is what a failed `cin >> n`
  leaves.
- `worker.dfy` — module `Worker`: the per-iteration decision of
  `threadFunc` (`Decide`) and its chunked sleep (`ChunkedSleep`). The flags
  that another thread may change during the sleep come from an oracle
  `observe: nat -> Poll`, read once per check of the loop guard.
- `console.dfy` — module `Console`: class `Controller` holds the globals as
  fields and `threadActive` as an `array<bool>`. Each menu command is a
  method that updates them in place and is proved against `Control.Apply`.
  `MenuIteration` is proved against `Iterate`, `RunMenu` against `Session`,
  and `RunProgram` (main without the threads) against `Program`. A ghost
  field `pauseLog` records every value stored into `menuPause`.

The else-branch at threads.cpp:222-226 (a 50 ms pause when `waitAfterAction`
is false) cannot be reached. Only choice 0 clears `waitAfterAction`. That
choice also clears `runFlag`, so the loop is left at threads.cpp:215-218
first. `Apply`'s contract shows this (`waitAfterAction == (choice != 0)` and
`run == (old run && choice != 0)`). `Iterate` keeps the branch as written;
`Controller.MenuIteration` marks it with `assert false`.

## Model

| member | source | states |
|---|---|---|
| `Control.Initial` | threads.cpp:20-24 | the start state (running, not paused, 500 ms, all workers inactive) satisfies the controller's invariant: three flags and an interval at or above the floor |
| `Control.Clamp` | threads.cpp:186-187 | the stored interval is `max(requested, 100)`: never below 100, and equal to the request whenever the request is at least 100 |
| `Control.Apply` | threads.cpp:133-213 | one menu command, case by case: status (1) changes nothing and reports the current flags; toggle (2) with a malformed id, or an id outside 1..3, changes nothing and reports that; with a valid id it flips exactly that worker's flag, leaves the other flags, runFlag and the interval alone, and reports the new value; set interval (3) with a malformed value changes nothing, otherwise it stores and reports `max(requested, 100)`; start all (4) and stop all (5) set every flag true or false and nothing else; exit (0) clears runFlag only; any other choice changes nothing and reports no such item. The pause flag is never touched, `waitAfterAction` is false exactly on choice 0, and runFlag never becomes true again |
| `Control.Iterate` | threads.cpp:110-226 | one menu iteration: menuPause is stored true first; malformed input then stores it false, so the stores are exactly true then false, changes nothing else and does not wait; a well-formed choice gives `Apply`'s new state and report; if that leaves runFlag true the controller then waits for confirmation (one character from a terminal, otherwise a sleep of the current interval) with menuPause stored false and then true again, so the iteration ends paused; if runFlag is false menuPause is stored false and there is no wait; the last store is always the final value, and runFlag is never set back to true |
| `Control.Session` | threads.cpp:109-227 | the menu loop reads at most the input it is given, keeps one flag per worker and never sets runFlag back to true |
| `Control.Shutdown` | threads.cpp:229-231 | after the menu loop every worker flag is false, with runFlag, menuPause and the interval unchanged |
| `Control.Program` | threads.cpp:74-231 | whatever the input, main leaves the interval at or above the floor and every worker flag false before the join |
| `Control.ToggleSeq` | threads.cpp:154-160 | any sequence of toggles leaves runFlag, the pause flag and the interval unchanged |
| `Control.ToggleTwiceRestores` | threads.cpp:154-160 | toggling the same id twice restores the whole control state, for ids inside and outside 1..3 |
| `Control.ToggleParity` | threads.cpp:159-160 | after any sequence of toggles, worker i is active exactly when it started active XOR id i+1 was toggled an odd number of times |
| `Control.SessionConsistent` | threads.cpp:178-187 | the interval floor and the three worker flags hold after any run of the menu loop |
| `Control.SessionExit` | threads.cpp:206-218 | from a running state the loop clears runFlag exactly when the input holds an exit command, and reads commands up to and including the first one |
| `Control.SessionPauseStores` | threads.cpp:109-227 | over a whole run of the loop, the first store into menuPause is true and the last is its final value; when the loop stops on the exit command menuPause is false |
| `Control.ProgramExit` | threads.cpp:229-231 | after the exit command, main leaves runFlag, menuPause and every worker flag false before the join, with the interval still at or above the floor |
| `Worker.Decide` | threads.cpp:35-44 | the worker's next action follows the priority run flag, then menu pause, then own flag: terminate exactly when not running; wait 50 ms exactly when running and paused; wait 100 ms exactly when running, not paused and inactive; work exactly when running, not paused and active |
| `Worker.ScheduleChunksInRange` | threads.cpp:54-56 | every chunk of an uninterrupted sleep is between 1 and 100 ms |
| `Worker.Chunk` | threads.cpp:54 | the step `min(100, interval - elapsed)` never exceeds 100 or the time left, is at least 1 while time is left, and is either the time left or 100 |
| `Worker.ScheduleTotal` | threads.cpp:51-57 | the chunks of an uninterrupted sleep add up to the interval (0 for an interval of 0 or less) |
| `Worker.ScheduleLength` | threads.cpp:51-57 | an uninterrupted sleep of a positive interval takes ceil(interval / 100) chunks |
| `Worker.ChunkedSleep` | threads.cpp:51-57 | with the interval read once: 0 <= elapsed <= interval; elapsed is the sum of the chunks taken, each 1..100 ms, at most ceil(interval / 100) of them, and they are a prefix of the uninterrupted schedule; every chunk was preceded by a poll that allowed it; the loop stops before the interval only when a poll shows runFlag false, the worker inactive or the menu paused; with no interrupt it sleeps exactly the interval in ceil(interval / 100) chunks |
| `Console.Controller.constructor` | threads.cpp:75-77 | the controller starts in `Control.Initial`, with a fresh array of three flags, all false, and no pause stores yet |
| `Console.Controller.SetAll` | threads.cpp:195-197 | the `for` loop over `threadActive` stores the value into every flag |
| `Console.Controller.StorePause` | threads.cpp:88-90 | stores the value into menuPause and appends it to the record of pause stores; it stands for every `menuPause.store` in main (threads.cpp:88, 90, 104, 106, 111, 129, 216, 223, 225) |
| `Console.Controller.ShowStatus` | threads.cpp:64-72 | the status display reads the three worker flags, in worker order |
| `Console.Controller.ToggleThread` | threads.cpp:154-168 | a valid id flips exactly that worker's flag and reports its new value; an id outside 1..3 reports no such thread; in both cases the other flags are unchanged, and runFlag and the interval are outside its frame |
| `Console.Controller.SetInterval` | threads.cpp:186-192 | stores and reports `max(requested, 100)` |
| `Console.Controller.StartAll` | threads.cpp:194-199 | every worker flag becomes true; nothing else is in its frame |
| `Console.Controller.StopAll` | threads.cpp:200-205 | every worker flag becomes false; nothing else is in its frame |
| `Console.Controller.Exit` | threads.cpp:206-209 | runFlag becomes false; nothing else is in its frame |
| `Console.Controller.Step` | threads.cpp:133-213 | the new fields, array contents, report and `waitAfterAction` are those of `Control.Apply` on the old state |
| `Console.Controller.WaitForEnter` | threads.cpp:86-107 | menuPause is stored false and then true; between the two the controller reads one character from the terminal (waiting for Enter) when the input is a terminal, and otherwise sleeps the current interval |
| `Console.Controller.MenuIteration` | threads.cpp:110-226 | the new state, report, wait and pause stores are those of `Control.Iterate` on the old state |
| `Console.Controller.RunMenu` | threads.cpp:109-227 | the `while (runFlag)` loop reaches the state, pause stores and input position of `Control.Session` |
| `Console.Controller.ShutdownFlags` | threads.cpp:229-231 | every worker flag becomes false; the other fields are outside its frame |
| `Console.RunProgram` | threads.cpp:74-231 | main without the threads ends in the control state `Control.Program` gives for the same input |
| `Console.WorkersTerminateAfterExit` | threads.cpp:35 | after main's shutdown on the exit command, every worker's next decision is to terminate, so none re-enters a work cycle before the join |
| `Console.NoWorkDuringMenu` | threads.cpp:36-39 | while menuPause is set, no worker chooses to announce work, whatever its own flag says |

## Left out

- Thread creation, `join`, and the interleaving of the workers with the controller (threads.cpp:79-83, 233-237). The atomics' visibility and ordering guarantees cannot be stated in a sequential model. Each worker's view of the shared flags is a parameter instead: the flags passed to `Decide`, and the `observe` oracle of `ChunkedSleep`.
- The outer `while (runFlag)` loop of `threadFunc` is not a method. Whether it ends depends on another thread clearing runFlag. Its per-iteration choice is `Worker.Decide`, and its work cycle's sleep is `Worker.ChunkedSleep`.
- `coutMutex`, `printLocked` and all message text (threads.cpp:23, 26-29, 64-72, and the prints in `main`). These are output only. A report is kept as an `Outcome` value, and `ShowStatus` returns the flags it would print.
- `cin` parsing, stream recovery (`clear`/`ignore`, the `in_avail` flush before the Enter prompt) and `isatty`. A read is modelled only as its result: a `Token` that is an integer or `Malformed`. A number that does not fit in `int` makes `cin >> n` fail, so it is a `Malformed` token. The `isatty` result is the `interactive` parameter.
- End of input. The menu loop is modelled over a finite input and stops when it runs out. In the source, `cin` at end of file fails every read, so the loop repeats its malformed-input branch forever unless an exit command came earlier.
- The real `sleep_for` durations. Waits appear only as integer data: `Wait.Sleep(ms)` and `Action.PauseWait(50)` / `Action.IdleWait(100)`. Latency bounds that follow from wall-clock time are not modelled. The 1..100 ms chunk bound is what bounds a worker's reaction time.
- Integers are unbounded. The source's `int` arithmetic in the sleep loop cannot overflow, because elapsed never exceeds the interval, which fits in an `int`. So no wrap-around is modelled.
