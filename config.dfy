/** Tunable constants of the thread controller (threads.cpp:15-17, and the
    literal millisecond numbers used by threadFunc and main). */
module Config {
  /** Number of worker threads, fixed for the process lifetime. */
  const ThreadCount: int := 3
  /** Poll period of a worker while the menu owns the console, and of the
      short pause after an action that skips the confirmation wait. */
  const PauseCheckMs: int := 50
  /** Floor of the reporting interval. */
  const MinIntervalMs: int := 100
  /** Reporting interval at start-up. */
  const DefaultIntervalMs: int := 500
  /** Poll period of an inactive worker. */
  const IdlePollMs: int := 100
  /** Longest single sleep inside a work cycle. */
  const SleepChunkMs: int := 100
}
