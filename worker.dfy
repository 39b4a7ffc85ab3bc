/** One worker thread (threadFunc): the per-iteration decision on the shared
    flags, and the chunked sleep of a work cycle. */
module Worker {
  import opened Config

  /** What a worker does on one pass of its outer loop. */
  datatype Action = Terminate | PauseWait(ms: int) | IdleWait(ms: int) | Work

  /** The flag checks at the top of threadFunc's loop, in their priority
      order: run flag, then menu pause, then the worker's own active flag. */
  function Decide(run: bool, pause: bool, active: bool): (a: Action)
    ensures a == Terminate <==> !run
    ensures a.PauseWait? <==> run && pause
    ensures a.IdleWait? <==> run && !pause && !active
    ensures a == Work <==> run && !pause && active
    ensures a.PauseWait? ==> a.ms == PauseCheckMs
    ensures a.IdleWait? ==> a.ms == IdlePollMs
  {
    if !run then Terminate
    else if pause then PauseWait(PauseCheckMs)
    else if !active then IdleWait(IdlePollMs)
    else Work
  }

  /** The flags the sleep loop reads before each chunk. */
  datatype Poll = Poll(run: bool, active: bool, pause: bool)

  /** The part of the sleep loop's guard that another thread can change. */
  predicate KeepSleeping(p: Poll) {
    p.run && p.active && !p.pause
  }

  /** `min(100, interval - elapsed)`. */
  function Chunk(remaining: int): (step: int)
    ensures remaining > 0 ==> 1 <= step <= SleepChunkMs
    ensures step <= remaining && step <= SleepChunkMs
    ensures step == remaining || step == SleepChunkMs
  {
    if remaining < SleepChunkMs then remaining else SleepChunkMs
  }

  /** The chunks an uninterrupted sleep of `interval` ms is cut into. */
  function Schedule(interval: int): seq<int>
    decreases interval
  {
    if interval <= 0 then [] else [Chunk(interval)] + Schedule(interval - Chunk(interval))
  }

  function Sum(xs: seq<int>): int {
    if xs == [] then 0 else xs[0] + Sum(xs[1..])
  }

  /** ceil(interval / 100) for a positive interval, 0 otherwise. */
  function StepCount(interval: int): nat {
    if interval <= 0 then 0 else (interval + SleepChunkMs - 1) / SleepChunkMs
  }

  /** Time an uninterrupted sleep of `interval` ms lasts. */
  function Span(interval: int): nat {
    if interval <= 0 then 0 else interval
  }

  lemma {:induction false} ScheduleChunksInRange(interval: int)
    ensures forall k :: 0 <= k < |Schedule(interval)| ==> 1 <= Schedule(interval)[k] <= SleepChunkMs
    decreases interval
  {
    if interval > 0 {
      ScheduleChunksInRange(interval - Chunk(interval));
    }
  }

  lemma {:induction false} ScheduleTotal(interval: int)
    ensures Sum(Schedule(interval)) == Span(interval)
    decreases interval
  {
    if interval > 0 {
      ScheduleTotal(interval - Chunk(interval));
    }
  }

  lemma {:induction false} ScheduleLength(interval: int)
    ensures |Schedule(interval)| == StepCount(interval)
    decreases interval
  {
    if interval > 0 {
      ScheduleLength(interval - Chunk(interval));
    }
  }

  lemma {:induction false} SumAppend(xs: seq<int>, x: int)
    ensures Sum(xs + [x]) == Sum(xs) + x
    decreases |xs|
  {
    if xs != [] {
      assert (xs + [x])[1..] == xs[1..] + [x];
      SumAppend(xs[1..], x);
    }
  }

  /** A prefix of a schedule is no longer than it and shares its chunks. */
  lemma PrefixChunks(prefix: seq<int>, rest: seq<int>, whole: seq<int>)
    requires prefix + rest == whole
    ensures prefix <= whole && |prefix| <= |whole|
    ensures forall k :: 0 <= k < |prefix| ==> prefix[k] == whole[k]
  {
  }

  /** The inner `while` of threadFunc: `interval` is read once before the
      loop; `observe(k)` gives the flags seen at the k-th check of the guard.
      Every chunk is 1..100 ms, the chunks are a prefix of the uninterrupted
      schedule, the loop stops early only on an interrupt, and without one
      it sleeps exactly the interval in ceil(interval / 100) chunks. */
  method ChunkedSleep(interval: int, observe: nat -> Poll) returns (elapsed: int, chunks: seq<int>)
    ensures 0 <= elapsed <= Span(interval)
    ensures elapsed == Sum(chunks)
    ensures forall k :: 0 <= k < |chunks| ==> 1 <= chunks[k] <= SleepChunkMs
    ensures |chunks| <= StepCount(interval)
    ensures chunks <= Schedule(interval)
    ensures forall k :: 0 <= k < |chunks| ==> KeepSleeping(observe(k))
    ensures elapsed < interval ==> !KeepSleeping(observe(|chunks|))
    ensures (forall k :: 0 <= k < StepCount(interval) ==> KeepSleeping(observe(k))) ==>
              elapsed == Span(interval) && chunks == Schedule(interval)
  {
    elapsed := 0;
    chunks := [];
    while elapsed < interval && KeepSleeping(observe(|chunks|))
      invariant 0 <= elapsed <= Span(interval)
      invariant elapsed == Sum(chunks)
      invariant chunks + Schedule(interval - elapsed) == Schedule(interval)
      invariant forall k :: 0 <= k < |chunks| ==> KeepSleeping(observe(k))
      decreases interval - elapsed
    {
      var step := Chunk(interval - elapsed);
      SumAppend(chunks, step);
      chunks := chunks + [step];
      elapsed := elapsed + step;
    }
    ScheduleLength(interval);
    ScheduleChunksInRange(interval);
    PrefixChunks(chunks, Schedule(interval - elapsed), Schedule(interval));
    if elapsed >= interval {
      assert chunks == Schedule(interval);
    }
  }
}
