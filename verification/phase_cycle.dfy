/**
 * The phase-cycling loop of a traffic light, as values: the loop's locals, one
 * iteration of its body, and a finite run of iterations. Wall-clock readings
 * and random draws are inputs (a `Tick` per iteration).
 */
module PhaseCycle {
  import opened Phases

  /** Clock ticks per second of the wall clock (a nanosecond system clock). */
  const TicksPerSecond: int := 1_000_000_000

  /**
   * What the outside world supplies to one iteration: the clock reading taken
   * to measure the elapsed time, the reading taken after a transition to restart
   * the measurement, and the duration drawn for the next phase.
   */
  datatype Tick = Tick(now: int, resetAt: int, redraw: int)

  /** The duration distribution is uniform over the closed range 4..6 seconds. */
  predicate DrawInRange(d: int)
  {
    4 <= d <= 6
  }

  predicate TicksInRange(ticks: seq<Tick>)
  {
    forall i :: 0 <= i < |ticks| ==> DrawInRange(ticks[i].redraw)
  }

  /**
   * The light's phase and mailbox together with the loop's two locals: when the
   * current phase began and how long it must last, in whole seconds.
   */
  datatype LoopState = LoopState(phase: Phase, queue: seq<Phase>, lastUpdate: int, durationRequired: int)

  /** A clock difference cast to whole seconds; the cast truncates toward zero. */
  function TruncSeconds(d: int): (s: int)
    ensures d >= 0 ==> 0 <= s && s * TicksPerSecond <= d < s * TicksPerSecond + TicksPerSecond
    ensures d < 0 ==> s <= 0 && s * TicksPerSecond - TicksPerSecond < d <= s * TicksPerSecond
  {
    if d >= 0 then d / TicksPerSecond else -((-d) / TicksPerSecond)
  }

  /** The guard of the loop body: the whole seconds elapsed reach the required duration. */
  predicate Due(s: LoopState, t: Tick)
  {
    TruncSeconds(t.now - s.lastUpdate) >= s.durationRequired
  }

  /**
   * One iteration of the loop body: when due, toggle the phase, send the new
   * phase, restart the measurement and draw a new duration; otherwise nothing.
   */
  function Iteration(s: LoopState, t: Tick): LoopState
  {
    if Due(s, t) then
      var next := Toggle(s.phase);
      LoopState(next, s.queue + [next], t.resetAt, t.redraw)
    else s
  }

  /** The loop run over a finite prefix of its iterations. */
  function Run(s: LoopState, ticks: seq<Tick>): LoopState
    decreases |ticks|
  {
    if ticks == [] then s
    else Iteration(Run(s, ticks[..|ticks| - 1]), ticks[|ticks| - 1])
  }

  /** The mailbox is empty or its newest message is the given phase. */
  predicate LatestIs(queue: seq<Phase>, phase: Phase)
  {
    queue == [] || Last(queue) == phase
  }

  /**
   * A whole-second duration of at least one second is reached exactly when the
   * raw clock difference reaches that many seconds' worth of ticks.
   */
  lemma DueIffTicksElapsed(s: LoopState, t: Tick)
    requires s.durationRequired >= 1
    ensures Due(s, t) <==> t.now - s.lastUpdate >= s.durationRequired * TicksPerSecond
  {
  }

  /**
   * With a duration drawn from 4..6, a transition never fires before four
   * seconds of clock time and always fires once six seconds have passed.
   */
  lemma TransitionInterval(s: LoopState, t: Tick)
    requires DrawInRange(s.durationRequired)
    ensures Due(s, t) ==> t.now - s.lastUpdate >= 4 * TicksPerSecond
    ensures t.now - s.lastUpdate >= 6 * TicksPerSecond ==> Due(s, t)
  {
    DueIffTicksElapsed(s, t);
  }

  /** The six-second bound is tight: a six-second draw does not fire one tick early. */
  lemma TransitionIntervalTight(s: LoopState, t: Tick)
    requires s.durationRequired == 6 && t.now - s.lastUpdate == 6 * TicksPerSecond - 1
    ensures !Due(s, t)
  {
    DueIffTicksElapsed(s, t);
  }

  /**
   * A firing iteration flips the phase and sends exactly the new phase; a
   * waiting one changes nothing.
   */
  lemma IterationEffect(s: LoopState, t: Tick)
    ensures Due(s, t) ==> Iteration(s, t).phase == Toggle(s.phase)
                          && Iteration(s, t).queue == s.queue + [Iteration(s, t).phase]
    ensures !Due(s, t) ==> Iteration(s, t) == s
  {
  }

  /** Two firing iterations restore the phase and send the new phase, then the old one. */
  lemma TwoTransitionsRestorePhase(s: LoopState, t1: Tick, t2: Tick)
    requires Due(s, t1) && Due(Iteration(s, t1), t2)
    ensures Iteration(Iteration(s, t1), t2).phase == s.phase
    ensures Iteration(Iteration(s, t1), t2).queue == s.queue + [Toggle(s.phase), s.phase]
  {
    ToggleTwice(s.phase);
  }

  /** Every iteration keeps the newest message equal to the current phase. */
  lemma IterationKeepsConsistent(s: LoopState, t: Tick)
    requires LatestIs(s.queue, s.phase)
    ensures LatestIs(Iteration(s, t).queue, Iteration(s, t).phase)
  {
  }

  /**
   * A run only appends to the mailbox, what it appends alternates starting with
   * the toggle of the initial phase, and the phase has been toggled once per
   * message sent.
   */
  lemma {:induction false} RunSendsAlternatingPhases(s: LoopState, ticks: seq<Tick>)
    ensures |Run(s, ticks).queue| >= |s.queue|
    ensures Run(s, ticks).queue[..|s.queue|] == s.queue
    ensures AlternatesFrom(Toggle(s.phase), Run(s, ticks).queue[|s.queue|..])
    ensures Run(s, ticks).phase == PhaseAfter(s.phase, |Run(s, ticks).queue| - |s.queue|)
    decreases |ticks|
  {
    if ticks != [] {
      var prefix := ticks[..|ticks| - 1];
      var r := Run(s, prefix);
      RunSendsAlternatingPhases(s, prefix);
      var n := |r.queue| - |s.queue|;
      var sent := r.queue[|s.queue|..];
      var r' := Iteration(r, ticks[|ticks| - 1]);
      assert Run(s, ticks) == r';
      if Due(r, ticks[|ticks| - 1]) {
        PhaseAfterNext(s.phase, n);
        assert r'.queue == r.queue + [Toggle(r.phase)];
        assert r'.queue[..|s.queue|] == r.queue[..|s.queue|];
        var sent' := r'.queue[|s.queue|..];
        assert sent' == sent + [Toggle(r.phase)];
        forall i | 0 <= i < |sent'|
          ensures sent'[i] == PhaseAfter(Toggle(s.phase), i)
        {
          if i < n {
            assert sent'[i] == sent[i];
          } else {
            PhaseAfterNext(s.phase, i);
          }
        }
      }
    }
  }

  /** The alternation above keeps the newest message equal to the phase over any run. */
  lemma RunKeepsConsistent(s: LoopState, ticks: seq<Tick>)
    requires LatestIs(s.queue, s.phase)
    ensures LatestIs(Run(s, ticks).queue, Run(s, ticks).phase)
  {
    RunSendsAlternatingPhases(s, ticks);
    var r := Run(s, ticks);
    var n := |r.queue| - |s.queue|;
    if n > 0 {
      var sent := r.queue[|s.queue|..];
      assert Last(r.queue) == sent[n - 1];
      PhaseAfterNext(s.phase, n - 1);
    }
  }

  /** Over a run, the required duration always stays a draw from 4..6. */
  lemma {:induction false} RunKeepsDurationInRange(s: LoopState, ticks: seq<Tick>)
    requires DrawInRange(s.durationRequired) && TicksInRange(ticks)
    ensures DrawInRange(Run(s, ticks).durationRequired)
    decreases |ticks|
  {
    if ticks != [] {
      RunKeepsDurationInRange(s, ticks[..|ticks| - 1]);
    }
  }
}
