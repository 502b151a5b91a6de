/**
 * The traffic light: its current phase, its mailbox of phase changes, one
 * iteration of the phase-cycling loop, a finite run of that loop, and the
 * consumer side that waits for green.
 */
module TrafficLights {
  import opened Phases
  import opened MessageQueues
  import opened PhaseCycle

  class TrafficLight {
    /** The phase the light shows now (`_currentPhase`). */
    var currentPhase: Phase
    /** The mailbox through which phase changes are published (`TrafficLightQueue`). */
    const trafficLightQueue: MessageQueue

    /** A new light starts red, with an empty mailbox. */
    constructor ()
      ensures currentPhase == Red
      ensures fresh(trafficLightQueue) && trafficLightQueue.queue == []
      ensures LatestIs(trafficLightQueue.queue, currentPhase)
    {
      currentPhase := Red;
      trafficLightQueue := new MessageQueue();
    }

    /** The light and the cycling loop's locals seen as one value. */
    ghost function State(lastUpdate: int, durationRequired: int): LoopState
      reads this, trafficLightQueue
    {
      LoopState(currentPhase, trafficLightQueue.queue, lastUpdate, durationRequired)
    }

    /** Reads the current phase and changes nothing. */
    method GetCurrentPhase() returns (p: Phase)
      ensures p == currentPhase
    {
      p := currentPhase;
    }

    /**
     * One iteration of the cycling loop. `t.now` is the clock reading that is
     * compared with `lastUpdate`; when the whole seconds elapsed reach
     * `durationRequired`, the phase toggles, the new phase is sent, and the
     * loop's locals restart from `t.resetAt` and `t.redraw`.
     */
    method CycleIteration(lastUpdate: int, durationRequired: int, t: Tick)
      returns (nextUpdate: int, nextDuration: int)
      requires DrawInRange(durationRequired) && DrawInRange(t.redraw)
      modifies this, trafficLightQueue
      ensures State(nextUpdate, nextDuration) == Iteration(old(State(lastUpdate, durationRequired)), t)
      ensures old(Due(State(lastUpdate, durationRequired), t)) ==>
                currentPhase == Toggle(old(currentPhase))
                && trafficLightQueue.queue == old(trafficLightQueue.queue) + [currentPhase]
      ensures !old(Due(State(lastUpdate, durationRequired), t)) ==>
                currentPhase == old(currentPhase)
                && trafficLightQueue.queue == old(trafficLightQueue.queue)
      ensures DrawInRange(nextDuration)
      ensures old(LatestIs(trafficLightQueue.queue, currentPhase)) ==> LatestIs(trafficLightQueue.queue, currentPhase)
    {
      nextUpdate, nextDuration := lastUpdate, durationRequired;
      var elapsed := TruncSeconds(t.now - lastUpdate);
      if elapsed >= durationRequired {
        // the two branches of the source's if/else-if cover both phases
        var phase: Phase;
        if currentPhase == Red {
          phase := Green;
          currentPhase := Green;
        } else {
          phase := Red;
          currentPhase := Red;
        }
        trafficLightQueue.Send(phase);
        nextUpdate := t.resetAt;
        nextDuration := t.redraw;
      }
    }

    /**
     * The cycling loop over the finite run of iterations `ticks`, starting the
     * measurement at clock reading `start` with first duration `firstDraw`.
     * The new state is the run of the loop model; the newest message stays
     * equal to the current phase.
     */
    method CycleThroughPhases(start: int, firstDraw: int, ticks: seq<Tick>)
      returns (lastUpdate: int, durationRequired: int)
      requires DrawInRange(firstDraw) && TicksInRange(ticks)
      modifies this, trafficLightQueue
      ensures State(lastUpdate, durationRequired)
              == Run(LoopState(old(currentPhase), old(trafficLightQueue.queue), start, firstDraw), ticks)
      ensures old(LatestIs(trafficLightQueue.queue, currentPhase)) ==> LatestIs(trafficLightQueue.queue, currentPhase)
    {
      ghost var init := State(start, firstDraw);
      lastUpdate, durationRequired := start, firstDraw;
      for i := 0 to |ticks|
        invariant State(lastUpdate, durationRequired) == Run(init, ticks[..i])
        invariant DrawInRange(durationRequired)
      {
        lastUpdate, durationRequired := CycleIteration(lastUpdate, durationRequired, ticks[i]);
        assert ticks[..i + 1][..i] == ticks[..i];
      }
      assert ticks[..|ticks|] == ticks;
      if old(LatestIs(trafficLightQueue.queue, currentPhase)) {
        RunKeepsConsistent(init, ticks);
      }
    }

    /**
     * Calls receive until it yields green. `schedule[i]` are the phases other
     * threads send before the i-th receive takes the lock; the light must
     * eventually deliver green. The ghost result lists what each receive
     * returned: all red, then green.
     */
    method WaitForGreen(schedule: seq<seq<Phase>>) returns (ghost received: seq<Phase>)
      requires Green in Deliveries(trafficLightQueue.queue, schedule)
      modifies trafficLightQueue
      ensures |received| <= |Deliveries(old(trafficLightQueue.queue), schedule)|
      ensures received == Deliveries(old(trafficLightQueue.queue), schedule)[..|received|]
      ensures received != [] && Last(received) == Green
      ensures forall j :: 0 <= j < |received| - 1 ==> received[j] == Red
      ensures trafficLightQueue.queue == []
    {
      ghost var all := Deliveries(trafficLightQueue.queue, schedule);
      received := [];
      var round := 0;
      while true
        invariant round <= |all| <= |schedule|
        invariant received == all[..round]
        invariant forall j :: 0 <= j < round ==> received[j] == Red
        invariant Deliveries(trafficLightQueue.queue, schedule[round..]) == all[round..]
        invariant Green in all[round..]
        decreases |schedule| - round
      {
        var batch := schedule[round];
        ghost var before := trafficLightQueue.queue;
        for k := 0 to |batch|
          invariant trafficLightQueue.queue == before + batch[..k]
        {
          trafficLightQueue.Send(batch[k]);
          assert batch[..k + 1] == batch[..k] + [batch[k]];
        }
        assert batch[..|batch|] == batch;
        assert schedule[round..][1..] == schedule[round + 1..];
        var p := trafficLightQueue.Receive();
        received := received + [p];
        if p == Green {
          return;
        }
        round := round + 1;
      }
    }
  }

  /** A freshly built light reports red. */
  method NewLightIsRed() returns (p: Phase)
    ensures p == Red
  {
    var light := new TrafficLight();
    p := light.GetCurrentPhase();
  }
}
