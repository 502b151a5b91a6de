# Traffic light with a collapse-to-latest mailbox

A Dafny model of the sequential meaning of the traffic light in
`src/TrafficLight.cpp` and `src/TrafficLight.h`:

- `Phases` (`phases.dfy`): the two-valued `TrafficLightPhase` enum as `Phase = Red | Green`,
  the toggle between the two, and the alternation `PhaseAfter` / `AlternatesFrom` used to state
  what a run of the light sends.
- `MessageQueues` (`message_queue.dfy`): `MessageQueue`, a class whose field `queue: seq<Phase>`
  is the private deque `_queue`. `Send` appends at the back. `Receive` may only run when the
  queue is non-empty (`CanReceive`, the condition-variable wait predicate). It returns the
  newest element and clears the queue. `Deliveries` is the pure meaning of a sequence of
  receives that are interleaved with other threads' sends.
- `PhaseCycle` (`phase_cycle.dfy`): the phase-cycling loop as values. `LoopState` holds the
  phase, the mailbox and the loop's locals `lastUpdate` and `durationRequired`. `Iteration` is
  one pass of the loop body and `Run` is a finite run of passes. The clock readings and the
  random duration draws come in through a `Tick` per pass.
- `TrafficLights` (`traffic_light.dfy`): `TrafficLight`, a class with the field
  `currentPhase` and the mailbox `trafficLightQueue`. It has the constructor, `GetCurrentPhase`,
  one loop iteration (`CycleIteration`), the loop over a finite list of ticks
  (`CycleThroughPhases`) and `WaitForGreen`.

Time and randomness are inputs:
- A clock reading is an integer count of system-clock ticks. `TicksPerSecond` is set to 10^9, a
  nanosecond clock. The C++ standard leaves the system clock's period unspecified, so this value
  is an assumption. No result depends on it: the truncation and interval lemmas hold for any
  positive rate.
- The cast of the elapsed time to whole seconds truncates toward zero (`TruncSeconds`).
- The duration draw is any integer in 4..6.

Blocking is a precondition. `Receive` requires a non-empty queue. `WaitForGreen` requires that
the supplied interleaving eventually delivers green.

Where the comments in the source and its code differ, the model follows the code:
- The comments at src/TrafficLight.cpp:110 and :120 ask for a duration "between 4 and 6
  seconds". The code draws from the inclusive `uniform_int_distribution<int64_t>(4,6)`, so the
  duration is 4, 5 or 6 seconds.
- The elapsed time is compared in truncated whole seconds. A transition therefore fires when at
  least `durationRequired` seconds of clock time have passed. The gap is never under 4 seconds,
  and it is always reached once 6 seconds have passed (`TransitionInterval`). The firing itself
  happens at the next 1 ms poll after that. A six-second draw does not fire one tick before six
  seconds (`TransitionIntervalTight`).
- The comments at src/TrafficLight.cpp:16-17 speak of taking the first message. The live code
  takes the last message and clears the deque, and that is what is modelled.

## Model

| member | source | states |
|---|---|---|
| Phases.Toggle | src/TrafficLight.cpp:147-162 | the toggle always yields the other phase; its two cases cover both enum values |
| Phases.ToggleTwice | src/TrafficLight.cpp:147-162 | toggling twice gives back the original phase |
| MessageQueues.MessageQueue.constructor | src/TrafficLight.h:23-38 | a new mailbox holds no messages |
| MessageQueues.MessageQueue.Send | src/TrafficLight.cpp:42-58 | the queue becomes the old queue with the message appended at the back; nothing else changes |
| MessageQueues.MessageQueue.CanReceive | src/TrafficLight.cpp:19 | the wait predicate: receive may proceed exactly when the queue is non-empty |
| MessageQueues.MessageQueue.Receive | src/TrafficLight.cpp:8-40 | enabled only on a non-empty queue; returns the last element of the queue on entry and leaves the queue empty |
| MessageQueues.Deliveries | src/TrafficLight.cpp:14-39 | a run of receives yields at most one value per receive; where it stops and what each value is are stated by DeliveriesStopAtFirstEmpty and DeliveryIsLatest |
| MessageQueues.DeliveriesStopAtFirstEmpty | src/TrafficLight.cpp:14-39 | a run of receives goes on until the first receive that finds nothing buffered: either every round delivers, or the round right after the last delivery is empty |
| MessageQueues.DeliveryIsLatest | src/TrafficLight.cpp:19-36 | each delivered value is the newest of the messages buffered since the previous receive, and that buffer was non-empty |
| MessageQueues.SendThenReceive | src/TrafficLight.cpp:33-54 | a message sent to an empty mailbox and then received comes back unchanged |
| MessageQueues.CollapseToLatest | src/TrafficLight.cpp:33-54 | after sending a, b and c, one receive returns c and the mailbox is no longer receivable |
| PhaseCycle.TruncSeconds | src/TrafficLight.cpp:136 | the whole-second count lies within one second of the clock difference, rounded toward zero on both signs |
| PhaseCycle.Due | src/TrafficLight.cpp:136-139 | the loop guard: the truncated whole seconds since the last transition reach the required duration |
| PhaseCycle.Iteration | src/TrafficLight.cpp:139-175 | one pass of the loop body; its effect is stated by IterationEffect |
| PhaseCycle.Run | src/TrafficLight.cpp:130-176 | a finite run of passes of the loop; what it sends is stated by RunSendsAlternatingPhases |
| PhaseCycle.DueIffTicksElapsed | src/TrafficLight.cpp:136-139 | the loop guard holds exactly when the raw clock difference reaches the required number of seconds |
| PhaseCycle.TransitionInterval | src/TrafficLight.cpp:121-139 | with a duration in 4..6, a transition never fires before 4 seconds and always fires once 6 seconds have passed |
| PhaseCycle.TransitionIntervalTight | src/TrafficLight.cpp:121-139 | the 6-second bound is tight: with a 6-second draw, a gap one tick short of 6 seconds does not fire |
| PhaseCycle.IterationEffect | src/TrafficLight.cpp:139-175 | a due iteration flips the phase and sends exactly the new phase; an iteration that is not due changes nothing |
| PhaseCycle.TwoTransitionsRestorePhase | src/TrafficLight.cpp:147-168 | two firing iterations restore the phase after sending the toggled phase and then the original one |
| PhaseCycle.IterationKeepsConsistent | src/TrafficLight.cpp:147-168 | an iteration keeps the mailbox empty or its newest message equal to the current phase |
| PhaseCycle.RunSendsAlternatingPhases | src/TrafficLight.cpp:130-176 | a run only appends to the mailbox; what it appends strictly alternates, starting with the toggle of the initial phase; the final phase is the initial phase toggled once per message sent |
| PhaseCycle.RunKeepsConsistent | src/TrafficLight.cpp:130-176 | over any run the newest message stays equal to the current phase |
| PhaseCycle.RunKeepsDurationInRange | src/TrafficLight.cpp:121-174 | the required duration is always a draw from 4..6 seconds |
| TrafficLights.TrafficLight.constructor | src/TrafficLight.cpp:64-67 | a new light is red, with a fresh empty mailbox |
| TrafficLights.TrafficLight.GetCurrentPhase | src/TrafficLight.cpp:90-95 | returns the current phase and modifies nothing |
| TrafficLights.TrafficLight.CycleIteration | src/TrafficLight.cpp:130-175 | one loop iteration is `Iteration` of the old state: when due, the phase flips, the new phase is appended to the mailbox and the locals restart from the new clock reading and draw; otherwise the phase and mailbox are unchanged; the duration stays in 4..6 |
| TrafficLights.TrafficLight.CycleThroughPhases | src/TrafficLight.cpp:106-177 | the loop over a finite list of ticks leaves the light in the state `Run` gives, and it keeps the newest message equal to the current phase |
| TrafficLights.TrafficLight.WaitForGreen | src/TrafficLight.cpp:70-87 | returns only after a receive has yielded green; every earlier receive yielded red; the values received are the deliveries of the interleaving; the mailbox is empty at return |
| TrafficLights.NewLightIsRed | src/TrafficLight.cpp:64-95 | a freshly constructed light reports red |

## Left out

- Mutexes, `unique_lock`/`lock_guard`, and the condition variable's `wait` and `notify_one` are not modelled. Blocking is a precondition, and other threads' sends are an explicit interleaving.
- The unused `_condition` member of the light is not modelled.
- `simulate` is not modelled. It starts `cycleThroughPhases` in a thread owned by `TrafficObject`, and `TrafficObject.h` is not part of this model.
- `sleep_for` is left out. The wall clock is an input: each `Tick` carries the clock readings.
- The random device and engine are left out. Each duration draw is an input constrained to 4..6.
- The `int64_t` width of the tick count and of the duration is not modelled. Integers are unbounded, and the realistic values never come near the 64-bit limit.
- TrafficLights.TrafficLight.CycleThroughPhases: models the endless `while(true)` loop over a finite list of iterations. It cannot state anything about the infinite run.
- TrafficLights.TrafficLight.WaitForGreen: other threads' sends are any sequence of phases per receive. The model does not require them to come from the light's own alternation. The 1 ms sleep before each receive is not modelled.
- Console output is not modelled.
