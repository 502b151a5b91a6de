/**
 * The collapse-to-latest mailbox: `Send` appends at the back, `Receive` takes
 * the newest element and drops everything that was buffered.
 */
module MessageQueues {
  import opened Phases

  class MessageQueue {
    /** The pending messages, oldest first (the deque `_queue`). */
    var queue: seq<Phase>

    /** A new mailbox holds nothing. */
    constructor ()
      ensures queue == []
    {
      queue := [];
    }

    /** The wait predicate of `Receive`: it may only proceed on a non-empty queue. */
    predicate CanReceive()
      reads this
    {
      queue != []
    }

    /** Appends one message at the back; the earlier messages stay as they were. */
    method Send(msg: Phase)
      modifies this
      ensures queue == old(queue) + [msg]
    {
      queue := queue + [msg];
    }

    /** Returns the most recent message and empties the mailbox. */
    method Receive() returns (msg: Phase)
      requires CanReceive()
      modifies this
      ensures msg == Last(old(queue))
      ensures queue == [] && !CanReceive()
    {
      msg := queue[|queue| - 1];
      queue := [];
    }
  }

  /**
   * The values a run of receives yields when, before the i-th receive takes the
   * lock, the messages `schedule[i]` are sent by other threads; `pending` is
   * what was buffered before the first one. The run stops at the first receive
   * that finds nothing buffered, since that one would wait for good.
   */
  function Deliveries(pending: seq<Phase>, schedule: seq<seq<Phase>>): (r: seq<Phase>)
    ensures |r| <= |schedule|
    decreases |schedule|
  {
    if schedule == [] then []
    else
      var waiting := pending + schedule[0];
      if waiting == [] then []
      else [Last(waiting)] + Deliveries([], schedule[1..])
  }

  /**
   * The run goes on until the first receive that finds nothing buffered: either
   * every round delivers, or the round just after the last delivery was empty.
   */
  lemma {:induction false} DeliveriesStopAtFirstEmpty(pending: seq<Phase>, schedule: seq<seq<Phase>>)
    ensures var n := |Deliveries(pending, schedule)|;
      n == |schedule| || (if n == 0 then pending else []) + schedule[n] == []
    decreases |schedule|
  {
    if schedule != [] && pending + schedule[0] != [] {
      DeliveriesStopAtFirstEmpty([], schedule[1..]);
    }
  }

  /**
   * The i-th receive of such a run found messages and returned only the newest
   * of them: the ones still buffered from before (round 0 only) or sent since
   * the previous receive.
   */
  lemma {:induction false} DeliveryIsLatest(pending: seq<Phase>, schedule: seq<seq<Phase>>, i: nat)
    requires i < |Deliveries(pending, schedule)|
    ensures i < |schedule|
    ensures (if i == 0 then pending else []) + schedule[i] != []
    ensures Deliveries(pending, schedule)[i] == Last((if i == 0 then pending else []) + schedule[i])
    decreases i
  {
    if i > 0 {
      assert schedule[1..][i - 1] == schedule[i];
      DeliveryIsLatest([], schedule[1..], i - 1);
    }
  }

  /** A single message sent and then received comes back unchanged. */
  method SendThenReceive(x: Phase) returns (r: Phase)
    ensures r == x
  {
    var q := new MessageQueue();
    q.Send(x);
    r := q.Receive();
  }

  /**
   * Collapse to latest: after sending a, b and c, one receive yields c, and the
   * mailbox is then empty, so a second receive would wait.
   */
  method CollapseToLatest(a: Phase, b: Phase, c: Phase) returns (latest: Phase, stillEnabled: bool)
    ensures latest == c
    ensures !stillEnabled
  {
    var q := new MessageQueue();
    q.Send(a);
    q.Send(b);
    q.Send(c);
    latest := q.Receive();
    stillEnabled := q.CanReceive();
  }
}
