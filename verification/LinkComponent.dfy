/** The link layer as it works: one task and a few commands and events over a handful
    of fields, proved to do what the state machine `LinkLayer` does. */
module LinkComponent {
  import opened LinkLayer

  class LinkP {
    var state: LinkState
    var currentMsg: Msg
    var totalRetries: uint16

    // the task queue, the delay timer, the lower layer and the metadata of all messages
    var taskPending: bool
    var timerRunning: bool
    var out: seq<Msg>
    var meta: map<Msg, Meta>

    ghost var accepted: seq<Msg>
    ghost var done: seq<(Msg, Error)>
    ghost var cancels: nat
    ghost var attempts: nat
    ghost var unacked: nat

    constructor ()
      ensures Abs() == Boot
    {
      state, currentMsg, totalRetries := Ready, 0, 0;
      taskPending, timerRunning, out, meta := false, false, [], map[];
      accepted, done, cancels, attempts, unacked := [], [], 0, 0, 0;
    }

    ghost function Abs(): Link
      reads this
    {
      Link(state, currentMsg, totalRetries, taskPending, timerRunning, out, meta,
           accepted, done, cancels, attempts, unacked)
    }

    /** The call of SubSend.send and its answer. */
    method SubSend(lowerAccepts: bool) returns (error: Error)
      modifies this`out, this`attempts
      ensures out == if lowerAccepts then old(out) + [currentMsg] else old(out)
      ensures attempts == old(attempts) + 1
      ensures error == if lowerAccepts then Success else Fail
    {
      attempts := attempts + 1;
      if !lowerAccepts { return Fail; }
      out := out + [currentMsg];
      return Success;
    }

    method SendTask(lowerAccepts: bool)
      requires taskPending
      modifies this
      ensures Abs() == DoTask(old(Abs()), lowerAccepts)
    {
      taskPending := false;
      var retries := MetaOf(meta, currentMsg).retries;
      if state == SendDone {
        var delayed := AfterAttempt(retries);
        if delayed { return; }
      }
      if state == Sending {
        Attempt(lowerAccepts);
        return;
      }
      if state.Signal? { SignalSendDone(retries); }
    }

    /** The first part of the task, after an attempt: report, try again, or try again later. */
    method AfterAttempt(retries: uint16) returns (delayed: bool)
      requires state == SendDone && retries == MetaOf(meta, currentMsg).retries
      modifies this`state, this`totalRetries, this`timerRunning
      ensures retries == 0 || MetaOf(meta, currentMsg).acked ==>
                state == Signal(Success) && totalRetries == old(totalRetries)
      ensures retries > 0 && !MetaOf(meta, currentMsg).acked ==>
                && totalRetries == Increment(old(totalRetries))
                && state == (if totalRetries < retries then Sending else Signal(Fail))
      ensures delayed == (state == Sending && MetaOf(meta, currentMsg).delay > 0)
      ensures timerRunning == (old(timerRunning) || delayed)
    {
      hide MetaOf;
      delayed := false;
      if retries == 0 || MetaOf(meta, currentMsg).acked {
        state := Signal(Success);
      } else {
        totalRetries := if totalRetries == MAX_UINT16 then 0 else totalRetries + 1;
        if totalRetries < retries {
          state := Sending;
          if MetaOf(meta, currentMsg).delay > 0 {
            timerRunning := true;
            delayed := true;
          }
        } else {
          state := Signal(Fail);
        }
      }
    }

    /** The middle part: one lower send. */
    method Attempt(lowerAccepts: bool)
      modifies this
      ensures Abs() == CallLower(old(Abs()), lowerAccepts)
    {
      state := SendDone;
      var error := SubSend(lowerAccepts);
      if error != Success { taskPending := true; }
    }

    /** The last part of the task: the report to the client. */
    method SignalSendDone(retries: uint16)
      requires state.Signal?
      modifies this
      ensures Abs() == SignalDone(old(Abs()), old(state.error), retries)
    {
      var error := state.error;
      if retries > 0 {
        meta := meta[currentMsg := MetaOf(meta, currentMsg).(retries := totalRetries)];
      }
      state := Ready;
      done := done + [(currentMsg, error)];
    }

    /** Completion of a lower send, after the driver has recorded the acknowledgement. */
    method SubSendDone(msg: Msg, error: Error, acked: bool, setsAck: bool)
      modifies this
      ensures Abs() == DoLowerDone(old(Abs()), msg, error, acked, setsAck)
    {
      if setsAck { meta := meta[msg := MetaOf(meta, msg).(acked := acked)]; }
      if out != [] { out := out[1..]; }
      if !MetaOf(meta, currentMsg).acked { unacked := unacked + 1; }
      if error != Success { state := Signal(error); }
      taskPending := true;
    }

    method TimerFired()
      requires timerRunning
      modifies this
      ensures Abs() == Step(old(Abs()), Event.TimerFired)
    {
      timerRunning := false;
      taskPending := true;
    }

    method Send(msg: Msg) returns (error: Error)
      modifies this
      ensures (Abs(), error) == DoSend(old(Abs()), msg)
    {
      hide MetaOf;
      if state != Ready { return Busy; }
      if MetaOf(meta, msg).retries > 0 {
        meta := meta[msg := MetaOf(meta, msg).(ackRequested := true)];
      }
      Hold(msg);
      return Success;
    }

    /** Takes the message and queues the task for it. */
    method Hold(msg: Msg)
      modifies this
      ensures Abs() == old(Abs()).(current := msg, total := 0, state := Sending, taskPending := true,
                                   accepted := old(accepted) + [msg], cancels := 0, attempts := 0, unacked := 0)
    {
      currentMsg := msg;
      totalRetries := 0;
      state := Sending;
      taskPending := true;
      accepted, cancels, attempts, unacked := accepted + [msg], 0, 0, 0;
    }

    method Cancel(msg: Msg) returns (error: Error)
      modifies this
      ensures (Abs(), error) == DoCancel(old(Abs()), msg)
    {
      if currentMsg != msg || state == Ready { return Fail; }
      if state != SendDone { taskPending := true; }
      timerRunning := false;
      state := Signal(Cancelled);
      cancels := cancels + 1;
      return Success;
    }
  }
}
