/** What the client of the link layer is told, followed from the command or the event that causes it
    to the report: refusals, cancels, errors of the lower layer and lower sends that are refused. */
module LinkReports {
  import opened LinkLayer

  /** The layer answers busy exactly while it holds a message, and refuses a cancel exactly for a message it does not
      hold; then nothing has changed. */
  lemma RefusedExactly(s: Link, m: Msg)
    ensures DoSend(s, m).1 == (if s.state.Ready? then Success else Busy)
    ensures DoCancel(s, m).1 == (if s.current == m && !s.state.Ready? then Success else Fail)
    ensures DoSend(s, m).1 != Success ==> DoSend(s, m).0 == s
    ensures DoCancel(s, m).1 != Success ==> DoCancel(s, m).0 == s
  {
  }

  /** An accepted message goes down with the next task; with retries an acknowledgement is asked for, and of the
      metadata nothing else changes. */
  lemma AcceptedGoesDown(s: Link, m: Msg)
    requires Inv(s) && s.state.Ready?
    ensures var t := Step(s, Send(m));
            && t.taskPending && t.out == [] && t.done == s.done
            && var u := Step(t, RunTask(true));
               && u.out == [m] && u.attempts == 1 && !u.taskPending && !u.timerRunning && u.done == s.done
               && (forall x: Msg :: MetaOf(u.meta, x) ==
                     if x == m && MetaOf(s.meta, m).retries > 0 then MetaOf(s.meta, m).(ackRequested := true)
                     else MetaOf(s.meta, x))
  {
  }

  /** What the two steps from a lower completion with an error to the report do. */
  lemma ErrorReported(s: Link, error: Error, acked: bool, setsAck: bool, accepts: bool)
    requires Inv(s) && s.out != [] && error != Success
    ensures var t := Step(s, LowerDone(error, acked, setsAck));
            && t.taskPending && t.done == s.done
            && var u := Step(t, RunTask(accepts));
               u.state.Ready? && u.done == s.done + [(s.current, error)] && u.attempts == s.attempts && Count(u) == 0
  {
  }

  /** A granted cancel of a message that is not on its way down is reported as such by the next task, with no
      further attempt. */
  lemma WaitingCancelled(s: Link, accepts: bool)
    requires Inv(s) && !s.state.Ready? && s.out == []
    ensures var t := Step(s, Cancel(s.current));
            && t.taskPending && t.done == s.done
            && var u := Step(t, RunTask(accepts));
               && u.state.Ready? && u.done == s.done + [(s.current, Cancelled)]
               && u.attempts == s.attempts && Count(u) == 0
  {
  }

  /** One that is on its way down is waited for: then the cancel is reported, or the error it completed with, whether
      or not it was acknowledged. */
  lemma SentCancelled(s: Link, error: Error, acked: bool, setsAck: bool, accepts: bool)
    requires Inv(s) && s.state.SendDone? && s.out != []
    ensures var t := Step(s, Cancel(s.current));
            && !t.taskPending && !t.timerRunning && t.out == s.out && t.done == s.done
            && var u := Step(t, LowerDone(error, acked, setsAck));
               && u.taskPending && u.done == s.done
               && var v := Step(u, RunTask(accepts));
                  && v.state.Ready? && v.attempts == s.attempts && Count(v) == 0
                  && v.done == s.done + [(s.current, if error == Success then Cancelled else error)]
  {
  }

  /** A lower send that is refused counts as an attempt: without retries the message is reported as sent although
      nothing was sent, and with one retry as failed unless an earlier acknowledgement still stands in it. */
  lemma RefusedCounts(s: Link, m: Msg, accepts: bool)
    requires Inv(s) && s.state.Ready? && MetaOf(s.meta, m).retries <= 1
    ensures var t := Step(Step(s, Send(m)), RunTask(false));
            && t.out == [] && t.taskPending && t.done == s.done
            && var u := Step(t, RunTask(accepts));
               && u.state.Ready? && u.out == [] && u.attempts == 1
               && u.done == s.done + [(m, if MetaOf(s.meta, m).retries == 0 || MetaOf(s.meta, m).acked then Success
                                          else Fail)]
  {
  }
}
