/** How many times the link layer tries one message, what its reports mean, and that
    every held message is reported after a bounded number of steps. */
module LinkRetries {
  import opened LinkLayer

  /** An event that leaves the held message alone: no lower-layer error, no granted
      cancel and no change of its metadata. */
  predicate Plain(s: Link, e: Event) {
    match e
    case Send(_) => true
    case Cancel(m) => m != s.current
    case RunTask(lowerAccepts) => lowerAccepts
    case TimerFired => true
    case LowerDone(error, _, _) => error == Success
    case SetMeta(m, _) => m != s.current
  }

  /** A run of plain events that reports the message held in `s` at its end at the earliest. */
  predicate PlainRun(s: Link, es: seq<Event>)
    requires Possible(s, es)
    decreases |es|
  {
    es == [] || (!s.state.Ready? && Plain(s, es[0]) && PlainRun(Step(s, es[0]), es[1..]))
  }

  function AtLeastOne(n: nat): nat { if n == 0 then 1 else n }

  /** Attempts, unacknowledged attempts and the retry counter of a message held with `n` retries. */
  predicate Counts(s: Link, n: uint16) {
    && s.Retries() == n
    && s.total < AtLeastOne(n)
    && match s.state
       case Ready => false
       case Signal(_) => false
       case Sending => s.attempts == s.total && s.unacked == s.total
       case SendDone =>
         && s.attempts == s.total + 1
         && s.unacked == if s.out != [] || s.Acked() then s.total else s.total + 1
  }

  /** What is true when the message is reported. */
  predicate Reported(s: Link, t: Link, n: uint16) {
    && |t.done| == |s.done| + 1 && t.done[..|s.done|] == s.done && t.done[|s.done|].0 == s.current
    && t.current == s.current
    && var error := t.done[|s.done|].1;
       if n == 0 then error == Success && t.attempts == 1
       else
         && 1 <= t.attempts <= n
         && t.Retries() == t.unacked
         && (error == Success || error == Fail)
         && (error == Fail <==> !t.Acked())
         && t.unacked == (if error == Fail then t.attempts else t.attempts - 1)
         && (error == Fail ==> t.attempts == n)
  }

  lemma StepCounts(s: Link, e: Event, n: uint16)
    requires Inv(s) && Counts(s, n) && Enabled(s, e) && Plain(s, e)
    ensures var t := Step(s, e);
            if t.state.Ready? then Reported(s, t, n)
            else Counts(t, n) && t.current == s.current && t.done == s.done
  {
  }

  lemma PlainIsNotLate(s: Link, e: Event)
    requires Plain(s, e)
    ensures !LateCancel(s, e)
  {
  }

  /** A fresh acceptance starts the counts. */
  lemma AcceptStarts(s: Link, m: Msg)
    requires Inv(s) && s.state.Ready?
    ensures Counts(Step(s, Send(m)), MetaOf(s.meta, m).retries)
  {
  }

  /** With `n` retries and plain events only: at most `n` attempts are made (one when `n` is 0);
      FAIL means exactly `n` attempts were made and none was acknowledged, SUCCESS that the ack flag
      is set, and the stored retry field ends as the number of unacknowledged attempts. */
  lemma {:induction false} AttemptBound(s: Link, es: seq<Event>, n: uint16)
    requires Inv(s) && Counts(s, n) && Possible(s, es) && PlainRun(s, es)
    ensures var t := Run(s, es);
            if t.state.Ready? then Reported(s, t, n) else t.attempts <= AtLeastOne(n) && t.current == s.current
    decreases |es|
  {
    if es != [] {
      var t := Step(s, es[0]);
      PlainIsNotLate(s, es[0]);
      StepKeepsExactly(s, es[0]);
      StepCounts(s, es[0], n);
      if t.state.Ready? {
        assert es[1..] == [];
      } else {
        AttemptBound(t, es[1..], n);
      }
    }
  }

  // ---- No message is stranded

  predicate Internal(e: Event) {
    e.RunTask? || e.TimerFired? || e.LowerDone?
  }

  /** The attempts the held message may still get after the present one; its retries may have
      been lowered meanwhile. */
  function Slack(s: Link): nat {
    var left := AtLeastOne(s.Retries()) - 1 - s.total;
    if left < 0 then 0 else left
  }

  /** How far the held message is from being reported. */
  function Rank(s: Link): nat {
    if s.state.Ready? then 0
    else
      4 * Slack(s) + 1 +
      (if s.timerRunning then 3 else if s.state.Sending? then 2 else if s.out != [] then 1 else 0)
  }

  lemma InternalDescends(s: Link, e: Event)
    requires Inv(s) && Internal(e) && Enabled(s, e)
    ensures Rank(Step(s, e)) < Rank(s)
  {
  }

  /** Something that leads on is always possible while a message is held. */
  lemma AlwaysProgress(s: Link)
    requires Inv(s) && !s.state.Ready?
    ensures exists e :: Internal(e) && Enabled(s, e)
  {
    if s.taskPending {
      assert Enabled(s, RunTask(true));
    } else if s.timerRunning {
      assert Enabled(s, TimerFired);
    } else {
      assert Enabled(s, LowerDone(Success, true, true));
    }
  }

  predicate AllInternal(es: seq<Event>) {
    forall i :: 0 <= i < |es| ==> Internal(es[i])
  }

  /** Left to itself, with whatever answers the lower layer gives, the layer makes at most `Rank`
      steps; and where it can make none, the message has been reported. */
  lemma {:induction false} ReportedInBoundedSteps(s: Link, es: seq<Event>)
    requires Inv(s) && Possible(s, es) && AllInternal(es)
    ensures |es| <= Rank(s)
    ensures (forall e :: Internal(e) ==> !Enabled(Run(s, es), e)) ==> Run(s, es).state.Ready?
    decreases |es|
  {
    if es == [] {
      if !s.state.Ready? { AlwaysProgress(s); }
    } else {
      StepKeepsExactly(s, es[0]);
      InternalDescends(s, es[0]);
      ReportedInBoundedSteps(Step(s, es[0]), es[1..]);
    }
  }

  /** After any run in which no accepted send is cancelled twice, whatever clients did to the metadata: left to itself
      the layer makes a bounded number of steps and then has reported everything it accepted. */
  lemma NeverStranded(es: seq<Event>, more: seq<Event>)
    requires Possible(Boot, es) && CancelledOnce(Boot, es)
    requires Possible(Run(Boot, es), more) && AllInternal(more)
    ensures var s := Run(Boot, es);
            && |more| <= Rank(s)
            && ((forall e :: Internal(e) ==> !Enabled(Run(s, more), e)) ==>
                  var t := Run(s, more); t.state.Ready? && |t.done| == |t.accepted|)
  {
    CancelOnceIsEnough(Boot, es);
    RunKeeps(Boot, es);
    var s := Run(Boot, es);
    ReportedInBoundedSteps(s, more);
    InternalIsNotLate(s, more);
    RunKeeps(s, more);
  }

  lemma {:induction false} InternalIsNotLate(s: Link, es: seq<Event>)
    requires Possible(s, es) && AllInternal(es)
    ensures NoLateCancel(s, es)
    decreases |es|
  {
    if es != [] {
      assert Internal(es[0]);
      InternalIsNotLate(Step(s, es[0]), es[1..]);
    }
  }
}
