/** The retransmission layer between the radio interface and the send driver, with
    the task queue, delay timer and lower layer it works with, as a state machine. */
module LinkLayer {

  /** A message buffer, known by its 32-bit address. */
  type Msg = x: nat | x < 0x1_0000_0000

  datatype Error = Success | Fail | Cancelled | Busy | Other(code: nat)

  datatype LinkState = Ready | Sending | SendDone | Signal(error: Error)

  const MAX_UINT16 := 65535

  type uint16 = x: nat | x <= MAX_UINT16

  /** The link and acknowledgement metadata of a message. */
  datatype Meta = Meta(retries: uint16, delay: uint16, acked: bool, ackRequested: bool)

  const Cleared := Meta(0, 0, false, false)

  function MetaOf(meta: map<Msg, Meta>, m: Msg): Meta {
    if m in meta then meta[m] else Cleared
  }

  /** The component's own fields, then the queue, timer and lower layer around it,
      then what has happened so far. */
  datatype Link = Link(
    state: LinkState,
    current: Msg,
    total: uint16,
    taskPending: bool,
    timerRunning: bool,
    out: seq<Msg>,             // lower sends accepted and not yet completed, oldest first
    meta: map<Msg, Meta>,
    accepted: seq<Msg>,        // every message accepted by Send.send
    done: seq<(Msg, Error)>,   // every Send.sendDone signalled
    cancels: nat,              // cancels granted since the last acceptance
    attempts: nat,             // lower sends since the last acceptance
    unacked: nat)              // lower completions since then that left the ack flag clear
  {
    function Retries(): uint16 { MetaOf(meta, current).retries }
    function Acked(): bool { MetaOf(meta, current).acked }
  }

  const Boot := Link(Ready, 0, 0, false, false, [], map[], [], [], 0, 0, 0)

  datatype Event =
    | Send(msg: Msg)
    | Cancel(msg: Msg)
    | RunTask(lowerAccepts: bool)                  // the answer of SubSend.send, should the task call it
    | TimerFired
    | LowerDone(error: Error, acked: bool, setsAck: bool)
    | SetMeta(msg: Msg, value: Meta)               // a client changes the metadata of a message

  predicate Enabled(s: Link, e: Event) {
    match e
    case RunTask(_) => s.taskPending
    case TimerFired => s.timerRunning
    case LowerDone(_, _, _) => s.out != []
    case _ => true
  }

  // ---- The commands, events and the task

  function DoSend(s: Link, m: Msg): (Link, Error) {
    if !s.state.Ready? then (s, Busy)
    else
      var mm := MetaOf(s.meta, m);
      var meta := if mm.retries > 0 then s.meta[m := mm.(ackRequested := true)] else s.meta;
      (s.(meta := meta, current := m, total := 0, state := Sending, taskPending := true,
          accepted := s.accepted + [m], cancels := 0, attempts := 0, unacked := 0),
       Success)
  }

  function DoCancel(s: Link, m: Msg): (Link, Error) {
    if s.current != m || s.state.Ready? then (s, Fail)
    else
      // cancelling the lower send is refused by the driver and changes nothing
      (s.(taskPending := s.taskPending || !s.state.SendDone?, timerRunning := false,
          state := Signal(Cancelled), cancels := s.cancels + 1),
       Success)
  }

  function CallLower(s: Link, lowerAccepts: bool): Link {
    var t := s.(state := SendDone, attempts := s.attempts + 1);
    if lowerAccepts then t.(out := s.out + [s.current]) else t.(taskPending := true)
  }

  function SignalDone(s: Link, error: Error, retries: uint16): Link {
    var mm := MetaOf(s.meta, s.current);
    var meta := if retries > 0 then s.meta[s.current := mm.(retries := s.total)] else s.meta;
    s.(meta := meta, state := Ready, done := s.done + [(s.current, error)])
  }

  /** `totalRetries` after `++`, in 16 bits. */
  function Increment(x: uint16): uint16 { if x == MAX_UINT16 then 0 else x + 1 }

  /** The task, already taken off the queue. */
  function DoTask(s0: Link, lowerAccepts: bool): Link {
    var s := s0.(taskPending := false);
    var retries := s.Retries();
    match s.state
    case Ready => s
    case Sending => CallLower(s, lowerAccepts)
    case Signal(error) => SignalDone(s, error, retries)
    case SendDone =>
      if retries == 0 || s.Acked() then SignalDone(s, Success, retries)
      else
        var t := s.(total := Increment(s.total));
        if t.total < retries then
          if MetaOf(s.meta, s.current).delay > 0 then t.(state := Sending, timerRunning := true)
          else CallLower(t, lowerAccepts)
        else SignalDone(t, Fail, retries)
  }

  /** The driver has set the ack flag of the message it reports (or left it) and signals completion. */
  function DoLowerDone(s: Link, msg: Msg, error: Error, acked: bool, setsAck: bool): Link {
    var mm := MetaOf(s.meta, msg);
    var meta := if setsAck then s.meta[msg := mm.(acked := acked)] else s.meta;
    var t := s.(meta := meta, out := if s.out == [] then [] else s.out[1..], taskPending := true);
    t.(unacked := if t.Acked() then s.unacked else s.unacked + 1,
       state := if error == Success then s.state else Signal(error))
  }

  function Step(s: Link, e: Event): Link
    requires Enabled(s, e)
  {
    match e
    case Send(m) => DoSend(s, m).0
    case Cancel(m) => DoCancel(s, m).0
    case RunTask(lowerAccepts) => DoTask(s, lowerAccepts)
    case TimerFired => s.(timerRunning := false, taskPending := true)
    case LowerDone(error, acked, setsAck) => DoLowerDone(s, s.out[0], error, acked, setsAck)
    case SetMeta(m, value) => s.(meta := s.meta[m := value])
  }

  // ---- Exactly one completion

  function Count(s: Link): nat {
    (if s.taskPending then 1 else 0) + (if s.timerRunning then 1 else 0) + |s.out|
  }

  /** While a message is held exactly one thing is under way that will lead on, and none otherwise;
      every accepted message but the held one has been reported once, in order. */
  predicate Inv(s: Link) {
    && Count(s) == (if s.state.Ready? then 0 else 1)
    && (s.timerRunning ==> s.state.Sending?)
    && (s.out != [] ==> s.out[0] == s.current && (s.state.SendDone? || s.state.Signal?))
    && (s.out != [] && s.state.Signal? ==> s.cancels > 0)
    && |s.accepted| == |s.done| + (if s.state.Ready? then 0 else 1)
    && (!s.state.Ready? ==> s.accepted[|s.done|] == s.current && s.total < MAX_UINT16)
    && (forall i :: 0 <= i < |s.done| ==> s.done[i].0 == s.accepted[i])
  }

  /** A cancel that would be granted after an earlier one, while the lower send is still out. */
  predicate LateCancel(s: Link, e: Event) {
    e.Cancel? && s.current == e.msg && s.state.Signal? && s.out != []
  }

  /** Every event, whenever it comes, keeps the invariant, but for exactly one case. */
  lemma StepKeepsExactly(s: Link, e: Event)
    requires Inv(s) && Enabled(s, e)
    ensures Inv(Step(s, e)) <==> !LateCancel(s, e)
  {
    var t := Step(s, e);
    if e.RunTask? && t.state.Ready? {
      assert t.done == s.done + [(s.current, t.done[|s.done|].1)];
      assert forall i :: 0 <= i < |t.done| ==> t.done[i].0 == t.accepted[i];
    }
    if e.Cancel? && LateCancel(s, e) {
      assert Count(t) == 2;
    }
  }

  // ---- Runs

  /** Every event is possible where it comes. */
  predicate Possible(s: Link, es: seq<Event>)
    decreases |es|
  {
    es == [] || (Enabled(s, es[0]) && Possible(Step(s, es[0]), es[1..]))
  }

  /** Where a run ends. */
  function Run(s: Link, es: seq<Event>): Link
    requires Possible(s, es)
    decreases |es|
  {
    if es == [] then s else Run(Step(s, es[0]), es[1..])
  }

  predicate NoLateCancel(s: Link, es: seq<Event>)
    requires Possible(s, es)
    decreases |es|
  {
    es == [] || (!LateCancel(s, es[0]) && NoLateCancel(Step(s, es[0]), es[1..]))
  }

  /** No accepted send is cancelled twice. */
  predicate CancelledOnce(s: Link, es: seq<Event>)
    requires Possible(s, es)
    decreases |es|
  {
    s.cancels <= 1 && (es == [] || CancelledOnce(Step(s, es[0]), es[1..]))
  }

  lemma {:induction false} RunKeeps(s: Link, es: seq<Event>)
    requires Inv(s) && Possible(s, es) && NoLateCancel(s, es)
    ensures Inv(Run(s, es))
    decreases |es|
  {
    if es != [] {
      StepKeepsExactly(s, es[0]);
      RunKeeps(Step(s, es[0]), es[1..]);
    }
  }

  /** A run in which each accepted send is cancelled at most once has no late cancel. */
  lemma {:induction false} CancelOnceIsEnough(s: Link, es: seq<Event>)
    requires Inv(s) && Possible(s, es) && CancelledOnce(s, es)
    ensures NoLateCancel(s, es)
    decreases |es|
  {
    if es != [] {
      assert CancelledOnce(Step(s, es[0]), es[1..]);
      StepKeepsExactly(s, es[0]);
      CancelOnceIsEnough(Step(s, es[0]), es[1..]);
    }
  }

  /** From boot, in any order of events, sends from inside a completion included: if no accepted
      send is cancelled twice, every accepted message is reported exactly once and in order,
      and a held message always has exactly one task, timer or lower send that leads on. */
  lemma ExactlyOnce(es: seq<Event>)
    requires Possible(Boot, es) && CancelledOnce(Boot, es)
    ensures var s := Run(Boot, es);
            && Count(s) == (if s.state.Ready? then 0 else 1)
            && |s.accepted| == |s.done| + (if s.state.Ready? then 0 else 1)
            && (forall i :: 0 <= i < |s.done| ==> s.done[i].0 == s.accepted[i])
            && (!s.state.Ready? ==> s.accepted[|s.done|] == s.current)
  {
    CancelOnceIsEnough(Boot, es);
    RunKeeps(Boot, es);
  }

  /** The 16-bit retry counter never wraps: it is below the largest value whenever it is
      incremented, however the metadata changes. */
  lemma CounterNeverWraps(es: seq<Event>)
    requires Possible(Boot, es) && NoLateCancel(Boot, es)
    ensures var s := Run(Boot, es);
            !s.state.Ready? ==> Increment(s.total) == s.total + 1
  {
    RunKeeps(Boot, es);
  }

  /** After one message has been sent, cancelled twice and reported, its lower send is still out. */
  const AfterTwoCancels := Link(Ready, 1, 0, false, false, [1], map[], [1], [(1, Cancelled)], 2, 1, 0)

  const TwoCancels := [Send(1), RunTask(true), Cancel(1), Cancel(1), RunTask(true)]

  const SecondSend := [Send(2), RunTask(true), LowerDone(Success, true, true), RunTask(true)]

  lemma TwoCancelsRun()
    ensures Possible(Boot, TwoCancels) && Run(Boot, TwoCancels) == AfterTwoCancels
  {
  }

  /** Cancelling one send twice while its lower send is out does break it: the next message is then
      reported as sent while its own lower send is still out. */
  lemma DoubleCancelBreaks()
    ensures Possible(Boot, TwoCancels) && Run(Boot, TwoCancels) == AfterTwoCancels
    ensures Possible(AfterTwoCancels, SecondSend)
    ensures var s := Run(AfterTwoCancels, SecondSend);
            s.state.Ready? && s.done == [(1, Cancelled), (2, Success)] && s.out == [2]
  {
    TwoCancelsRun();
    hide TwoCancels;
  }
}
