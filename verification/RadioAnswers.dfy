/** From the answers of the radio driver to the report the client gets: the whole stack driven
    through all attempts of one message. */
module RadioAnswers {
  import L = LinkLayer
  import opened SendDriver
  import opened RadioStack

  /** The way of one record: to the radio, which answers `ret`, and back to the link layer. */
  function Answer(ret: int): seq<Event> {
    [ChildHeader, ChildBody(ret), ChildAnswer, ReceiveReady, DoneTask]
  }

  /** Attempt `k` of `n` for message `m` has just been sent down; the message wants `delay` between attempts. */
  predicate InAir(s: Stack, m: L.Msg, n: nat, delay: nat, k: nat) {
    && s.link.state.SendDone? && s.link.current == m && s.link.out == [m]
    && !s.link.taskPending && !s.link.timerRunning
    && s.link.total == k - 1 && s.link.attempts == k && 1 <= k <= n
    && L.MetaOf(s.link.meta, m).retries == n && L.MetaOf(s.link.meta, m).delay == delay
    && BufOf(s.mem, m)[0] > 2
    && s.driver == Driver(Record(m, BufOf(s.mem, m)), Idle, [], s.driver.slot, false)
  }

  /** The answer has arrived and the link's task is about to decide. */
  predicate Back(s: Stack, m: L.Msg, n: nat, delay: nat, k: nat, acked: bool) {
    && s.link.state.SendDone? && s.link.current == m && s.link.out == []
    && s.link.taskPending && !s.link.timerRunning
    && s.link.total == k - 1 && s.link.attempts == k && 1 <= k <= n
    && L.MetaOf(s.link.meta, m).retries == n && L.MetaOf(s.link.meta, m).delay == delay
    && L.MetaOf(s.link.meta, m).acked == acked
    && BufOf(s.mem, m)[0] > 2
    && s.driver == Driver([], Idle, [], s.driver.slot, false)
  }

  /** The codes that mean a delivered packet, and those that mean none. */
  predicate Delivered(ret: int) { ret == 0 }

  predicate Lost(ret: int) { ret == 252 || ret == 253 || ret == 255 }

  lemma {:induction false} Concat(s: Stack, a: seq<Event>, b: seq<Event>)
    requires Possible(s, a) && Possible(Run(s, a), b)
    ensures Possible(s, a + b) && Run(s, a + b) == Run(Run(s, a), b)
    decreases |a|
  {
    hide Enabled, Step;
    if a == [] {
      assert a + b == b;
    } else {
      Concat(Step(s, a[0]), a[1..], b);
      assert (a + b)[1..] == a[1..] + b;
    }
  }

  lemma One(s: Stack, e: Event)
    requires Enabled(s, e)
    ensures Possible(s, [e]) && Run(s, [e]) == Step(s, e)
  {
    assert [e][1..] == [];
  }

  lemma RecordTaken(s: Stack, m: L.Msg, n: nat, delay: nat, k: nat, ret: int) returns (t: Stack)
    requires InAir(s, m, n, delay, k)
    ensures Possible(s, [ChildHeader, ChildBody(ret), ChildAnswer])
    ensures Run(s, [ChildHeader, ChildBody(ret), ChildAnswer]) == t
    ensures t.link == s.link && t.mem == s.mem
    ensures t.driver == Driver([], Idle, [Result(m, ret, BufOf(s.mem, m)[0])], s.driver.slot, false)
  {
    var buf := BufOf(s.mem, m);
    HeaderRoundTrip(m, buf[0]);
    assert s.driver.writePipe[..HEADER] == Header(m, buf[0]);
    assert s.driver.writePipe[HEADER..] == buf[1..buf[0] - 1];
    var s1 := Step(s, ChildHeader);
    var s2 := Step(s1, ChildBody(ret));
    t := Step(s2, ChildAnswer);
    One(s2, ChildAnswer);
    Prepend(s1, ChildBody(ret), [ChildAnswer]);
    Prepend(s, ChildHeader, [ChildBody(ret)] + [ChildAnswer]);
    assert [ChildHeader, ChildBody(ret), ChildAnswer] == [ChildHeader] + ([ChildBody(ret)] + [ChildAnswer]);
  }

  lemma ResultTaken(s: Stack, r: Result) returns (t: Stack)
    requires s.driver == Driver([], Idle, [r], s.driver.slot, false)
    ensures Possible(s, [ReceiveReady, DoneTask]) && Run(s, [ReceiveReady, DoneTask]) == t
    ensures t.mem == s.mem && t.driver == Driver([], Idle, [], r, false)
    ensures var (sets, acked) := AckUpdate(r); t.link == L.DoLowerDone(s.link, r.msg, L.Success, acked, sets)
  {
    hide AckUpdate, L.DoLowerDone;
    var s1 := Step(s, ReceiveReady);
    t := Step(s1, DoneTask);
    One(s1, DoneTask);
    Prepend(s, ReceiveReady, [DoneTask]);
    assert [ReceiveReady, DoneTask] == [ReceiveReady] + [DoneTask];
  }

  /** A delivered packet is known as acknowledged, a lost one as not. */
  lemma Answered(s: Stack, m: L.Msg, n: nat, delay: nat, k: nat, ret: int) returns (t: Stack)
    requires InAir(s, m, n, delay, k) && (Delivered(ret) || Lost(ret))
    ensures Possible(s, Answer(ret)) && Run(s, Answer(ret)) == t
    ensures Back(t, m, n, delay, k, Delivered(ret)) && t.link.done == s.link.done
  {
    var u := RecordTaken(s, m, n, delay, k, ret);
    var r := Result(m, ret, BufOf(s.mem, m)[0]);
    t := ResultTaken(u, r);
    AckCodes(m, ret, r.len);
    Concat(s, [ChildHeader, ChildBody(ret), ChildAnswer], [ReceiveReady, DoneTask]);
    assert Answer(ret) == [ChildHeader, ChildBody(ret), ChildAnswer] + [ReceiveReady, DoneTask];
  }

  /** The last decision: success at once after an acknowledgement, failure when all attempts are used up. */
  lemma Reports(s: Stack, m: L.Msg, n: nat, delay: nat, k: nat, acked: bool) returns (t: Stack)
    requires Back(s, m, n, delay, k, acked) && (acked || k == n) && n <= L.MAX_UINT16
    ensures Possible(s, [Task]) && Run(s, [Task]) == t
    ensures t.link.state.Ready? && t.link.done == s.link.done + [(m, if acked then L.Success else L.Fail)]
    ensures t.link.attempts == k && t.link.out == []
  {
    t := Step(s, Task);
    One(s, Task);
  }

  /** What lies between an unacknowledged attempt and the next: the task, and with a delay the timer too. */
  function Between(delay: nat): seq<Event> {
    if delay == 0 then [Task] else [Task, Timer, Task]
  }

  /** The message waits for the timer. */
  predicate Waiting(s: Stack, m: L.Msg, n: nat, delay: nat, k: nat) {
    && s.link.state.Sending? && s.link.current == m && s.link.out == []
    && !s.link.taskPending && s.link.timerRunning
    && s.link.total == k && s.link.attempts == k && 1 <= k < n
    && L.MetaOf(s.link.meta, m).retries == n && L.MetaOf(s.link.meta, m).delay == delay
    && BufOf(s.mem, m)[0] > 2
    && s.driver == Driver([], Idle, [], s.driver.slot, false)
  }

  lemma AtOnce(s: Stack, m: L.Msg, n: nat, k: nat) returns (t: Stack)
    requires Back(s, m, n, 0, k, false) && k < n <= L.MAX_UINT16
    ensures Enabled(s, Task) && Step(s, Task) == t
    ensures InAir(t, m, n, 0, k + 1) && t.link.done == s.link.done
  {
    t := Step(s, Task);
  }

  lemma StartsTimer(s: Stack, m: L.Msg, n: nat, delay: nat, k: nat) returns (t: Stack)
    requires Back(s, m, n, delay, k, false) && k < n <= L.MAX_UINT16 && delay > 0
    ensures Enabled(s, Task) && Step(s, Task) == t
    ensures Waiting(t, m, n, delay, k) && t.link.done == s.link.done
  {
    t := Step(s, Task);
  }

  lemma TimerResumes(s: Stack, m: L.Msg, n: nat, delay: nat, k: nat) returns (t: Stack)
    requires Waiting(s, m, n, delay, k) && n <= L.MAX_UINT16
    ensures Enabled(s, Timer) && Enabled(Step(s, Timer), Task) && Step(Step(s, Timer), Task) == t
    ensures InAir(t, m, n, delay, k + 1) && t.link.done == s.link.done
  {
    t := Step(Step(s, Timer), Task);
  }

  lemma TriesAgain(s: Stack, m: L.Msg, n: nat, delay: nat, k: nat) returns (t: Stack)
    requires Back(s, m, n, delay, k, false) && k < n <= L.MAX_UINT16
    ensures Possible(s, Between(delay)) && Run(s, Between(delay)) == t
    ensures InAir(t, m, n, delay, k + 1) && t.link.done == s.link.done
    ensures delay > 0 ==> Waiting(Step(s, Task), m, n, delay, k)
  {
    hide Step, Enabled, InAir, Back, Waiting;
    if delay == 0 {
      t := AtOnce(s, m, n, k);
      One(s, Task);
    } else {
      var s1 := StartsTimer(s, m, n, delay, k);
      t := TimerResumes(s1, m, n, delay, k);
      var s2 := Step(s1, Timer);
      One(s2, Task);
      Prepend(s1, Timer, [Task]);
      Prepend(s, Task, [Timer] + [Task]);
      assert Between(delay) == [Task] + ([Timer] + [Task]);
    }
  }

  /** The events of a message that gets these answers, one for each attempt. */
  function Rounds(rets: seq<int>, delay: nat): seq<Event> {
    if rets == [] then []
    else if |rets| == 1 then Answer(rets[0]) + [Task]
    else Answer(rets[0]) + (Between(delay) + Rounds(rets[1..], delay))
  }

  /** Answers to the attempts from `k` on: lost packets, until one is delivered or the attempts are used up. */
  predicate Decides(n: nat, k: nat, rets: seq<int>) {
    && rets != [] && k + |rets| - 1 <= n
    && (forall i :: 0 <= i < |rets| - 1 ==> Lost(rets[i]))
    && (Delivered(rets[|rets| - 1]) || (Lost(rets[|rets| - 1]) && k + |rets| - 1 == n))
  }

  function Verdict(rets: seq<int>): L.Error
    requires rets != []
  {
    if Delivered(rets[|rets| - 1]) then L.Success else L.Fail
  }

  lemma RestDecides(n: nat, k: nat, rets: seq<int>)
    requires Decides(n, k, rets) && |rets| > 1
    ensures Lost(rets[0]) && !Delivered(rets[0]) && k < n && Decides(n, k + 1, rets[1..])
    ensures Verdict(rets[1..]) == Verdict(rets)
  {
  }

  lemma LastRound(s: Stack, m: L.Msg, n: nat, delay: nat, k: nat, rets: seq<int>) returns (t: Stack)
    requires InAir(s, m, n, delay, k) && n <= L.MAX_UINT16 && Decides(n, k, rets) && |rets| == 1
    ensures Possible(s, Rounds(rets, delay)) && Run(s, Rounds(rets, delay)) == t
    ensures t.link.state.Ready? && t.link.attempts == k && t.link.done == s.link.done + [(m, Verdict(rets))]
  {
    var u := Answered(s, m, n, delay, k, rets[0]);
    hide InAir, Back, Possible, Run, Answer;
    t := Reports(u, m, n, delay, k, Delivered(rets[0]));
    Concat(s, Answer(rets[0]), [Task]);
  }

  /** With retries and answers of the driver one after the other: answered 0 the message is reported as sent, with no
      further attempt; with every one of its attempts answered busy, not acknowledged or failed it is reported
      as failed. Between attempts the delay is kept if there is one. */
  lemma {:induction false} AnswersDecide(s: Stack, m: L.Msg, n: nat, delay: nat, k: nat, rets: seq<int>)
    returns (t: Stack)
    requires InAir(s, m, n, delay, k) && n <= L.MAX_UINT16 && Decides(n, k, rets)
    ensures Possible(s, Rounds(rets, delay)) && Run(s, Rounds(rets, delay)) == t
    ensures t.link.state.Ready? && t.link.attempts == k + |rets| - 1
    ensures t.link.done == s.link.done + [(m, Verdict(rets))]
    decreases |rets|
  {
    if |rets| == 1 {
      t := LastRound(s, m, n, delay, k, rets);
    } else {
      RestDecides(n, k, rets);
      assert Rounds(rets, delay) == Answer(rets[0]) + (Between(delay) + Rounds(rets[1..], delay));
      hide *;
      var u := Answered(s, m, n, delay, k, rets[0]);
      var v := TriesAgain(u, m, n, delay, k);
      t := AnswersDecide(v, m, n, delay, k + 1, rets[1..]);
      Concat(u, Between(delay), Rounds(rets[1..], delay));
      Concat(s, Answer(rets[0]), Between(delay) + Rounds(rets[1..], delay));
    }
  }

  lemma OneRecordThere(m: L.Msg, buf: seq<byte>, d: Driver)
    requires |buf| == PACKET_BUFFER_LEN && buf[0] > 2 && Empty(d)
    ensures DoSubmit(d, m, buf) == Driver(Record(m, buf), Idle, [], d.slot, false)
  {
    assert [] + (Header(m, buf[0]) + buf[1..buf[0] - 1]) == Record(m, buf);
  }

  /** Any message accepted by a stack in order gets to its first attempt. */
  lemma FirstAttempt(s: Stack, m: L.Msg, len: byte) returns (t: Stack)
    requires Flow(s) && s.link.state.Ready? && 2 <= len <= 254 && L.MetaOf(s.link.meta, m).retries > 0
    ensures Possible(s, [Submit(m, len), Task]) && Run(s, [Submit(m, len), Task]) == t
    ensures var meta := L.MetaOf(s.link.meta, m); InAir(t, m, meta.retries, meta.delay, 1)
    ensures t.link.done == s.link.done
  {
    var s1 := Step(s, Submit(m, len));
    StampedFrame(s, m, len);
    OneRecordThere(m, BufOf(s1.mem, m), s.driver);
    hide Record, DoSubmit, Frame, Stamped, FramesAsWanted, HoldsFrame;
    t := Step(s1, Task);
    assert InAir(t, m, L.MetaOf(s.link.meta, m).retries, L.MetaOf(s.link.meta, m).delay, 1);
    One(s1, Task);
    Prepend(s, Submit(m, len), [Task]);
    assert [Submit(m, len), Task] == [Submit(m, len)] + [Task];
  }
}
