/** The whole send path: radio interface, link layer, pipes, child and completion slot,
    with clients free to send, cancel and write messages between any two steps. */
module RadioStack {
  import opened LinkLayer
  import opened SendDriver

  const DSN := 3   // offset of the sequence number in a message
  const FCF := 1   // offset of the first frame control byte
  const ACK_REQ := 32

  type Buffer = b: seq<byte> | |b| == PACKET_BUFFER_LEN witness seq(PACKET_BUFFER_LEN, _ => 0)

  function BufOf(mem: map<Msg, Buffer>, m: Msg): Buffer {
    if m in mem then mem[m] else seq(PACKET_BUFFER_LEN, _ => 0)
  }

  /** The frame control byte with the acknowledgement bit set. */
  function WithAck(b: byte): byte {
    if b / ACK_REQ % 2 == 1 then b else b + ACK_REQ
  }

  /** What a client asks for: the bytes of its message as it hands it over, the length it names,
      and whether it has set retries. */
  datatype Order = Order(bytes: Buffer, len: byte, retried: bool)

  /** `number` is the radio's sequence number; the fields behind it are history: the number of
      Send.send calls, which call each accepted send was, what it asked for and the frame this
      makes, and every frame put on the radio with the send it belongs to. */
  datatype Stack = Stack(
    link: Link, driver: Driver, mem: map<Msg, Buffer>, number: byte,
    calls: nat, callOf: seq<nat>, orders: seq<Order>, wanted: seq<seq<byte>>, frames: seq<(int, seq<byte>)>,
    framesNow: nat)   // frames put on the radio since the last acceptance

  function Start(first: byte): Stack {
    Stack(Boot, Quiet, map[], first, 0, [], [], [], [], 0)
  }

  datatype Event =
    | Submit(msg: Msg, len: byte)
    | Withdraw(msg: Msg)
    | Task
    | Timer
    | ChildHeader
    | ChildBody(ret: int)
    | ChildAnswer
    | ReceiveReady
    | DoneTask
    | SetMetadata(msg: Msg, value: Meta)
    | Write(msg: Msg, buf: Buffer)

  predicate Enabled(s: Stack, e: Event) {
    match e
    case Task => s.link.taskPending
    case Timer => s.link.timerRunning
    case ChildHeader => s.driver.child.Idle? && |s.driver.writePipe| >= HEADER
    case ChildBody(_) => BodyReady(s.driver)
    case ChildAnswer => s.driver.child.Wrote?
    case DoneTask => s.driver.doneTask
    case _ => true
  }

  /** A message with its length byte and a sequence number filled in. */
  function StampedWith(buf: Buffer, len: byte, number: byte): Buffer {
    buf[0 := (len + 1) % 256][DSN := number]
  }

  function Stamped(s: Stack, m: Msg, len: byte): Buffer {
    StampedWith(BufOf(s.mem, m), len, s.number)
  }

  /** The radio interface stamps the message and passes it on; an accepted message that wants
      retries gets the acknowledgement bit. */
  function DoRadioSend(s: Stack, m: Msg, len: byte): Stack {
    var stamped := Stamped(s, m, len);
    var (link, error) := DoSend(s.link, m);
    var buf: Buffer := if error == Success && MetaOf(s.link.meta, m).retries > 0
                       then stamped[FCF := WithAck(stamped[FCF])] else stamped;
    var t := s.(mem := s.mem[m := buf], number := (s.number + 1) % 256, calls := s.calls + 1, link := link);
    if error != Success then t
    else t.(callOf := s.callOf + [s.calls],
            orders := s.orders + [Order(BufOf(s.mem, m), len, MetaOf(s.link.meta, m).retries > 0)],
            wanted := s.wanted + [buf[..len]], framesNow := 0)
  }

  /** The link task; a lower send it makes goes straight down the pipe, which always accepts. */
  function DoLinkTask(s: Stack): Stack {
    var link := DoTask(s.link, true);
    var t := s.(link := link);
    if link.attempts == s.link.attempts + 1
    then t.(driver := DoSubmit(s.driver, link.current, BufOf(s.mem, link.current)))
    else t
  }

  function DoBody(s: Stack, ret: int): Stack
    requires BodyReady(s.driver)
  {
    var t := s.(driver := DoChildBody(s.driver, ret));
    if s.driver.child.len < 2 then t
    else if s.driver.child.len == 2 then t.(frames := s.frames + [(|s.wanted| - 1, [2])])
    else t.(frames := s.frames + [(|s.wanted| - 1, ChildFrame(s.driver))], framesNow := s.framesNow + 1)
  }

  function DoCompletion(s: Stack): Stack {
    var (sets, acked) := AckUpdate(s.driver.slot);
    s.(driver := s.driver.(doneTask := false),
       link := DoLowerDone(s.link, s.driver.slot.msg, Success, acked, sets))
  }

  function Step(s: Stack, e: Event): Stack
    requires Enabled(s, e)
  {
    match e
    case Submit(m, len) => DoRadioSend(s, m, len)
    case Withdraw(m) => s.(link := DoCancel(s.link, m).0)
    case Task => DoLinkTask(s)
    case Timer => s.(link := LinkLayer.Step(s.link, TimerFired))
    case ChildHeader => s.(driver := DoChildHeader(s.driver))
    case ChildBody(ret) => DoBody(s, ret)
    case ChildAnswer => s.(driver := DoChildAnswer(s.driver))
    case ReceiveReady => s.(driver := DoReceiveReady(s.driver))
    case DoneTask => DoCompletion(s)
    case SetMetadata(m, value) => s.(link := LinkLayer.Step(s.link, SetMeta(m, value)))
    case Write(m, buf) => s.(mem := s.mem[m := buf])
  }

  // ---- What every run keeps

  predicate InFlight(s: Stack, m: Msg) {
    !s.link.state.Ready? && s.link.current == m
  }

  /** The rules for clients: lengths from 2 to 254, hands off the message in flight, and no
      second cancel while its lower send is out. */
  predicate Fair(s: Stack, e: Event) {
    match e
    case Submit(m, len) => 2 <= len <= 254 && !InFlight(s, m)
    case Write(m, _) => !InFlight(s, m)
    case Withdraw(m) => !LateCancel(s.link, Cancel(m))
    case _ => true
  }

  /** The record is still on its way to the radio. */
  predicate OnTheWay(d: Driver, m: Msg, buf: Buffer) {
    && buf[0] > 2 && d.readPipe == [] && !d.doneTask
    && ((d.child == Idle && d.writePipe == Record(m, buf))
        || (d.child == Got(m, buf[0]) && d.writePipe == buf[1..buf[0] - 1]))
  }

  /** The radio has answered and the answer is on its way back. */
  predicate OnTheWayBack(d: Driver, m: Msg) {
    && d.writePipe == []
    && ((d.child.Wrote? && d.child.result.msg == m && d.readPipe == [] && !d.doneTask)
        || (d.child == Idle && |d.readPipe| == 1 && d.readPipe[0].msg == m && !d.doneTask)
        || (d.child == Idle && d.readPipe == [] && d.doneTask && d.slot.msg == m))
  }

  predicate Empty(d: Driver) {
    d.writePipe == [] && d.child == Idle && d.readPipe == [] && !d.doneTask
  }

  /** There is a record somewhere between the link layer and the completion task exactly while a
      lower send is out, it is a single one, and it is that of the current message. */
  predicate OneRecord(s: Stack) {
    var m, buf := s.link.current, BufOf(s.mem, s.link.current);
    if s.link.out == [] then Empty(s.driver) && s.link.attempts == s.framesNow
    else
      || (OnTheWay(s.driver, m, buf) && s.link.attempts == s.framesNow + 1)
      || (OnTheWayBack(s.driver, m) && s.link.attempts == s.framesNow)
  }

  /** The message in flight still holds the frame its send asked for. */
  predicate HoldsFrame(s: Stack) {
    && |s.wanted| == |s.link.accepted| == |s.callOf|
    && (!s.link.state.Ready? ==>
          var buf := BufOf(s.mem, s.link.current);
          |s.wanted| > 0 && 2 < buf[0] && Frame(buf) == s.wanted[|s.wanted| - 1])
  }

  predicate FramesAsWanted(s: Stack) {
    forall i :: 0 <= i < |s.frames| ==>
      0 <= s.frames[i].0 < |s.wanted| && s.frames[i].1 == s.wanted[s.frames[i].0]
  }

  predicate Numbered(s: Stack, first: byte) {
    && s.number == (first + s.calls) % 256
    && |s.callOf| == |s.wanted|
    && (forall i :: 0 <= i < |s.callOf| ==> s.callOf[i] < s.calls)
    && (forall i, j :: 0 <= i < j < |s.callOf| ==> s.callOf[i] < s.callOf[j])
    && (forall i :: 0 <= i < |s.wanted| && |s.wanted[i]| > DSN ==> s.wanted[i][DSN] == (first + s.callOf[i]) % 256)
    && (forall i :: 0 <= i < |s.wanted| ==> |s.wanted[i]| >= 2 && s.wanted[i][0] == |s.wanted[i]| + 1)
  }

  /** Byte `k` of the frame for an order: the length that follows, the number, the client's first frame control
      byte with the acknowledgement request added if it wants retries, and the client's own bytes. */
  predicate ByteOf(order: Order, number: byte, w: seq<byte>, k: nat)
    requires k < |w| && k < PACKET_BUFFER_LEN
  {
    var own := order.bytes[k];
    if k == 0 then w[k] == order.len + 1
    else if k == 1 then w[k] == if order.retried && own / 32 % 2 == 0 then own + 32 else own
    else if k == 3 then w[k] == number
    else w[k] == own
  }

  predicate FrameOf(order: Order, number: byte, w: seq<byte>) {
    |w| == order.len <= 254 && forall k :: 0 <= k < |w| ==> ByteOf(order, number, w, k)
  }

  predicate AsOrdered(s: Stack, first: byte) {
    && |s.orders| == |s.wanted| == |s.callOf|
    && forall i :: 0 <= i < |s.orders| ==> FrameOf(s.orders[i], (first + s.callOf[i]) % 256, s.wanted[i])
  }

  /** What is under way now. */
  predicate Flow(s: Stack) {
    Inv(s.link) && OneRecord(s) && HoldsFrame(s) && FramesAsWanted(s)
  }

  /** What has been accepted so far. */
  predicate Past(s: Stack, first: byte) {
    Numbered(s, first) && AsOrdered(s, first)
  }

  ghost predicate StackInv(s: Stack, first: byte) {
    Flow(s) && Past(s, first)
  }

  lemma StampedFrame(s: Stack, m: Msg, len: byte)
    requires s.link.state.Ready? && 2 <= len <= 254
    ensures var t := DoRadioSend(s, m, len);
            var buf := BufOf(t.mem, m);
            && buf[0] == len + 1 && (len > DSN ==> buf[DSN] == s.number)
            && t.wanted == s.wanted + [Frame(buf)] && |Frame(buf)| == len
            && t.callOf == s.callOf + [s.calls] && t.calls == s.calls + 1 && t.number == (s.number + 1) % 256
  {
  }

  lemma BusySubmit(s: Stack, m: Msg, len: byte)
    requires !s.link.state.Ready?
    ensures var t := DoRadioSend(s, m, len);
            && t.wanted == s.wanted && t.callOf == s.callOf
            && t.calls == s.calls + 1 && t.number == (s.number + 1) % 256
  {
  }

  lemma NextNumber(n: nat)
    ensures (n % 256 + 1) % 256 == (n + 1) % 256
  {
  }

  lemma SubmitNumbers(s: Stack, first: byte, m: Msg, len: byte)
    requires Numbered(s, first) && 2 <= len <= 254
    ensures Numbered(DoRadioSend(s, m, len), first)
  {
    if s.link.state.Ready? { StampedFrame(s, m, len); } else { BusySubmit(s, m, len); }
    NextNumber(first + s.calls);
    hide DoRadioSend, Frame, BufOf;
  }

  lemma SubmitHolds(s: Stack, m: Msg, len: byte)
    requires HoldsFrame(s) && FramesAsWanted(s) && Fair(s, Submit(m, len))
    ensures HoldsFrame(DoRadioSend(s, m, len)) && FramesAsWanted(DoRadioSend(s, m, len))
  {
  }

  lemma SubmitRecords(s: Stack, m: Msg, len: byte)
    requires Inv(s.link) && OneRecord(s) && Fair(s, Submit(m, len))
    ensures OneRecord(DoRadioSend(s, m, len))
  {
  }

  /** The frame of an accepted send is what the client handed over, but for length, number and request. */
  lemma AcceptedFrame(s: Stack, m: Msg, len: byte)
    requires s.link.state.Ready? && 2 <= len <= 254
    ensures var t := DoRadioSend(s, m, len);
            && |t.orders| == |s.orders| + 1 && |t.wanted| == |s.wanted| + 1
            && t.orders[..|s.orders|] == s.orders && t.wanted[..|s.wanted|] == s.wanted
            && t.orders[|s.orders|] == Order(BufOf(s.mem, m), len, MetaOf(s.link.meta, m).retries > 0)
            && FrameOf(t.orders[|s.orders|], s.number, t.wanted[|s.wanted|])
  {
  }

  lemma OrdersGrow(s: Stack, t: Stack, first: byte)
    requires AsOrdered(s, first)
    requires |t.orders| == |t.wanted| == |t.callOf| == |s.orders| + 1
    requires t.orders[..|s.orders|] == s.orders && t.wanted[..|s.orders|] == s.wanted
    requires t.callOf == s.callOf + [s.calls]
    requires FrameOf(t.orders[|s.orders|], (first + s.calls) % 256, t.wanted[|s.orders|])
    ensures AsOrdered(t, first)
  {
    hide FrameOf;
    forall i | 0 <= i < |t.orders| ensures FrameOf(t.orders[i], (first + t.callOf[i]) % 256, t.wanted[i]) {
      if i < |s.orders| {
        assert t.orders[i] == t.orders[..|s.orders|][i] && t.wanted[i] == t.wanted[..|s.orders|][i];
      }
    }
  }

  lemma SubmitOrders(s: Stack, first: byte, m: Msg, len: byte)
    requires AsOrdered(s, first) && s.number == (first + s.calls) % 256 && 2 <= len <= 254
    ensures AsOrdered(DoRadioSend(s, m, len), first)
  {
    if s.link.state.Ready? {
      StampedFrame(s, m, len);
      AcceptedFrame(s, m, len);
      hide DoRadioSend, FrameOf, Frame, BufOf;
      OrdersGrow(s, DoRadioSend(s, m, len), first);
    } else {
      BusySubmit(s, m, len);
      hide FrameOf, BufOf, Stamped;
    }
  }

  lemma SubmitKeeps(s: Stack, first: byte, m: Msg, len: byte)
    requires StackInv(s, first) && Fair(s, Submit(m, len))
    ensures StackInv(DoRadioSend(s, m, len), first)
  {
    StepKeepsExactly(s.link, Send(m));
    SubmitRecords(s, m, len);
    SubmitHolds(s, m, len);
    SubmitNumbers(s, first, m, len);
    SubmitOrders(s, first, m, len);
  }

  lemma TaskKeeps(s: Stack)
    requires Flow(s) && s.link.taskPending
    ensures Flow(DoLinkTask(s))
  {
    StepKeepsExactly(s.link, RunTask(true));
    assert Empty(s.driver);
    var t := DoLinkTask(s);
    if t.link.attempts == s.link.attempts + 1 {
      var m := s.link.current;
      assert t.driver.writePipe == Record(m, BufOf(s.mem, m));
    }
  }

  lemma BodyKeeps(s: Stack, ret: int)
    requires Flow(s) && BodyReady(s.driver)
    ensures Flow(DoBody(s, ret))
    ensures DoBody(s, ret).frames == s.frames + [(|s.wanted| - 1, s.wanted[|s.wanted| - 1])]
  {
    var buf := BufOf(s.mem, s.link.current);
    assert OnTheWay(s.driver, s.link.current, buf);
    assert ChildFrame(s.driver) == Frame(buf);
    var t := DoBody(s, ret);
    assert t.driver.writePipe == [];
    assert OnTheWayBack(t.driver, s.link.current);
  }

  lemma HeaderKeeps(s: Stack)
    requires Flow(s) && Enabled(s, ChildHeader)
    ensures Flow(Step(s, ChildHeader))
  {
    var m, buf := s.link.current, BufOf(s.mem, s.link.current);
    assert OnTheWay(s.driver, m, buf);
    HeaderRoundTrip(m, buf[0]);
    assert s.driver.writePipe[..HEADER] == Header(m, buf[0]);
    assert s.driver.writePipe[HEADER..] == buf[1..buf[0] - 1];
  }

  lemma CompletionKeeps(s: Stack)
    requires Flow(s) && s.driver.doneTask
    ensures s.link.out == [s.driver.slot.msg]
    ensures Flow(DoCompletion(s))
  {
    var (sets, acked) := AckUpdate(s.driver.slot);
    hide AckUpdate, Frame;
    assert s.link.out == [s.link.current];
    StepKeepsExactly(s.link, LowerDone(Success, acked, sets));
  }

  lemma OtherKeeps(s: Stack, e: Event)
    requires Flow(s) && Enabled(s, e) && Fair(s, e)
    requires e.Withdraw? || e.Timer? || e.ChildAnswer? || e.ReceiveReady? || e.SetMetadata? || e.Write?
    ensures Flow(Step(s, e))
  {
    match e
    case Withdraw(m) => StepKeepsExactly(s.link, Cancel(m));
    case Timer => StepKeepsExactly(s.link, TimerFired);
    case SetMetadata(m, value) => StepKeepsExactly(s.link, SetMeta(m, value));
    case _ =>
  }

  lemma PastStays(s: Stack, e: Event, first: byte)
    requires Past(s, first) && Enabled(s, e) && !e.Submit?
    ensures Past(Step(s, e), first)
  {
    hide FrameOf, DoTask, DoCancel, DoLowerDone, AckUpdate, DoSubmit, DoChildBody, ChildFrame, BufOf;
  }

  lemma StackStepKeeps(s: Stack, first: byte, e: Event)
    requires StackInv(s, first) && Enabled(s, e) && Fair(s, e)
    ensures StackInv(Step(s, e), first)
  {
    if !e.Submit? { PastStays(s, e, first); }
    hide Flow, Past;
    match e
    case Submit(m, len) => SubmitKeeps(s, first, m, len);
    case Task => TaskKeeps(s);
    case ChildHeader => HeaderKeeps(s);
    case ChildBody(ret) => BodyKeeps(s, ret);
    case DoneTask => CompletionKeeps(s);
    case _ => OtherKeeps(s, e);
  }

  predicate Possible(s: Stack, es: seq<Event>)
    decreases |es|
  {
    es == [] || (Enabled(s, es[0]) && Possible(Step(s, es[0]), es[1..]))
  }

  function Run(s: Stack, es: seq<Event>): Stack
    requires Possible(s, es)
    decreases |es|
  {
    if es == [] then s else Run(Step(s, es[0]), es[1..])
  }

  /** A run in which the clients keep the rules. */
  predicate FairRun(s: Stack, es: seq<Event>)
    requires Possible(s, es)
    decreases |es|
  {
    es == [] || (Fair(s, es[0]) && FairRun(Step(s, es[0]), es[1..]))
  }

  lemma {:induction false} StackRunKeeps(s: Stack, first: byte, es: seq<Event>)
    requires StackInv(s, first) && Possible(s, es) && FairRun(s, es)
    ensures StackInv(Run(s, es), first)
    decreases |es|
  {
    if es != [] {
      StackStepKeeps(s, first, es[0]);
      StackRunKeeps(Step(s, es[0]), first, es[1..]);
    }
  }

  // ---- Main results over all runs from start-up

  /** At most one record exists between the link layer and the completion task, so the
      single slot is never overwritten before it is consumed, and what is consumed is always the
      current message, the only lower send out. */
  lemma OneRecordAtATime(first: byte, es: seq<Event>)
    requires Possible(Start(first), es) && FairRun(Start(first), es)
    ensures var s := Run(Start(first), es);
            var d := s.driver;
            && |s.link.out| <= 1
            && (s.link.out == [] <==> Empty(d))
            && (d.doneTask ==> d.slot.msg == s.link.current && s.link.out == [d.slot.msg])
            && (d.doneTask ==> DoReceiveReady(d) == d)
            && d.child != Broken
  {
    StackRunKeeps(Start(first), first, es);
  }

  /** Every frame put on the radio is the frame of the accepted send it belongs to, retries included: as many
      bytes as the send named, the client's own but for the length, the send's number and the request for an
      acknowledgement; and once the message is reported, each attempt of that send has put exactly one
      frame on the radio. */
  lemma FramesAreFaithful(first: byte, es: seq<Event>)
    requires Possible(Start(first), es) && FairRun(Start(first), es)
    ensures var s := Run(Start(first), es);
            && (forall i :: 0 <= i < |s.frames| ==>
                  0 <= s.frames[i].0 < |s.wanted| && s.frames[i].1 == s.wanted[s.frames[i].0])
            && |s.orders| == |s.wanted| == |s.callOf| == |s.link.accepted|
            && (forall k :: 0 <= k < |s.wanted| ==> FrameOf(s.orders[k], (first + s.callOf[k]) % 256, s.wanted[k]))
            && (s.link.state.Ready? ==> s.framesNow == s.link.attempts)
  {
    StackRunKeeps(Start(first), first, es);
  }

  /** Accepted sends fewer than 256 calls of Send.send apart carry different sequence numbers,
      and the calls are numbered in the order of acceptance. */
  lemma NumbersDiffer(first: byte, es: seq<Event>, i: nat, j: nat)
    requires Possible(Start(first), es) && FairRun(Start(first), es)
    requires var s := Run(Start(first), es);
             i < j < |s.wanted| && |s.callOf| == |s.wanted|
             && |s.wanted[i]| > DSN && |s.wanted[j]| > DSN && s.callOf[j] < s.callOf[i] + 256
    ensures var s := Run(Start(first), es);
            s.callOf[i] < s.callOf[j] && s.wanted[i][DSN] != s.wanted[j][DSN]
  {
    StackRunKeeps(Start(first), first, es);
    var s := Run(Start(first), es);
    ModDiffers(first + s.callOf[i], first + s.callOf[j]);
  }

  lemma ModDiffers(a: nat, b: nat)
    requires a < b < a + 256
    ensures a % 256 != b % 256
  {
  }

  // ---- What happens without the rules

  lemma Prepend(s: Stack, e: Event, es: seq<Event>)
    requires Enabled(s, e) && Possible(Step(s, e), es)
    ensures Possible(s, [e] + es) && Run(s, [e] + es) == Run(Step(s, e), es)
  {
    assert ([e] + es)[1..] == es;
  }

  /** From the task on, a message's way to the radio. */
  function Way(ret: int): seq<Event> { [Task] + ([ChildHeader] + ([ChildBody(ret)] + [])) }

  /** The link task is about to send `m` down to a quiet driver. */
  predicate Waiting(s: Stack, m: Msg) {
    s.link.taskPending && s.link.state.Sending? && s.link.current == m && s.link.out == [] && s.driver == Quiet
  }

  /** The state in which the child has written the message to the radio, or tried to. */
  function Written(s: Stack, m: Msg, ret: int): Stack {
    var len := BufOf(s.mem, m)[0];
    var t := s.(link := DoTask(s.link, true),
                driver := Quiet.(child := if len > 2 then Wrote(Result(m, ret, len)) else Broken));
    if len < 2 then t
    else if len == 2 then t.(frames := s.frames + [(|s.wanted| - 1, [2])])
    else t.(frames := s.frames + [(|s.wanted| - 1, Frame(BufOf(s.mem, m)))], framesNow := s.framesNow + 1)
  }

  lemma BodyWritten(s: Stack, m: Msg, ret: int)
    requires s.driver == Quiet
    ensures var d := DoSubmit(Quiet, m, BufOf(s.mem, m));
            && d.child.Idle? && |d.writePipe| >= HEADER && BodyReady(DoChildHeader(d))
            && DoChildBody(DoChildHeader(d), ret) == Written(s, m, ret).driver
            && (BufOf(s.mem, m)[0] > 2 ==> ChildFrame(DoChildHeader(d)) == Frame(BufOf(s.mem, m)))
            && DoChildHeader(d).child == Got(m, BufOf(s.mem, m)[0])
  {
    var buf := BufOf(s.mem, m);
    HeaderRoundTrip(m, buf[0]);
    var d := DoSubmit(Quiet, m, buf);
    assert d.writePipe[..HEADER] == Header(m, buf[0]);
    if buf[0] > 2 {
      assert d.writePipe[HEADER..] == buf[1..buf[0] - 1];
      assert [buf[0]] + buf[1..buf[0] - 1] == Frame(buf);
    } else {
      assert d.writePipe[HEADER..] == [];
    }
  }

  lemma WayIs(s: Stack, m: Msg, ret: int)
    requires Waiting(s, m)
    ensures Possible(s, Way(ret)) && Run(s, Way(ret)) == Written(s, m, ret)
  {
    BodyWritten(s, m, ret);
    hide DoSubmit, DoChildHeader, DoChildBody, ChildFrame, Frame;
    var s1 := Step(s, Task);
    assert s1 == s.(link := DoTask(s.link, true), driver := DoSubmit(Quiet, m, BufOf(s.mem, m)));
    var s2 := Step(s1, ChildHeader);
    var s3 := Step(s2, ChildBody(ret));
    assert s3 == Written(s, m, ret);
    Prepend(s2, ChildBody(ret), []);
    Prepend(s1, ChildHeader, [ChildBody(ret)] + []);
    Prepend(s, Task, [ChildHeader] + ([ChildBody(ret)] + []));
  }

  /** The child has ended without an answer. */
  predicate Dead(s: Stack) {
    s.driver.child.Broken? && s.driver.readPipe == [] && !s.driver.doneTask
  }

  lemma FirstSubmit(first: byte, m: Msg, len: byte)
    ensures var s := Step(Start(first), Submit(m, len));
            && Waiting(s, m) && s.frames == [] && s.wanted == [Stamped(Start(first), m, len)[..len]]
            && BufOf(s.mem, m) == Stamped(Start(first), m, len)
            && Inv(s.link) && s.link.done == [] && s.link.accepted == [m]
            && var t := DoTask(s.link, true); t.out == [m] && Inv(t) && t.done == [] && t.accepted == [m]
  {
    StepKeepsExactly(Boot, Send(m));
    StepKeepsExactly(DoSend(Boot, m).0, RunTask(true));
  }

  lemma StampedLength(s: Stack, m: Msg, len: byte)
    ensures var buf := Stamped(s, m, len);
            && (buf[0] > 2 <==> 2 <= len <= 254)
            && (buf[0] > 2 ==> Frame(buf) == buf[..len] && |Frame(buf)| == len)
  {
  }

  /** The first message of all, sent with any length: the child answers it, and the radio has been given exactly
      its bytes, if and only if the length is from 2 to 254. */
  lemma LengthDecides(first: byte, m: Msg, len: byte, ret: int)
    ensures var es := [Submit(m, len)] + Way(ret);
            && Possible(Start(first), es)
            && var s := Run(Start(first), es);
               && s.link.out == [m] && Inv(s.link) && s.link.done == [] && s.link.accepted == [m]
               && |s.wanted| == 1
               && if 2 <= len <= 254
                  then s.driver.child.Wrote? && s.frames == [(0, s.wanted[0])] && |s.wanted[0]| == len
                  else Dead(s)
  {
    FirstSubmit(first, m, len);
    StampedLength(Start(first), m, len);
    var s1 := Step(Start(first), Submit(m, len));
    assert Enabled(Start(first), Submit(m, len));
    hide Enabled, Step, Stamped, BufOf, DoTask, Possible, Way, Frame, Inv;
    WayIs(s1, m, ret);
    Prepend(Start(first), Submit(m, len), Way(ret));
  }

  /** No second cancel while the lower send is out. */
  predicate CancelledOnceOnly(s: Stack, es: seq<Event>)
    requires Possible(s, es)
    decreases |es|
  {
    es == [] ||
    ((es[0].Withdraw? ==> !LateCancel(s.link, Cancel(es[0].msg))) && CancelledOnceOnly(Step(s, es[0]), es[1..]))
  }

  lemma DeadStep(s: Stack, e: Event)
    requires Dead(s) && Inv(s.link) && s.link.out != [] && Enabled(s, e)
    requires e.Withdraw? ==> !LateCancel(s.link, Cancel(e.msg))
    ensures var t := Step(s, e);
            Dead(t) && Inv(t.link) && t.link.out == s.link.out && t.link.done == s.link.done
  {
    match e
    case Submit(m, _) => StepKeepsExactly(s.link, Send(m));
    case Withdraw(m) => StepKeepsExactly(s.link, Cancel(m));
    case SetMetadata(m, value) => StepKeepsExactly(s.link, SetMeta(m, value));
    case _ =>
  }

  /** Once the child has ended without an answer, the message is never reported, whatever happens,
      one cancel included. */
  lemma {:induction false} NeverReported(s: Stack, es: seq<Event>)
    requires Dead(s) && Inv(s.link) && s.link.out != []
    requires Possible(s, es) && CancelledOnceOnly(s, es)
    ensures var t := Run(s, es); Dead(t) && t.link.out == s.link.out && t.link.done == s.link.done
    decreases |es|
  {
    if es != [] {
      DeadStep(s, es[0]);
      NeverReported(Step(s, es[0]), es[1..]);
    }
  }

  /** A message overwritten between acceptance and attempt: the radio gets what is in it then, so it gets the
      frame asked for if and only if that is still in it. */
  lemma TouchedFrame(first: byte, m: Msg, len: byte, buf: Buffer, ret: int)
    requires 2 <= len <= 254 && buf[0] > 2
    ensures var es := [Submit(m, len)] + ([Write(m, buf)] + Way(ret));
            && Possible(Start(first), es)
            && var s := Run(Start(first), es);
               && |s.wanted| == 1 && s.frames == [(0, Frame(buf))]
               && (s.frames[0].1 == s.wanted[0] <==> Frame(buf) == Frame(Stamped(Start(first), m, len)))
  {
    FirstSubmit(first, m, len);
    StampedLength(Start(first), m, len);
    var s1 := Step(Start(first), Submit(m, len));
    var s2 := Step(s1, Write(m, buf));
    WayIs(s2, m, ret);
    Prepend(s1, Write(m, buf), Way(ret));
    Prepend(Start(first), Submit(m, len), [Write(m, buf)] + Way(ret));
  }

  /** As when its first byte behind the sequence number has been changed. */
  lemma WrittenFrameDiffers(first: byte, m: Msg, len: byte, ret: int)
    requires DSN + 1 < len <= 254
    ensures var buf := Stamped(Start(first), m, len)[DSN + 1 := 1];
            var es := [Submit(m, len)] + ([Write(m, buf)] + Way(ret));
            && Possible(Start(first), es)
            && var s := Run(Start(first), es);
               |s.wanted| == 1 && |s.frames| == 1 && s.frames[0].1 != s.wanted[0]
  {
    var buf := Stamped(Start(first), m, len);
    assert Frame(buf)[DSN + 1] == 0 && Frame(buf[DSN + 1 := 1])[DSN + 1] == 1;
    hide Frame, Stamped, Possible, Run, Way;
    TouchedFrame(first, m, len, buf[DSN + 1 := 1], ret);
  }

  lemma WrittenFrames(s: Stack, m: Msg, ret: int)
    requires BufOf(s.mem, m)[0] > 2
    ensures var t := Written(s, m, ret);
            t.wanted == s.wanted && t.frames == s.frames + [(|s.wanted| - 1, Frame(BufOf(s.mem, m)))]
  {
  }

  lemma SecondSubmit(first: byte, m: Msg, len: byte, again: byte)
    ensures var s := Step(Start(first), Submit(m, len));
            var t := Step(s, Submit(m, again));
            && Waiting(t, m) && t.frames == [] && t.wanted == s.wanted
            && BufOf(t.mem, m)[0] == (again + 1) % 256 && BufOf(t.mem, m)[DSN] == (first + 1) % 256
  {
  }

  /** A message sent once more while it is in flight is refused, but has got new stamps: the radio is given another
      frame than the accepted send asked for. */
  lemma ResubmittedFrameDiffers(first: byte, m: Msg, len: byte, again: byte, ret: int)
    requires DSN < len <= 254 && DSN < again <= 254
    ensures var es := [Submit(m, len)] + ([Submit(m, again)] + Way(ret));
            && Possible(Start(first), es)
            && var s := Run(Start(first), es);
               |s.wanted| == 1 && |s.frames| == 1 && s.frames[0].1 != s.wanted[0]
  {
    FirstSubmit(first, m, len);
    SecondSubmit(first, m, len, again);
    var s1 := Step(Start(first), Submit(m, len));
    var s2 := Step(s1, Submit(m, again));
    assert s1.wanted[0][DSN] == first;
    assert Frame(BufOf(s2.mem, m))[DSN] == (first + 1) % 256;
    assert Enabled(Start(first), Submit(m, len)) && Enabled(s1, Submit(m, again));
    assert BufOf(s2.mem, m)[0] > 2 && |s1.wanted| == 1 && Frame(BufOf(s2.mem, m)) != s1.wanted[0];
    hide *;
    WayIs(s2, m, ret);
    WrittenFrames(s2, m, ret);
    Prepend(s1, Submit(m, again), Way(ret));
    Prepend(Start(first), Submit(m, len), [Submit(m, again)] + Way(ret));
  }

  // ---- The radio interface as it works

  class RadioP {
    var sequenceNumber: byte

    constructor (nodeId: nat)
      ensures sequenceNumber == nodeId * 8 % 256
    {
      sequenceNumber := nodeId * 8 % 256;
    }

    /** Fills in the length byte and the sequence number before the message is passed on. */
    method Stamp(msg: array<byte>, len: byte)
      requires msg.Length == PACKET_BUFFER_LEN
      modifies this, msg
      ensures msg[..] == StampedWith(old(msg[..]), len, old(sequenceNumber))
      ensures sequenceNumber == (old(sequenceNumber) + 1) % 256
    {
      msg[0] := (len + 1) % 256;
      msg[DSN] := sequenceNumber;
      sequenceNumber := (sequenceNumber + 1) % 256;
    }
  }
}
