/** One running session of the tunnel server: the goroutine that reads from the client, the
    one that reads from the TUN interface, and the handler between them, as interleaved
    steps over their rendezvous channels. */
module TunnelSession {

  type Packet = seq<nat>

  datatype Handler =
    | Select
    | WriteTun(pkt: Packet)     // a chunk from the client, to be written to the TUN interface
    | WriteTcp(pkt: Packet)     // a packet from the TUN interface, to be written to the client
    | PutQuit                   // the disconnect has been noticed
    | Wake                      // the quit is in the channel; the wake-up packet is to be sent
    | AwaitTun                  // blocked until the TUN goroutine has finished
    | Unset                     // the TUN name is to be released
    | Finished

  datatype TcpReader = TcpRead | TcpHave(pkt: Packet) | TcpQuit | TcpDone

  datatype TunReader =
    | TunRead
    | TunHave(pkt: Packet)      // before the look into the quit channel
    | TunSend(pkt: Packet)      // after it, blocked on the handler
    | TunClosed                 // the interface is closed; waits for the handler
    | TunDone

  /** The last four fields record what was read and written, in order. */
  datatype Session = Session(
    handler: Handler, tcp: TcpReader, tun: TunReader,
    quits: nat,                 // what is in the buffered quit channel
    closed: bool,               // the TUN interface
    tcpIn: seq<Packet>, tunOut: seq<Packet>,
    tunIn: seq<Packet>, tcpOut: seq<Packet>)

  const Begin := Session(Select, TcpRead, TunRead, 0, false, [], [], [], [])

  datatype Event =
    | TcpReads(pkt: Packet)
    | TcpEnds                   // a read error or a read of nothing
    | TcpHandsOver
    | TcpSignalsQuit
    | TunReads(pkt: Packet)
    | TunChecks
    | TunHandsOver
    | HandlerWritesTun
    | HandlerWritesTcp
    | HandlerPutsQuit
    | HandlerWakes
    | HandlerMeetsTun
    | HandlerUnsets

  predicate Enabled(s: Session, e: Event) {
    match e
    case TcpReads(pkt) => s.tcp.TcpRead? && |pkt| > 0
    case TcpEnds => s.tcp.TcpRead?
    case TcpHandsOver => s.tcp.TcpHave? && s.handler.Select?
    case TcpSignalsQuit => s.tcp.TcpQuit? && s.handler.Select?
    case TunReads(_) => s.tun.TunRead?
    case TunChecks => s.tun.TunHave?
    case TunHandsOver => s.tun.TunSend? && s.handler.Select?
    case HandlerWritesTun => s.handler.WriteTun?
    case HandlerWritesTcp => s.handler.WriteTcp?
    case HandlerPutsQuit => s.handler.PutQuit? && s.quits < 10
    case HandlerWakes => s.handler.Wake?
    case HandlerMeetsTun => s.handler.AwaitTun? && s.tun.TunClosed?
    case HandlerUnsets => s.handler.Unset?
  }

  function Step(s: Session, e: Event): Session
    requires Enabled(s, e)
  {
    match e
    case TcpReads(pkt) => s.(tcp := TcpHave(pkt), tcpIn := s.tcpIn + [pkt])
    case TcpEnds => s.(tcp := TcpQuit)
    case TcpHandsOver => s.(tcp := TcpRead, handler := WriteTun(s.tcp.pkt))
    case TcpSignalsQuit => s.(tcp := TcpDone, handler := PutQuit)
    case TunReads(pkt) => s.(tun := TunHave(pkt), tunIn := s.tunIn + [pkt])
    case TunChecks =>
      if s.quits > 0 then s.(quits := s.quits - 1, closed := true, tun := TunClosed)
      else s.(tun := TunSend(s.tun.pkt))
    case TunHandsOver => s.(tun := TunRead, handler := WriteTcp(s.tun.pkt))
    case HandlerWritesTun => s.(tunOut := s.tunOut + [s.handler.pkt], handler := Select)
    case HandlerWritesTcp => s.(tcpOut := s.tcpOut + [s.handler.pkt], handler := Select)
    case HandlerPutsQuit => s.(quits := s.quits + 1, handler := Wake)
    case HandlerWakes => s.(handler := AwaitTun)
    case HandlerMeetsTun => s.(tun := TunDone, handler := Unset)
    case HandlerUnsets => s.(handler := Finished)
  }

  // ---- What every step keeps

  /** The disconnect has been noticed. */
  predicate TearingDown(s: Session) {
    !s.handler.Select? && !s.handler.WriteTun? && !s.handler.WriteTcp?
  }

  /** Chunks from the client on their way through the two hands, oldest first. */
  function TowardsTun(s: Session): seq<Packet> {
    (if s.handler.WriteTun? then [s.handler.pkt] else []) + (if s.tcp.TcpHave? then [s.tcp.pkt] else [])
  }

  /** Packets from the TUN interface in hand, oldest first. */
  function TowardsTcp(s: Session): seq<Packet> {
    (if s.handler.WriteTcp? then [s.handler.pkt] else []) +
    (if s.tun.TunHave? || s.tun.TunSend? then [s.tun.pkt] else [])
  }

  /** Every chunk read from the client is written to the TUN interface or in hand, in order; every
      packet read from the TUN interface is written to the client or in hand, but for the one that was
      in hand when the interface was closed. */
  predicate Relay(s: Session) {
    && s.tcpIn == s.tunOut + TowardsTun(s)
    && if s.closed then |s.tunIn| == |s.tcpOut| + 1 && s.tcpOut == s.tunIn[..|s.tcpOut|]
       else s.tunIn == s.tcpOut + TowardsTcp(s)
  }

  /** How the three parties stand to each other. */
  predicate InStep(s: Session) {
    && s.quits <= 1
    && (s.closed <==> s.tun.TunClosed? || s.tun.TunDone?)
    && (TearingDown(s) <==> s.tcp.TcpDone?)
    && (s.quits == 1 ==> (s.handler.Wake? || s.handler.AwaitTun?) && !s.closed)
    && (s.closed ==> TearingDown(s) && !s.handler.PutQuit?)
    && ((s.handler.Wake? || s.handler.AwaitTun?) ==> s.quits == 1 || s.tun.TunClosed?)
    && ((s.handler.Unset? || s.handler.Finished?) <==> s.tun.TunDone?)
  }

  predicate SessionInv(s: Session) {
    Relay(s) && InStep(s)
  }

  lemma RelayKept(s: Session, e: Event)
    requires SessionInv(s) && Enabled(s, e)
    ensures Relay(Step(s, e))
  {
  }

  lemma StaysInStep(s: Session, e: Event)
    requires InStep(s) && Enabled(s, e)
    ensures InStep(Step(s, e))
  {
  }

  lemma SessionStepKeeps(s: Session, e: Event)
    requires SessionInv(s) && Enabled(s, e)
    ensures SessionInv(Step(s, e))
  {
    RelayKept(s, e);
    StaysInStep(s, e);
    hide Step, Enabled, Relay, InStep;
  }

  predicate Possible(s: Session, es: seq<Event>)
    decreases |es|
  {
    es == [] || (Enabled(s, es[0]) && Possible(Step(s, es[0]), es[1..]))
  }

  function Run(s: Session, es: seq<Event>): Session
    requires Possible(s, es)
    decreases |es|
  {
    if es == [] then s else Run(Step(s, es[0]), es[1..])
  }

  lemma {:induction false} SessionRunKeeps(s: Session, es: seq<Event>)
    requires SessionInv(s) && Possible(s, es)
    ensures SessionInv(Run(s, es))
    decreases |es|
  {
    if es != [] {
      SessionStepKeeps(s, es[0]);
      SessionRunKeeps(Step(s, es[0]), es[1..]);
    }
  }

  /** In every interleaving: what is written to each side is what was read from the other, in order, up to
      what is in hand; when the disconnect is handled nothing from the client is left unwritten; and
      nothing is left to write once the TUN interface is closed. */
  lemma RelayConserves(es: seq<Event>)
    requires Possible(Begin, es)
    ensures var s := Run(Begin, es);
            && s.tcpIn == s.tunOut + TowardsTun(s) && |TowardsTun(s)| <= 2
            && (TearingDown(s) ==> s.tunOut == s.tcpIn)
            && s.tcpOut <= s.tunIn && |s.tunIn| - |s.tcpOut| <= 2
            && (s.closed ==> |s.tunIn| - |s.tcpOut| == 1 && !s.handler.WriteTun? && !s.handler.WriteTcp?)
  {
    SessionRunKeeps(Begin, es);
    var s := Run(Begin, es);
    assert s.tcpOut <= s.tcpOut + TowardsTcp(s);
  }

  /** The TUN name is released only after the interface has been closed and its goroutine has ended. */
  lemma ReleaseAfterClose(es: seq<Event>)
    requires Possible(Begin, es)
    ensures var s := Run(Begin, es);
            Enabled(s, HandlerUnsets) || s.handler.Finished? ==> s.closed && s.tun.TunDone? && s.tcp.TcpDone?
  {
    SessionRunKeeps(Begin, es);
  }

  // ---- How the teardown ends

  /** The TUN goroutine passed its look into the quit channel before the quit was in it, and has a
      packet in hand for a handler that will not take it. */
  predicate Stuck(s: Session) {
    s.tun.TunSend? && TearingDown(s)
  }

  /** The steps a stuck session can still make. */
  function StuckLeft(s: Session): nat {
    if s.handler.PutQuit? then 2 else if s.handler.Wake? then 1 else 0
  }

  lemma StuckStep(s: Session, e: Event)
    requires SessionInv(s) && Stuck(s) && Enabled(s, e)
    ensures Stuck(Step(s, e)) && StuckLeft(Step(s, e)) < StuckLeft(s)
  {
  }

  /** A session that is stuck stays so, comes to a stop and never releases its name. */
  lemma {:induction false} StuckForever(s: Session, es: seq<Event>)
    requires SessionInv(s) && Stuck(s) && Possible(s, es)
    ensures Stuck(Run(s, es)) && !Run(s, es).handler.Unset? && !Run(s, es).handler.Finished?
    ensures |es| <= StuckLeft(s)
    ensures |es| == StuckLeft(s) ==> forall e :: !Enabled(Run(s, es), e)
    decreases |es|
  {
    if es != [] {
      SessionStepKeeps(s, es[0]);
      StuckStep(s, es[0]);
      StuckForever(Step(s, es[0]), es[1..]);
    }
  }

  /** A packet is read from the TUN interface and found worth sending; then the client is gone. */
  const WayToStuck := [TunReads([1]), TunChecks, TcpEnds, TcpSignalsQuit]

  /** It does happen. */
  lemma GetsStuck()
    ensures Possible(Begin, WayToStuck) && Stuck(Run(Begin, WayToStuck)) && SessionInv(Run(Begin, WayToStuck))
  {
    var s1 := Step(Begin, TunReads([1]));
    var s2 := Step(s1, TunChecks);
    var s3 := Step(s2, TcpEnds);
    var s4 := Step(s3, TcpSignalsQuit);
    assert Stuck(s4);
    assert WayToStuck[1..] == [TunChecks, TcpEnds, TcpSignalsQuit] && WayToStuck[1..][1..] == [TcpEnds, TcpSignalsQuit];
    assert WayToStuck[1..][1..][1..] == [TcpSignalsQuit];
    SessionRunKeeps(Begin, WayToStuck);
  }

  /** How many steps are left once the disconnect has been noticed. */
  function Left(s: Session): nat {
    (match s.handler case PutQuit => 4 case Wake => 3 case AwaitTun => 2 case Unset => 1 case _ => 0) +
    (match s.tun case TunRead => 3 case TunHave(_) => 2 case TunSend(_) => 1 case TunClosed => 1 case TunDone => 0)
  }

  /** The quit has been put into the channel. */
  predicate QuitPut(s: Session) {
    TearingDown(s) && !s.handler.PutQuit?
  }

  lemma EveryStepNearer(s: Session, e: Event)
    requires SessionInv(s) && TearingDown(s) && Enabled(s, e)
    ensures Left(Step(s, e)) < Left(s) && TearingDown(Step(s, e))
    ensures QuitPut(s) && !Stuck(s) ==> QuitPut(Step(s, e)) && !Stuck(Step(s, e))
  {
  }

  /** Given that a packet arrives to be read, something can always happen until the end. */
  lemma NeverBlocked(s: Session, wakeUp: Packet)
    requires SessionInv(s) && TearingDown(s) && !Stuck(s) && !s.handler.Finished?
    ensures Enabled(s, HandlerPutsQuit) || Enabled(s, HandlerWakes) || Enabled(s, TunReads(wakeUp))
            || Enabled(s, TunChecks) || Enabled(s, HandlerMeetsTun) || Enabled(s, HandlerUnsets)
  {
  }

  /** Once the disconnect has been noticed every interleaving is finite and, where nothing more can happen,
      has released the name or is stuck; it has released the name if the quit was put into the channel
      before the TUN goroutine passed its look. */
  lemma {:induction false} TeardownEnds(s: Session, es: seq<Event>)
    requires SessionInv(s) && TearingDown(s) && Possible(s, es)
    ensures |es| <= Left(s)
    ensures (forall e :: !Enabled(Run(s, es), e)) ==>
              var t := Run(s, es);
              (t.handler.Finished? || Stuck(t)) && (QuitPut(s) && !Stuck(s) ==> t.handler.Finished?)
    decreases |es|
  {
    if es == [] {
      if !s.handler.Finished? && !Stuck(s) { NeverBlocked(s, []); }
    } else {
      SessionStepKeeps(s, es[0]);
      EveryStepNearer(s, es[0]);
      TeardownEnds(Step(s, es[0]), es[1..]);
    }
  }

  /** The next step on the way to the end. */
  lemma TeardownStep(s: Session) returns (e: Event)
    requires SessionInv(s) && TearingDown(s) && !Stuck(s) && !s.handler.Finished?
    ensures Enabled(s, e) && TearingDown(Step(s, e)) && !Stuck(Step(s, e)) && Left(Step(s, e)) < Left(s)
  {
    NeverBlocked(s, []);
    e :| Enabled(s, e) && (s.handler.PutQuit? ==> e.HandlerPutsQuit?);
    EveryStepNearer(s, e);
  }

  predicate EndsBy(s: Session, es: seq<Event>) {
    Possible(s, es) && Run(s, es).handler.Finished?
  }

  /** Once the disconnect has been noticed, the session can come to its end if and only if it is not stuck. */
  lemma EndsUnlessStuck(s: Session)
    requires SessionInv(s) && TearingDown(s)
    ensures (exists es :: EndsBy(s, es)) <==> !Stuck(s)
    decreases Left(s)
  {
    if Stuck(s) {
      forall es | Possible(s, es) ensures !EndsBy(s, es) { StuckForever(s, es); }
    } else if s.handler.Finished? {
      assert EndsBy(s, []);
    } else {
      var e := TeardownStep(s);
      SessionStepKeeps(s, e);
      EndsUnlessStuck(Step(s, e));
      var es :| EndsBy(Step(s, e), es);
      assert ([e] + es)[1..] == es;
      assert EndsBy(s, [e] + es);
    }
  }
}
