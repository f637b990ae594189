/** The send driver: messages go down a byte pipe as header and body, a child process
    turns each into one write to the radio and answers on a second pipe, and the
    answer waits in a single slot for the completion task. */
module SendDriver {
  import opened LinkLayer

  type byte = x: nat | x < 256

  const HEADER := 8          // pointer, length and padding of the pipe header
  const PACKET_BUFFER_LEN := 256

  // return codes of the radio driver
  const TX_SUCCESS := 0
  const TX_FAILED := 252
  const TX_ACK_TIMEOUT := 253
  const TX_LENGTH := 254
  const TX_BUSY := 255

  /** The pipe header of a message: its address in four bytes, its length byte, padding. */
  function Header(m: Msg, len: byte): (h: seq<byte>)
    ensures |h| == HEADER
  {
    [m % 256, m / 256 % 256, m / 65536 % 256, m / 16777216 % 256, len, 0, 0, 0]
  }

  function HeaderMsg(h: seq<byte>): Msg
    requires |h| == HEADER
  {
    h[0] as int + 256 * (h[1] as int) + 65536 * (h[2] as int) + 16777216 * (h[3] as int)
  }

  function HeaderLen(h: seq<byte>): byte
    requires |h| == HEADER
  {
    h[4]
  }

  lemma HeaderRoundTrip(m: Msg, len: byte)
    ensures HeaderMsg(Header(m, len)) == m && HeaderLen(Header(m, len)) == len
  {
    var a, b, c := m / 256, m / 256 / 256, m / 256 / 256 / 256;
    assert m / 65536 == b && m / 16777216 == c;
    assert m == 256 * a + m % 256 && a == 256 * b + a % 256 && b == 256 * c + b % 256;
    assert c < 256;
  }

  /** What is sent down the pipe for a message whose bytes are `buf`. */
  function Record(m: Msg, buf: seq<byte>): seq<byte>
    requires |buf| == PACKET_BUFFER_LEN && buf[0] > 2
  {
    Header(m, buf[0]) + buf[1..buf[0] - 1]
  }

  /** What the radio gets for it: the length byte and the packet without its checksum. */
  function Frame(buf: seq<byte>): seq<byte>
    requires |buf| == PACKET_BUFFER_LEN && buf[0] > 2
  {
    buf[..buf[0] - 1]
  }

  datatype Result = Result(msg: Msg, ret: int, len: byte)

  /** Where the child stands in its loop. */
  datatype Child =
    | Idle
    | Got(msg: Msg, len: byte)
    | Wrote(result: Result)
    | Broken   // it has closed its pipes after an empty read

  datatype Driver = Driver(writePipe: seq<byte>, child: Child, readPipe: seq<Result>, slot: Result, doneTask: bool)

  const Quiet := Driver([], Idle, [], Result(0, 0, 0), false)

  /** BareSend.send. With a length byte below 2 the body write has no valid length and fails. */
  function DoSubmit(d: Driver, m: Msg, buf: seq<byte>): Driver
    requires |buf| == PACKET_BUFFER_LEN
  {
    d.(writePipe := d.writePipe + Header(m, buf[0]) + if buf[0] > 2 then buf[1..buf[0] - 1] else [])
  }

  function DoChildHeader(d: Driver): Driver
    requires d.child.Idle? && |d.writePipe| >= HEADER
  {
    var h := d.writePipe[..HEADER];
    d.(writePipe := d.writePipe[HEADER..], child := Got(HeaderMsg(h), HeaderLen(h)))
  }

  predicate BodyReady(d: Driver) {
    d.child.Got? && (d.child.len > 2 ==> |d.writePipe| >= d.child.len - 2)
  }

  /** The body read and the write to the radio, which answers `ret`. */
  function DoChildBody(d: Driver, ret: int): Driver
    requires BodyReady(d)
  {
    if d.child.len <= 2 then d.(child := Broken)
    else d.(writePipe := d.writePipe[d.child.len - 2..], child := Wrote(Result(d.child.msg, ret, d.child.len)))
  }

  /** The bytes the radio is given by that write. */
  function ChildFrame(d: Driver): seq<byte>
    requires BodyReady(d) && d.child.len > 2
  {
    [d.child.len] + d.writePipe[..d.child.len - 2]
  }

  function DoChildAnswer(d: Driver): Driver
    requires d.child.Wrote?
  {
    d.(readPipe := d.readPipe + [d.child.result], child := Idle)
  }

  /** The select loop reports the read pipe as ready, perhaps without cause. */
  function DoReceiveReady(d: Driver): Driver {
    if d.readPipe == [] then d
    else d.(slot := d.readPipe[0], readPipe := d.readPipe[1..], doneTask := true)
  }

  /** Whether the completion task sets the ack flag, and to what. */
  function AckUpdate(r: Result): (bool, bool) {
    if r.ret == TX_BUSY || r.ret == TX_ACK_TIMEOUT || r.ret == TX_FAILED then (true, false)
    else if r.ret == TX_LENGTH then (false, false)
    else if r.ret == TX_SUCCESS || r.ret == r.len - 1 then (true, true)
    else (false, false)
  }

  /** What each answer of the radio driver means for the ack flag of the message. */
  lemma AckCodes(m: Msg, ret: int, len: byte)
    ensures AckUpdate(Result(m, ret, len)) ==
            if ret == 0 then (true, true)
            else if ret in {252, 253, 255} then (true, false)
            else if ret != 254 && ret == len - 1 then (true, true)
            else (false, false)
  {
  }

  /** A frame written whole, which the driver answers with its number of bytes, is recorded as acknowledged
      unless that number is also one of the driver's error codes. */
  lemma WholeWriteAcked(r: Result)
    requires r.len > 2 && r.ret == r.len - 1
    ensures AckUpdate(r) == (true, true) <==> r.ret != TX_FAILED && r.ret != TX_ACK_TIMEOUT && r.ret != TX_LENGTH
    ensures AckUpdate(Result(1, 252, 253)) == (true, false)
  {
  }

  // ---- The byte pipe carries records faithfully

  datatype Packet = Packet(msg: Msg, buf: seq<byte>)

  predicate GoodPackets(ps: seq<Packet>) {
    forall i :: 0 <= i < |ps| ==> |ps[i].buf| == PACKET_BUFFER_LEN && ps[i].buf[0] > 2
  }

  function Records(ps: seq<Packet>): seq<byte>
    requires GoodPackets(ps)
  {
    if ps == [] then [] else Record(ps[0].msg, ps[0].buf) + Records(ps[1..])
  }

  /** What the child makes of a pipe's content: the frames it writes, with their messages,
      and whether it ends between two records. */
  function Decode(bytes: seq<byte>): (r: (seq<(Msg, seq<byte>)>, bool))
    decreases |bytes|
  {
    if bytes == [] then ([], true)
    else if |bytes| < HEADER then ([], false)
    else
      var h := bytes[..HEADER];
      var n := HeaderLen(h) - 2;
      var rest := bytes[HEADER..];
      if n <= 0 || |rest| < n then ([], false)
      else
        var (frames, complete) := Decode(rest[n..]);
        ([(HeaderMsg(h), [HeaderLen(h)] + rest[..n])] + frames, complete)
  }

  lemma DecodeRecord(m: Msg, buf: seq<byte>, more: seq<byte>)
    requires |buf| == PACKET_BUFFER_LEN && buf[0] > 2
    ensures Decode(Record(m, buf) + more) == ([(m, Frame(buf))] + Decode(more).0, Decode(more).1)
  {
    var bytes, n := Record(m, buf) + more, buf[0] - 2;
    HeaderRoundTrip(m, buf[0]);
    assert bytes[..HEADER] == Header(m, buf[0]);
    assert bytes[HEADER..] == buf[1..buf[0] - 1] + more;
    assert bytes[HEADER..][..n] == buf[1..buf[0] - 1];
    assert bytes[HEADER..][n..] == more;
    assert [buf[0]] + buf[1..buf[0] - 1] == Frame(buf);
  }

  /** The frames of a sequence of packets, with their messages. */
  function Frames(ps: seq<Packet>): seq<(Msg, seq<byte>)>
    requires GoodPackets(ps)
  {
    seq(|ps|, i requires 0 <= i < |ps| => (ps[i].msg, Frame(ps[i].buf)))
  }

  /** Any sequence of submitted packets is decoded by the child into exactly their frames, in order. */
  lemma {:induction false} PipeIsFaithful(ps: seq<Packet>)
    requires GoodPackets(ps)
    ensures Decode(Records(ps)) == (Frames(ps), true)
    decreases |ps|
  {
    if ps != [] {
      PipeIsFaithful(ps[1..]);
      DecodeRecord(ps[0].msg, ps[0].buf, Records(ps[1..]));
      assert Frames(ps) == [(ps[0].msg, Frame(ps[0].buf))] + Frames(ps[1..]);
    }
  }

  // ---- The driver as it works

  class SendP {
    var writePipe: seq<byte>
    var readPipe: seq<Result>
    var sendHdr: Result
    var doneTaskPending: bool
    const pktBuf: array<byte>   // the child's packet buffer

    constructor ()
      ensures pktBuf.Length == PACKET_BUFFER_LEN && fresh(pktBuf)
      ensures Abs(Idle) == Quiet
    {
      writePipe, readPipe, sendHdr, doneTaskPending := [], [], Result(0, 0, 0), false;
      pktBuf := new byte[PACKET_BUFFER_LEN];
    }

    ghost function Abs(child: Child): Driver
      reads this
    {
      Driver(writePipe, child, readPipe, sendHdr, doneTaskPending)
    }

    method BareSend(msg: Msg, buf: array<byte>) returns (error: Error)
      requires buf.Length == PACKET_BUFFER_LEN
      modifies this
      ensures forall child :: Abs(child) == DoSubmit(old(Abs(child)), msg, buf[..])
      ensures error == Success
    {
      var len := buf[0];
      writePipe := writePipe + Header(msg, len);
      if len > 2 { writePipe := writePipe + buf[1..len - 1]; }
      return Success;
    }

    /** One round of the child's loop with a whole record in the pipe: the bytes it writes
        to the radio, which answers `ret`, and the answer it passes on. */
    method ChildRound(ret: int) returns (frame: seq<byte>)
      requires pktBuf.Length == PACKET_BUFFER_LEN
      requires |writePipe| >= HEADER
      requires var len := HeaderLen(writePipe[..HEADER]); len > 2 && |writePipe| >= HEADER + len - 2
      modifies this, pktBuf
      ensures var d := DoChildHeader(old(Abs(Idle)));
              && frame == ChildFrame(d)
              && Abs(Idle) == DoChildAnswer(DoChildBody(d, ret))
    {
      var header := writePipe[..HEADER];
      writePipe := writePipe[HEADER..];
      var msg, len := HeaderMsg(header), HeaderLen(header);
      pktBuf[0] := len;
      forall k | 0 <= k < len - 2 { pktBuf[1 + k] := writePipe[k]; }
      frame := pktBuf[..len - 1];
      assert frame == [len] + writePipe[..len - 2];
      writePipe := writePipe[len - 2..];
      readPipe := readPipe + [Result(msg, ret, len)];
    }

    method ReceiveReady()
      modifies this
      ensures forall child :: Abs(child) == DoReceiveReady(old(Abs(child)))
    {
      if readPipe == [] { return; }
      sendHdr, readPipe := readPipe[0], readPipe[1..];
      doneTaskPending := true;
    }

    /** The completion task: the message it reports, and the ack flag it sets, if any. */
    method SendDoneTask() returns (msg: Msg, setsAck: bool, acked: bool)
      requires doneTaskPending
      modifies this
      ensures forall child :: Abs(child) == old(Abs(child)).(doneTask := false)
      ensures msg == sendHdr.msg && (setsAck, acked) == AckUpdate(sendHdr)
    {
      doneTaskPending := false;
      msg := sendHdr.msg;
      setsAck, acked := false, false;
      if sendHdr.ret == TX_BUSY || sendHdr.ret == TX_ACK_TIMEOUT || sendHdr.ret == TX_FAILED {
        setsAck := true;
      } else if sendHdr.ret == TX_LENGTH {
      } else if sendHdr.ret == TX_SUCCESS {
        setsAck, acked := true, true;
      } else if sendHdr.ret == sendHdr.len - 1 {
        setsAck, acked := true, true;
      }
    }
  }
}
