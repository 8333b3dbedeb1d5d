/**
 * The serial protocol from end to end: packets sent through one port, written to the line in parts of any
 * size, read from it in parts of any size by the frame parser at the other end.
 */
module SerialLine {
  import opened Words
  import opened Framing
  import opened Chains
  import opened PacketHeap
  import opened SerialPort
  import opened Folding

  datatype Act =
    | SendFrame(f: Frame)
    | WriteSome(ret: int)     // the line is writable, and write() returns this
    | ReadSome(n: nat)        // the line is readable, and read() returns as much as this

  /** The frames sent by a list of acts. */
  function SentBy(acts: seq<Act>): seq<Frame> {
    if acts == [] then []
    else
      var a := acts[|acts| - 1];
      SentBy(acts[..|acts| - 1]) + if a.SendFrame? then [a.f] else []
  }

  ghost predicate AllSendable(frames: seq<Frame>) {
    forall f :: f in frames ==> Sendable(f)
  }

  /** A serial port with nothing queued and nothing read. */
  method NewPort() returns (mem: PacketMemory, handler: FDHandler, serial: Serial)
    ensures fresh(mem) && fresh(handler) && fresh(serial)
    ensures mem.Valid() && handler.mem == mem && handler.Valid() && handler.enqueued == [] && handler.written == []
    ensures serial.fdhandler == handler && serial.mem == mem && serial.Valid() && serial.State() == START
  {
    mem, handler := NewHandler();
    serial := new Serial(handler);
  }

  method NewHandler() returns (mem: PacketMemory, handler: FDHandler)
    ensures fresh(mem) && fresh(handler)
    ensures mem.Valid() && handler.mem == mem && handler.Valid() && handler.enqueued == [] && handler.written == []
  {
    mem := new PacketMemory();
    handler := new FDHandler(mem);
  }

  // --- The sending end ------------------------------------------------------------------------------

  /** A write takes bytes of the first packet in the queue. */
  lemma FrontWritten(bodies: seq<seq<byte>>, outPos: int, data: seq<byte>, len: int, ret: nat)
    requires bodies != [] && 0 <= outPos <= outPos + ret <= len <= |data| && bodies[0] == data[..len]
    ensures bodies[0][outPos..outPos + ret] == data[outPos..outPos + ret]
  {}

  class SendingEnd {
    const mem: PacketMemory
    const handler: FDHandler
    const serial: Serial

    ghost predicate Valid()
      reads this, mem, handler
    {
      mem.Valid() && handler.mem == mem && handler.Valid() && serial.fdhandler == handler && serial.mem == mem
    }

    ghost function Status(): Status
      reads this, mem, handler
    {
      if forall k {:trigger Key(k)} :: Key(k) ==> Valid() then Sound else Unsound
    }

    constructor (mem: PacketMemory, handler: FDHandler, serial: Serial)
      requires mem.Valid() && handler.mem == mem && handler.Valid() && serial.fdhandler == handler && serial.mem == mem
      ensures Status() == Sound && this.mem == mem && this.handler == handler
    {
      this.mem, this.handler, this.serial := mem, handler, serial;
    }

    /** A packet in hand with the frame's channel and payload. */
    method MakePacket(f: Frame) returns (p: int)
      requires Valid() && Sendable(f)
      modifies mem
      ensures Valid() && 0 <= p < |mem.cell| && mem.owner[p] == null && mem.cell[p].Filled()
      ensures Frame(mem.cell[p].channel, mem.cell[p].Payload()) == f
    {
      p := mem.Alloc();
      var data := f.payload + mem.cell[p].data[|f.payload|..];
      mem.SetCell(p, Packet(|f.payload|, f.channel, data), null);
      assert data[..|f.payload|] == f.payload;
      handler.Kept({null, mem});
    }

    method Send(f: Frame)
      requires Status() == Sound && Sendable(f)
      modifies mem, handler
      ensures Status() == Sound && handler.enqueued == old(handler.enqueued) + Wire(f) && handler.written == old(handler.written)
    {
      assert Key(0);
      var p := MakePacket(f);
      serial.Send(p);
    }

    /** The line takes up to ret bytes of the first packet in the queue, if there is one. */
    method Write(ret: int) returns (bytes: seq<byte>)
      requires Status() == Sound
      modifies mem, handler
      ensures Status() == Sound && handler.enqueued == old(handler.enqueued) && handler.written == old(handler.written) + bytes
    {
      assert Key(0);
      bytes := [];
      if handler.outFirst != NULL {
        bytes := WriteFirst(ret);
      }
    }

    method WriteFirst(ret: int) returns (bytes: seq<byte>)
      requires Valid() && handler.outFirst != NULL
      modifies mem, handler
      ensures Valid() && handler.enqueued == old(handler.enqueued) && handler.written == old(handler.written) + bytes
    {
      var p := mem.cell[handler.outFirst];
      var avail := p.len - handler.outPos;
      var n := if ret > avail then avail else if ret < -1 then -1 else ret;
      bytes := if n >= 0 then p.data[handler.outPos..handler.outPos + n] else [];
      if n >= 0 {
        FrontWritten(handler.bodies, handler.outPos, p.data, p.len, n);
      }
      handler.WriteSome(n);
    }

    method IsDrained() returns (b: bool)
      requires Status() == Sound
      ensures b <==> handler.queue == []
    {
      assert Key(0);
      b := handler.outFirst == NULL;
    }

    /** What is written is the front of the whole stream, and all of it when the queue is empty. */
    lemma Written()
      requires Status() == Sound
      ensures handler.written <= handler.enqueued && (handler.queue == [] ==> handler.written == handler.enqueued)
    {
      assert Key(0);
      BooksMean(handler.written, handler.bodies, handler.outPos, handler.enqueued);
      var rest := Unwritten(handler.bodies, handler.outPos);
      assert handler.written + rest == handler.enqueued;
    }
  }

  /** The bytes declare no length that is too large. */
  ghost function Readable(state: Parser, bytes: seq<byte>): Status {
    if forall k {:trigger Key(k)} :: Key(k) ==> MaxDeclared(state, bytes) <= MAX_PAYLOAD then Sound else Unsound
  }

  /** Reading the bytes delivers the frames. */
  ghost function Delivers(before: Parser, bytes: seq<byte>, after: Parser, frames: seq<Frame>): Status {
    if forall k {:trigger Key(k)} :: Key(k) ==> Feed(before, bytes) == (after, frames) then Sound else Unsound
  }

  // --- The receiving end ----------------------------------------------------------------------------

  class ReceivingEnd {
    const mem: PacketMemory
    const serial: Serial

    ghost predicate Valid()
      reads this, mem, serial
    {
      mem.Valid() && serial.mem == mem && serial.Valid()
    }

    ghost function Status(): Status
      reads this, mem, serial
    {
      if forall k {:trigger Key(k)} :: Key(k) ==> Valid() then Sound else Unsound
    }

    ghost function State(): Parser
      requires Status() == Sound
      reads this, mem, serial
    {
      assert Key(0);
      serial.State()
    }

    constructor (mem: PacketMemory, serial: Serial)
      requires mem.Valid() && serial.mem == mem && serial.Valid()
      ensures Status() == Sound && State() == serial.State() && this.mem == mem && this.serial == serial
    {
      this.mem, this.serial := mem, serial;
    }

    /** The packet one read fills. */
    method FillPacket(bytes: seq<byte>) returns (p: int)
      requires Valid() && |bytes| <= MAX_PAYLOAD
      modifies mem
      ensures Valid() && serial.State() == old(serial.State())
      ensures 0 <= p < |mem.cell| && mem.owner[p] == null && mem.cell[p].Filled() && mem.cell[p].Payload() == bytes
    {
      p := mem.Alloc();
      var data := bytes + mem.cell[p].data[|bytes|..];
      mem.SetCell(p, Packet(|bytes|, -101, data), null);
      assert data[..|bytes|] == bytes;
      serial.Kept({null, mem});
    }

    method Discard(p: int)
      requires Valid() && 0 <= p < |mem.cell| && mem.owner[p] == null
      modifies mem
      ensures Valid() && serial.State() == old(serial.State())
      ensures mem.cell == old(mem.cell) && mem.owner == old(mem.owner)[p := mem]
    {
      mem.Free(p);
      serial.Kept({null, mem});
    }

    /** Reads the frames out of packets that were posted, and frees the packets. */
    method TakeFrames(posted: seq<int>, ghost frames: seq<Frame>) returns (got: seq<Frame>)
      requires Valid() && Carried(mem.cell, mem.owner, posted, frames)
      modifies mem
      ensures Valid() && serial.State() == old(serial.State()) && got == frames
    {
      got := [];
      var i := 0;
      while i < |posted|
        invariant 0 <= i <= |posted| && Valid() && serial.State() == old(serial.State())
        invariant Carried(mem.cell, mem.owner, posted[i..], frames[i..]) && got == frames[..i]
      {
        var p := posted[i];
        assert posted[i..][0] == p && posted[i..][1..] == posted[i + 1..] && frames[i..][1..] == frames[i + 1..];
        got := got + [Frame(mem.cell[p].channel, mem.cell[p].data[..mem.cell[p].len])];
        CarriedRest(mem.cell, mem.owner, posted[i..], frames[i..], mem);
        Discard(p);
        i := i + 1;
      }
    }

    /** One read from the line, and the frames it completes. */
    method Read(bytes: seq<byte>) returns (frames: seq<Frame>)
      requires Status() == Sound && |bytes| <= MAX_PAYLOAD && Readable(State(), bytes) == Sound
      modifies mem, serial
      ensures Status() == Sound && Delivers(old(State()), bytes, State(), frames) == Sound
    {
      assert Key(0);
      ghost var state := State();
      var p := FillPacket(bytes);
      var posted := serial.FdReceive(p);
      frames := TakeFrames(posted, Feed(state, bytes).1);
    }
  }

  // --- Both ends ------------------------------------------------------------------------------------

  /** How far a stream of frames has come. */
  datatype Trip = Trip(
    sent: seq<Frame>, enqueued: seq<byte>, written: seq<byte>, done: seq<byte>, transit: seq<byte>,
    state: Parser, received: seq<Frame>)

  /** The bytes enqueued are those of the frames sent; those written have been read or are on the line. */
  ghost predicate OnTheWay(t: Trip) {
    AllSendable(t.sent) && t.enqueued == WireAll(t.sent) && t.written == t.done + t.transit &&
    Feed(START, t.done) == (t.state, t.received)
  }

  ghost function Track(t: Trip): Status {
    if forall k {:trigger Key(k)} :: Key(k) ==> OnTheWay(t) then Sound else Unsound
  }

  /** Cutting what is on the line in two. */
  ghost function Cuts(transit: seq<byte>, bytes: seq<byte>, left: seq<byte>): Status {
    if forall k {:trigger Key(k)} :: Key(k) ==> transit == bytes + left then Sound else Unsound
  }

  /** The whole stream, cut around what is read next. */
  lemma Regrouped<T>(done: seq<T>, bytes: seq<T>, left: seq<T>, rest: seq<T>)
    ensures done + (bytes + left) + rest == done + bytes + (left + rest)
  {
    Associative(done, bytes, left);
    Associative(done + bytes, left, rest);
  }

  /** What the receiver reads next is safe to read. */
  lemma NextIsSafe(t: Trip, bytes: seq<byte>, left: seq<byte>)
    requires Track(t) == Sound && Cuts(t.transit, bytes, left) == Sound && t.written <= t.enqueued
    ensures Readable(t.state, bytes) == Sound
  {
    assert Key(0);
    var rest := t.enqueued[|t.written|..];
    assert t.written + rest == t.enqueued;
    Regrouped(t.done, bytes, left, rest);
    MidStream(t.sent, t.done, bytes, left + rest);
  }

  /** What it has received are the first of the frames sent. */
  lemma ReceivedFirst(t: Trip)
    requires Track(t) == Sound && t.written <= t.enqueued
    ensures t.received <= t.sent
  {
    assert Key(0);
    var rest := t.enqueued[|t.written|..];
    assert t.written + rest == t.enqueued;
    Associative(t.done, t.transit, rest);
    PrefixDelivers(t.sent, t.done, t.transit + rest);
  }

  lemma SendMore(t: Trip, f: Frame)
    requires Track(t) == Sound && Sendable(f)
    ensures Track(t.(sent := t.sent + [f], enqueued := t.enqueued + Wire(f))) == Sound
  {
    assert Key(0);
    WireAllMore(t.sent, f);
  }

  lemma WriteMore(t: Trip, bytes: seq<byte>)
    requires Track(t) == Sound
    ensures Track(t.(written := t.written + bytes, transit := t.transit + bytes)) == Sound
  {
    assert Key(0);
    Associative(t.done, t.transit, bytes);
  }

  lemma ReadOn(t: Trip, bytes: seq<byte>, left: seq<byte>, state: Parser, frames: seq<Frame>)
    requires Track(t) == Sound && Cuts(t.transit, bytes, left) == Sound && Delivers(t.state, bytes, state, frames) == Sound
    ensures Track(t.(done := t.done + bytes, transit := left, state := state, received := t.received + frames)) == Sound
  {
    assert Key(0);
    FeedConcat(START, t.done, bytes);
    Associative(t.done, bytes, left);
  }

  lemma Started()
    ensures Track(Trip([], [], [], [], [], START, [])) == Sound
  {}

  lemma AllReceived(t: Trip)
    requires Track(t) == Sound && t.transit == [] && t.written == t.enqueued
    ensures t.received == t.sent
  {
    assert Key(0);
    assert t.done + [] == t.done;
    FeedWireAll(START, t.sent);
  }

  class Line {
    const sender: SendingEnd
    const receiver: ReceivingEnd
    var transit: seq<byte>         // written to the line and not yet read
    var received: seq<Frame>
    ghost var sent: seq<Frame>
    ghost var done: seq<byte>      // read from the line

    ghost predicate Ends()
      reads this, sender, sender.mem, sender.handler, receiver, receiver.mem, receiver.serial
    {
      sender.Status() == Sound && receiver.Status() == Sound && sender.mem != receiver.mem
    }

    ghost function Now(): Trip
      requires Ends()
      reads this, sender, sender.mem, sender.handler, receiver, receiver.mem, receiver.serial
    {
      Trip(sent, sender.handler.enqueued, sender.handler.written, done, transit, receiver.State(), received)
    }

    ghost predicate Valid()
      reads this, sender, sender.mem, sender.handler, receiver, receiver.mem, receiver.serial
    {
      Ends() && Track(Now()) == Sound
    }

    constructor (sender: SendingEnd, receiver: ReceivingEnd)
      requires sender.Status() == Sound && sender.handler.enqueued == [] && sender.handler.written == []
      requires receiver.Status() == Sound && receiver.State() == START && sender.mem != receiver.mem
      ensures Valid() && sent == [] && this.sender == sender && this.receiver == receiver
    {
      this.sender, this.receiver, transit, received, sent, done := sender, receiver, [], [], [], [];
      new;
      Started();
    }

    method Send(f: Frame)
      requires Valid() && Sendable(f)
      modifies `sent, sender.mem, sender.handler
      ensures Valid() && sent == old(sent) + [f]
    {
      SendMore(Now(), f);
      sender.Send(f);
      sent := sent + [f];
    }

    method Write(ret: int)
      requires Valid()
      modifies `transit, sender.mem, sender.handler
      ensures Valid()
    {
      ghost var t := Now();
      var bytes := sender.Write(ret);
      WriteMore(t, bytes);
      transit := transit + bytes;
    }

    /** As many bytes as one read takes of what is on the line. */
    method Cut(n: nat) returns (bytes: seq<byte>, left: seq<byte>)
      ensures Cuts(transit, bytes, left) == Sound && |bytes| <= MAX_PAYLOAD
      ensures |bytes| == n || |bytes| == MAX_PAYLOAD || left == []
    {
      var size := if n < |transit| then n else |transit|;
      size := if size < MAX_PAYLOAD then size else MAX_PAYLOAD;
      bytes, left := transit[..size], transit[size..];
    }

    lemma SafeToRead(bytes: seq<byte>, left: seq<byte>)
      requires Valid() && Cuts(transit, bytes, left) == Sound
      ensures Readable(receiver.State(), bytes) == Sound
    {
      sender.Written();
      NextIsSafe(Now(), bytes, left);
    }

    method Receive(bytes: seq<byte>, left: seq<byte>)
      requires Valid() && Cuts(transit, bytes, left) == Sound && |bytes| <= MAX_PAYLOAD
      modifies `transit, `received, `done, receiver.mem, receiver.serial
      ensures Valid()
    {
      ghost var t := Now();
      SafeToRead(bytes, left);
      var frames := receiver.Read(bytes);
      Note(t, bytes, left, frames);
    }

    /** What has been read is done with. */
    method Note(ghost t: Trip, bytes: seq<byte>, left: seq<byte>, frames: seq<Frame>)
      requires Ends() && Track(t) == Sound && Now() == t.(state := receiver.State())
      requires Cuts(t.transit, bytes, left) == Sound && Delivers(t.state, bytes, receiver.State(), frames) == Sound
      modifies `transit, `received, `done
      ensures Valid()
    {
      ReadOn(t, bytes, left, receiver.State(), frames);
      received, done, transit := received + frames, done + bytes, left;
    }

    method Read(n: nat)
      requires Valid()
      modifies `transit, `received, `done, receiver.mem, receiver.serial
      ensures Valid()
    {
      var bytes, left := Cut(n);
      Receive(bytes, left);
    }

    method Do(a: Act)
      requires Valid() && (a.SendFrame? ==> Sendable(a.f))
      modifies this, sender.mem, sender.handler, receiver.mem, receiver.serial
      ensures Valid() && sent == old(sent) + if a.SendFrame? then [a.f] else []
    {
      match a {
        case SendFrame(f) => Send(f);
        case WriteSome(ret) => Write(ret);
        case ReadSome(n) => Read(n);
      }
    }

    /** What has been received, and whether nothing is left on the way. */
    method Result() returns (frames: seq<Frame>, drained: bool)
      requires Valid()
      ensures frames <= sent && (drained ==> frames == sent)
      ensures drained <==> sender.handler.queue == [] && transit == []
    {
      sender.Written();
      ReceivedFirst(Now());
      frames := received;
      var empty := sender.IsDrained();
      drained := empty && transit == [];
      if drained {
        AllReceived(Now());
      }
    }
  }

  /** A run between two ports that have just been set up. */
  method Transmit(acts: seq<Act>) returns (received: seq<Frame>, drained: bool)
    requires forall a :: a in acts && a.SendFrame? ==> Sendable(a.f)
    ensures received <= SentBy(acts) && (drained ==> received == SentBy(acts))
  {
    var sender := NewSender();
    var receiver := NewReceiver();
    var line := new Line(sender, receiver);
    received, drained := Run(line, acts);
  }

  method NewSender() returns (end: SendingEnd)
    ensures end.Status() == Sound && end.handler.enqueued == [] && end.handler.written == []
    ensures fresh(end) && fresh(end.mem) && fresh(end.handler)
  {
    var m, h, s := NewPort();
    end := new SendingEnd(m, h, s);
  }

  method NewReceiver() returns (end: ReceivingEnd)
    ensures end.Status() == Sound && end.State() == START && fresh(end) && fresh(end.mem) && fresh(end.serial)
  {
    var m, h, s := NewPort();
    end := new ReceivingEnd(m, s);
  }

  /**
   * Any run: frames sent, the line writable and readable at any moments and for any amounts. The frames
   * received are always the first of those sent, and all of them when nothing is left on the way.
   */
  method Run(line: Line, acts: seq<Act>) returns (received: seq<Frame>, drained: bool)
    requires line.Valid() && line.sent == [] && forall a :: a in acts && a.SendFrame? ==> Sendable(a.f)
    modifies line, line.sender.mem, line.sender.handler, line.receiver.mem, line.receiver.serial
    ensures received <= SentBy(acts) && (drained ==> received == SentBy(acts))
    ensures drained <==> line.sender.handler.queue == [] && line.transit == []
  {
    for i := 0 to |acts|
      invariant line.Valid() && line.sent == SentBy(acts[..i])
    {
      assert acts[..i + 1][..i] == acts[..i] && acts[i] in acts;
      line.Do(acts[i]);
    }
    assert acts[..|acts|] == acts;
    received, drained := line.Result();
  }
}
