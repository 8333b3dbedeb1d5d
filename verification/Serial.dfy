/** The serial connection of qemud: frames read in chunks of any size, and frames queued for writing. */
module SerialPort {
  import opened Words
  import opened Framing
  import opened Chains
  import opened PacketHeap

  /** The packets carry the frames, each in nobody's list, none twice. */
  ghost predicate Carried(cell: seq<Packet>, owner: seq<object?>, posted: seq<int>, frames: seq<Frame>) {
    |posted| == |frames| && Distinct(posted) &&
    forall i :: 0 <= i < |posted| ==>
      0 <= posted[i] < |cell| == |owner| && owner[posted[i]] == null && cell[posted[i]].Filled() &&
      Frame(cell[posted[i]].channel, cell[posted[i]].Payload()) == frames[i]
  }

  lemma CarriedKept(cell: seq<Packet>, owner: seq<object?>, posted: seq<int>, frames: seq<Frame>,
                    cell1: seq<Packet>, owner1: seq<object?>)
    requires Carried(cell, owner, posted, frames) && |cell| == |owner| && |cell| <= |cell1| && |cell1| == |owner1|
    requires forall q :: 0 <= q < |cell| && owner[q] == null ==> cell1[q] == cell[q] && owner1[q] == null
    ensures Carried(cell1, owner1, posted, frames)
  {}

  lemma CarriedJoin(cell: seq<Packet>, owner: seq<object?>, posted: seq<int>, frames: seq<Frame>,
                    more: seq<int>, later: seq<Frame>)
    requires Carried(cell, owner, posted, frames) && Carried(cell, owner, more, later)
    requires forall q :: q in more ==> q !in posted
    ensures Carried(cell, owner, posted + more, frames + later)
  {
    forall i, j | 0 <= i < j < |posted + more| ensures (posted + more)[i] != (posted + more)[j] {
      if i < |posted| <= j {
        assert (posted + more)[j] in more;
      }
    }
  }

  lemma CarriedFreed(cell: seq<Packet>, owner: seq<object?>, posted: seq<int>, frames: seq<Frame>, p: int, me: object)
    requires Carried(cell, owner, posted, frames) && 0 <= p < |owner| && p !in posted
    ensures Carried(cell, owner[p := me], posted, frames)
  {}

  /** The first packet put away. */
  lemma CarriedRest(cell: seq<Packet>, owner: seq<object?>, posted: seq<int>, frames: seq<Frame>, me: object)
    requires Carried(cell, owner, posted, frames) && posted != []
    ensures Carried(cell, owner[posted[0] := me], posted[1..], frames[1..])
  {
    forall i | 0 <= i < |posted| - 1
      ensures posted[1..][i] == posted[i + 1] != posted[0] && frames[1..][i] == frames[i + 1]
    {}
  }

  /** Where a stream stands: done has been fed, giving p and frames, and todo is safe to feed. */
  ghost predicate Fed(start: Parser, done: seq<byte>, todo: seq<byte>, p: Parser, frames: seq<Frame>) {
    Feed(start, done) == (p, frames) && MaxDeclared(p, todo) <= MAX_PAYLOAD
  }

  /** The first rcount bytes of data, cut at rpos. */
  ghost predicate Split(data: seq<byte>, rpos: int, rcount: int, done: seq<byte>, todo: seq<byte>) {
    0 <= rpos <= rcount <= |data| && todo == data[rpos..rcount] && done + todo == data[..rcount]
  }

  lemma SplitMore(data: seq<byte>, rpos: int, rcount: int, done: seq<byte>, todo: seq<byte>, n: nat)
    requires Split(data, rpos, rcount, done, todo) && n <= |todo|
    ensures Split(data, rpos + n, rcount, done + todo[..n], todo[n..])
  {
    SliceOfSlice(data, rpos, rcount, n);
    Associative(done, todo[..n], todo[n..]);
    assert todo[..n] + todo[n..] == todo;
  }

  /** Feeding one more block of a stream. */
  lemma FeedMore(start: Parser, done: seq<byte>, todo: seq<byte>, n: nat, p: Parser, frames: seq<Frame>)
    requires n <= |todo| && Fed(start, done, todo, p, frames)
    ensures var block := todo[..n];
            MaxDeclared(p, block) <= MAX_PAYLOAD &&
            Fed(start, done + block, todo[n..], Feed(p, block).0, frames + Feed(p, block).1)
  {
    assert todo[..n] + todo[n..] == todo;
    FeedConcat(start, done, todo[..n]);
    MaxDeclaredSplit(p, todo[..n], todo[n..]);
  }

  /** One block at once is the same as its bytes one by one. */
  lemma BlockIsFed(p: Parser, src: seq<byte>)
    requires Ready(p) && 0 < |src| <= Wanted(p) && MaxDeclared(p, src) <= MAX_PAYLOAD
    ensures Feed(p, src) == FeedBlock(p, src) && FeedBlock(p, src).0.datalen <= MAX_PAYLOAD
  {
    FeedIsBlock(p, src);
    MaxDeclaredSplit(p, src, []);
    assert src + [] == src;
  }

  class Serial {
    const fdhandler: FDHandler
    const mem: PacketMemory
    var inLen: int
    var inDatalen: int
    var inChannel: int
    var inPacket: int

    ghost predicate Holding()
      reads this, mem
    {
      0 <= inPacket < |mem.cell| && inPacket < |mem.owner| && mem.owner[inPacket] == this &&
      |mem.cell[inPacket].data| == MAX_PAYLOAD && 0 <= inLen <= MAX_PAYLOAD && 0 <= inDatalen <= MAX_PAYLOAD
    }

    /** The state of the frame parser. */
    ghost function State(): Parser
      requires Holding()
      reads this, mem
    {
      Parser(inDatalen, inChannel, mem.cell[inPacket].data[..inLen])
    }

    ghost predicate Valid()
      reads this, mem
    {
      Holding() && Ready(State())
    }

    /** A reader that was left alone, with its packet, is where it was. */
    twostate lemma Kept(objs: set<object?>)
      requires old(Valid()) && unchanged(this) && this !in objs && mem.KeptExcept(objs) && mem.Valid()
      ensures Valid() && State() == old(State())
    {}

    /** serial_init */
    constructor (handler: FDHandler)
      requires handler.mem.Valid() && handler.Valid()
      modifies handler.mem
      ensures fdhandler == handler && mem == handler.mem && mem.Valid() && Valid() && State() == START
      ensures handler.Valid()
    {
      fdhandler, mem := handler, handler.mem;
      inLen, inDatalen, inChannel, inPacket := 0, 0, 0, 0;
      new;
      inPacket := mem.Alloc();
      mem.Take(inPacket, this);
      fdhandler.Kept({mem});
    }

    /** Copies bytes behind what has been read so far. */
    method CopyBlock(src: seq<byte>)
      requires Valid() && mem.Valid() && |src| <= Wanted(State())
      modifies `inLen, mem
      ensures Holding() && mem.Valid() && mem.KeptExcept({this}) && mem.owner == old(mem.owner)
      ensures State() == old(State()).(part := old(State()).part + src)
    {
      var data := mem.cell[inPacket].data;
      mem.SetCell(inPacket, mem.cell[inPacket].(data := data[..inLen] + src + data[inLen + |src|..]), this);
      assert mem.cell[inPacket].data[..inLen + |src|] == data[..inLen] + src;
      inLen := inLen + |src|;
    }

    /** A complete header has been read: takes its two numbers, ignoring malformed and empty frames. */
    method FinishHeader()
      requires Holding() && inDatalen == 0 && inLen == HEADER_SIZE
      requires HeaderDone(State().part).datalen <= MAX_PAYLOAD
      modifies `inLen, `inDatalen, `inChannel
      ensures Valid() && State() == HeaderDone(old(State()).part)
    {
      ghost var header := mem.cell[inPacket].data[..inLen];
      assert mem.cell[inPacket].data[2..6] == header[2..6] && mem.cell[inPacket].data[0..2] == header[0..2];
      inDatalen := Hex2Int(mem.cell[inPacket].data[2..6]);
      inChannel := Hex2Int(mem.cell[inPacket].data[0..2]);
      if inDatalen <= 0 {
        inDatalen := 0;
      }
      inLen := 0;
    }

    /** A complete payload has been read: hands the packet over and starts a new one. */
    method FinishPayload() returns (posted: seq<int>)
      requires Holding() && mem.Valid() && inLen == inDatalen > 0
      modifies `inLen, `inDatalen, `inPacket, mem
      ensures Valid() && mem.Valid() && mem.KeptExcept({this, mem}) && State() == Parser(0, old(inChannel), [])
      ensures old(inChannel) < 0 ==> posted == []
      ensures old(inChannel) >= 0 ==>
        posted == [old(inPacket)] && mem.owner[posted[0]] == null && mem.cell[posted[0]].Filled() &&
        Frame(mem.cell[posted[0]].channel, mem.cell[posted[0]].Payload()) == Frame(old(inChannel), old(State()).part)
    {
      posted := [];
      if inChannel >= 0 {
        mem.SetCell(inPacket, mem.cell[inPacket].(len := inLen, channel := inChannel), null);
        posted := [inPacket];
        inPacket := mem.Alloc();
        mem.Take(inPacket, this);
      }
      inDatalen, inLen := 0, 0;
    }

    /** One pass of the receiving loop: src is all of what the pass may take. */
    method ReadBlock(src: seq<byte>) returns (posted: seq<int>)
      requires Valid() && mem.Valid() && 0 < |src| <= Wanted(State()) && MaxDeclared(State(), src) <= MAX_PAYLOAD
      modifies this, mem
      ensures Valid() && mem.Valid() && mem.KeptExcept({this, mem})
      ensures State() == Feed(old(State()), src).0 && Carried(mem.cell, mem.owner, posted, Feed(old(State()), src).1)
      ensures posted == [] || posted == [old(inPacket)]
    {
      ghost var p := State();
      BlockIsFed(p, src);
      CopyBlock(src);
      posted := FinishBlock(p, src);
    }

    /** What a pass does when its bytes have been copied: it may have completed a header or a payload. */
    method FinishBlock(ghost p: Parser, ghost src: seq<byte>) returns (posted: seq<int>)
      requires Holding() && mem.Valid() && Ready(p) && 0 < |src| <= Wanted(p)
      requires State() == p.(part := p.part + src) && FeedBlock(p, src).0.datalen <= MAX_PAYLOAD
      modifies this, mem
      ensures Valid() && mem.Valid() && mem.KeptExcept({this, mem})
      ensures State() == FeedBlock(p, src).0 && Carried(mem.cell, mem.owner, posted, FeedBlock(p, src).1)
      ensures posted == [] || posted == [old(inPacket)]
    {
      posted := [];
      if inDatalen == 0 {
        if inLen == HEADER_SIZE {
          FinishHeader();
        }
      } else if inLen == inDatalen {
        posted := FinishPayload();
      }
    }

    /** How much of the rest of a read one pass takes, and the pass. */
    method ReadNext(p: int, rpos: nat, ghost todo: seq<byte>) returns (avail: nat, posted: seq<int>)
      requires Valid() && mem.Valid() && 0 <= p < |mem.cell| && mem.owner[p] == null && mem.cell[p].Filled()
      requires todo != [] && rpos + |todo| == mem.cell[p].len && todo == mem.cell[p].data[rpos..mem.cell[p].len]
      requires MaxDeclared(State(), todo) <= MAX_PAYLOAD
      modifies this, mem
      ensures Valid() && mem.Valid() && mem.KeptExcept({this, mem})
      ensures 0 < avail <= |todo| && (posted == [] || posted == [old(inPacket)])
      ensures State() == Feed(old(State()), todo[..avail]).0
      ensures Carried(mem.cell, mem.owner, posted, Feed(old(State()), todo[..avail]).1)
    {
      avail := mem.cell[p].len - rpos;
      var wanted := if inDatalen == 0 then HEADER_SIZE - inLen else inDatalen - inLen;
      if avail > wanted {
        avail := wanted;
      }
      SliceOfSlice(mem.cell[p].data, rpos, mem.cell[p].len, avail);
      assert todo[..avail] + todo[avail..] == todo;
      MaxDeclaredSplit(State(), todo[..avail], todo[avail..]);
      posted := ReadBlock(mem.cell[p].data[rpos..rpos + avail]);
    }

    /** One pass, its frame, if any, joining those posted before. */
    method ReadMore(p: int, rpos: nat, ghost todo: seq<byte>, before: seq<int>, ghost frames: seq<Frame>)
      returns (avail: nat, posted: seq<int>)
      requires Valid() && mem.Valid() && 0 <= p < |mem.cell| && mem.owner[p] == null && mem.cell[p].Filled()
      requires todo != [] && rpos + |todo| == mem.cell[p].len && todo == mem.cell[p].data[rpos..mem.cell[p].len]
      requires MaxDeclared(State(), todo) <= MAX_PAYLOAD
      requires Carried(mem.cell, mem.owner, before, frames) && p !in before
      modifies this, mem
      ensures Valid() && mem.Valid() && mem.KeptExcept({this, mem}) && p !in posted && 0 < avail <= |todo|
      ensures p < |mem.cell| == |mem.owner| && mem.owner[p] == null && mem.cell[p] == old(mem.cell[p])
      ensures State() == Feed(old(State()), todo[..avail]).0
      ensures Carried(mem.cell, mem.owner, posted, frames + Feed(old(State()), todo[..avail]).1)
    {
      ghost var state := State();
      assert inPacket !in before && inPacket != p;
      var more;
      avail, more := ReadNext(p, rpos, todo);
      CarriedKept(old(mem.cell), old(mem.owner), before, frames, mem.cell, mem.owner);
      CarriedJoin(mem.cell, mem.owner, before, frames, more, Feed(state, todo[..avail]).1);
      posted := before + more;
    }

    /** The loop of serial_fd_receive. */
    method ReadBlocks(p: int) returns (posted: seq<int>)
      requires Valid() && mem.Valid() && 0 <= p < |mem.cell| && mem.owner[p] == null && mem.cell[p].Filled()
      requires MaxDeclared(State(), mem.cell[p].Payload()) <= MAX_PAYLOAD
      modifies this, mem
      ensures Valid() && mem.Valid() && mem.KeptExcept({this, mem}) && p !in posted
      ensures var (state, frames) := Feed(old(State()), old(mem.cell[p].Payload()));
              State() == state && Carried(mem.cell, mem.owner, posted, frames)
    {
      var rpos, rcount := 0, mem.cell[p].len;
      ghost var cellP, start, frames, state := mem.cell[p], State(), [], State();
      ghost var done, todo := [], cellP.Payload();
      posted := [];
      while rpos < rcount
        invariant 0 <= rpos <= rcount == cellP.len && Valid() && mem.Valid() && mem.KeptExcept({this, mem})
        invariant p < |mem.cell| && mem.owner[p] == null && mem.cell[p] == cellP && p !in posted
        invariant Carried(mem.cell, mem.owner, posted, frames) && State() == state
        invariant Split(cellP.data, rpos, rcount, done, todo)
        invariant Fed(start, done, todo, state, frames)
      {
        var avail;
        avail, posted := ReadMore(p, rpos, todo, posted, frames);
        FeedMore(start, done, todo, avail, state, frames);
        SplitMore(cellP.data, rpos, rcount, done, todo, avail);
        frames, rpos, state := frames + Feed(state, todo[..avail]).1, rpos + avail, State();
        done, todo := done + todo[..avail], todo[avail..];
      }
      assert done + [] == done;
    }

    /** serial_fd_receive: parses one read's worth of bytes, posting the frames it completes. */
    method FdReceive(p: int) returns (posted: seq<int>)
      requires Valid() && mem.Valid() && 0 <= p < |mem.cell| && mem.owner[p] == null && mem.cell[p].Filled()
      requires MaxDeclared(State(), mem.cell[p].Payload()) <= MAX_PAYLOAD
      modifies this, mem
      ensures Valid() && mem.Valid() && mem.KeptExcept({null, this, mem})
      ensures var (state, frames) := Feed(old(State()), old(mem.cell[p].Payload()));
              State() == state && Carried(mem.cell, mem.owner, posted, frames)
      ensures mem.list != [] && mem.list[0] == p
    {
      ghost var frames := Feed(State(), mem.cell[p].Payload()).1;
      posted := ReadBlocks(p);
      CarriedFreed(mem.cell, mem.owner, posted, frames, p, mem);
      mem.Free(p);
    }

    /** The header packet of a frame. */
    method MakeHeader(p: int) returns (h: int)
      requires mem.Valid() && 0 <= p < |mem.cell| && mem.owner[p] == null && mem.cell[p].Filled()
      modifies mem
      ensures mem.Valid() && mem.KeptExcept({mem}) && 0 <= h < |mem.cell| && h != p
      ensures mem.owner[h] == null && mem.cell[h].Filled()
      ensures mem.cell[h].Payload()
           == ToHex(mem.cell[p].channel, CHANNEL_SIZE) + ToHex(|mem.cell[p].Payload()|, LENGTH_SIZE)
    {
      var packet := mem.cell[p];
      h := mem.Alloc();
      var length := Int2Hex(packet.len, LENGTH_SIZE);
      var channel := Int2Hex(packet.channel, CHANNEL_SIZE);
      var data := channel + length + mem.cell[h].data[HEADER_SIZE..];
      assert data[..HEADER_SIZE] == channel + length;
      mem.SetCell(h, mem.cell[h].(len := HEADER_SIZE, data := data), null);
    }

    /** serial_send: queues a header packet and then the payload packet. */
    method Send(p: int)
      requires mem == fdhandler.mem && fdhandler.Valid() && mem.Valid()
      requires 0 <= p < |mem.cell| && mem.owner[p] == null && mem.cell[p].Filled()
      modifies fdhandler, mem
      ensures fdhandler.Valid() && mem.Valid() && mem.KeptExcept({null, fdhandler, mem})
      ensures fdhandler.enqueued
           == old(fdhandler.enqueued) + Wire(Frame(old(mem.cell[p].channel), old(mem.cell[p].Payload())))
      ensures fdhandler.written == old(fdhandler.written)
    {
      var h := MakeHeader(p);
      fdhandler.Kept({mem});
      EnqueueBoth(h, p);
    }

    /** Queues two packets in hand, one behind the other. */
    method EnqueueBoth(h: int, p: int)
      requires mem == fdhandler.mem && fdhandler.Valid() && mem.Valid()
      requires 0 <= p < |mem.cell| && mem.owner[p] == null && mem.cell[p].Filled()
      requires 0 <= h < |mem.cell| && mem.owner[h] == null && mem.cell[h].Filled() && h != p
      modifies fdhandler, mem
      ensures fdhandler.Valid() && mem.Valid() && mem.KeptExcept({null, fdhandler})
      ensures fdhandler.enqueued == old(fdhandler.enqueued) + (old(mem.cell[h].Payload()) + old(mem.cell[p].Payload()))
      ensures fdhandler.written == old(fdhandler.written)
    {
      ghost var was, header, payload := fdhandler.enqueued, mem.cell[h].Payload(), mem.cell[p].Payload();
      fdhandler.Enqueue(h);
      fdhandler.Enqueue(p);
      Associative(was, header, payload);
    }
  }
}
