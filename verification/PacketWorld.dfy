/** All packets of a running qemud: every handler's queue, the free list and the serial reader together. */
module PacketWorld {
  import opened Words
  import opened Framing
  import opened Chains
  import opened PacketHeap
  import opened SerialPort

  class World {
    const mem: PacketMemory
    const serial: Serial
    ghost var handlers: set<FDHandler>

    ghost predicate Valid()
      reads this, mem, serial, handlers
    {
      mem.Valid() && serial.mem == mem && serial.Valid() && serial.fdhandler in handlers &&
      forall h :: h in handlers ==> h.mem == mem && h.Valid()
    }

    constructor (mem: PacketMemory, port: FDHandler)
      requires mem.Valid() && port.mem == mem && port.Valid()
      modifies mem
      ensures Valid() && this.mem == mem && handlers == {port} && serial.State() == START && fresh(serial)
    {
      this.mem := mem;
      handlers := {port};
      serial := new Serial(port);
    }

    /** The heap discipline: every list is without cycle, and no packet is on two of them. */
    lemma Disjoint()
      requires Valid()
      ensures Distinct(mem.list) && serial.inPacket !in mem.list
      ensures forall h :: h in handlers ==>
        Distinct(h.queue) && serial.inPacket !in h.queue && forall p :: p in h.queue ==> p !in mem.list
      ensures forall g, h :: g in handlers && h in handlers && g != h ==> forall p :: p in g.queue ==> p !in h.queue
    {
      assert forall p :: p in mem.list ==> mem.owner[p] == mem;
      assert forall h, p :: h in handlers && p in h.queue ==> mem.owner[p] == h;
    }

    /** Everything but one handler, whose validity is already known, is as before. */
    twostate lemma OthersKept(me: FDHandler)
      requires old(Valid()) && handlers <= old(handlers) && mem.Valid() && (me in handlers ==> me.mem == mem && me.Valid())
      requires mem.KeptExcept({null, me, mem}) && serial.fdhandler in handlers && me in old(handlers)
      requires unchanged(serial) && forall h :: h in handlers && h != me ==> unchanged(h)
      ensures Valid() && serial.State() == old(serial.State())
    {
      serial.Kept({null, me, mem});
      forall h | h in handlers && h != me ensures h.mem == mem && h.Valid() {
        assert old(h.Valid()) && unchanged(h);
        h.Kept({null, me, mem});
      }
    }

    /** A descriptor becomes writable. */
    method Writable(h: FDHandler, ret: int)
      requires Valid() && h in handlers && h.queue != [] && -1 <= ret <= mem.cell[h.outFirst].len - h.outPos
      modifies h, mem
      ensures Valid() && serial.State() == old(serial.State())
      ensures h.enqueued == old(h.enqueued) && (ret < 0 ==> h.written == old(h.written))
      ensures ret >= 0 ==> old(h.outPos) + ret <= |old(h.bodies)[0]| &&
                           h.written == old(h.written) + old(h.bodies)[0][old(h.outPos)..old(h.outPos) + ret]
    {
      h.WriteSome(ret);
      OthersKept(h);
    }

    /** A further handler joins; everything else is as before. */
    twostate lemma Joined(new h: FDHandler)
      requires old(Valid()) && handlers == old(handlers) + {h} && h.mem == mem && h.Valid()
      requires unchanged(mem) && unchanged(serial) && forall g :: g in old(handlers) ==> unchanged(g)
      ensures Valid() && serial.State() == old(serial.State())
    {
      forall g | g in old(handlers) ensures g.mem == mem && g.Valid() {
        assert old(g.Valid());
      }
    }

    /** fdhandler_new for a connection that was accepted: a further handler with an empty queue. */
    method Accept() returns (h: FDHandler)
      requires Valid()
      modifies `handlers
      ensures Valid() && serial.State() == old(serial.State())
      ensures fresh(h) && h !in old(handlers) && handlers == old(handlers) + {h} && h.queue == [] && h.enqueued == []
    {
      h := new FDHandler(mem);
      handlers := handlers + {h};
      Joined(h);
    }

    /** fdhandler_close of any handler but the serial port's, whose closing is fatal. */
    method Close(h: FDHandler)
      requires Valid() && h in handlers && h != serial.fdhandler
      modifies this, h, mem
      ensures Valid() && serial.State() == old(serial.State()) && handlers == old(handlers) - {h}
      ensures mem.list == Reversed(old(h.queue)) + old(mem.list)
    {
      h.Close();
      handlers := handlers - {h};
      OthersKept(h);
    }

    /** The packet of a read that returned ret, posted, freed or dropped. */
    method TakeIn(ret: int, bytes: seq<byte>) returns (posted: seq<int>)
      requires mem.Valid() && ret <= MAX_PAYLOAD && (ret > 0 ==> |bytes| == ret)
      modifies mem
      ensures mem.Valid() && mem.KeptExcept({null, mem})
      ensures if ret <= 0 then posted == []
              else |posted| == 1 && Carried(mem.cell, mem.owner, posted, [Frame(-101, bytes)])
      ensures ret < 0 ==> |mem.list| == Max(|old(mem.list)|, 1)
    {
      posted := [];
      var p := mem.Alloc();
      if ret < 0 {
        mem.Free(p);
      } else if ret > 0 {
        var data := bytes + mem.cell[p].data[ret..];
        mem.SetCell(p, Packet(ret, -101, data), null);
        assert data[..ret] == bytes;
        posted := [p];
      }
    }

    /**
     * The EPOLLIN part of fdhandler_event: read() returned ret. A packet that got bytes is posted; one that
     * got an error goes back to the free list; one that got nothing is dropped.
     */
    method ClientReadable(ret: int, bytes: seq<byte>) returns (posted: seq<int>)
      requires Valid() && ret <= MAX_PAYLOAD && (ret > 0 ==> |bytes| == ret)
      modifies mem
      ensures Valid() && serial.State() == old(serial.State())
      ensures if ret <= 0 then posted == []
              else |posted| == 1 && Carried(mem.cell, mem.owner, posted, [Frame(-101, bytes)])
      ensures ret < 0 ==> |mem.list| == Max(|old(mem.list)|, 1)
    {
      posted := TakeIn(ret, bytes);
      MemoryOnly();
    }

    /** packet_free of a packet in hand. */
    method Discard(p: int)
      requires Valid() && 0 <= p < |mem.cell| && mem.owner[p] == null
      modifies mem
      ensures Valid() && serial.State() == old(serial.State())
      ensures mem.cell == old(mem.cell) && mem.owner == old(mem.owner)[p := mem]
    {
      mem.Free(p);
      MemoryOnly();
    }

    /** Only packets in hand or on the free list were touched. */
    twostate lemma MemoryOnly()
      requires old(Valid()) && handlers == old(handlers) && mem.Valid() && mem.KeptExcept({null, mem})
      requires unchanged(serial) && unchanged(handlers)
      ensures Valid() && serial.State() == old(serial.State())
    {
      serial.Kept({null, mem});
      forall h | h in handlers ensures h.mem == mem && h.Valid() {
        assert old(h.Valid()) && unchanged(h);
        h.Kept({null, mem});
      }
    }

    /** A packet in hand is queued for a descriptor. */
    method Enqueue(h: FDHandler, p: int)
      requires Valid() && h in handlers && 0 <= p < |mem.cell| && mem.owner[p] == null && mem.cell[p].Filled()
      modifies h, mem
      ensures Valid() && serial.State() == old(serial.State())
      ensures h.enqueued == old(h.enqueued) + old(mem.cell[p].Payload())
    {
      h.Enqueue(p);
      OthersKept(h);
    }

    /** A packet in hand is sent as a frame over the serial port. */
    method Send(p: int)
      requires Valid() && 0 <= p < |mem.cell| && mem.owner[p] == null && mem.cell[p].Filled()
      modifies serial.fdhandler, mem
      ensures Valid() && serial.State() == old(serial.State())
      ensures serial.fdhandler.enqueued
           == old(serial.fdhandler.enqueued) + Wire(Frame(old(mem.cell[p].channel), old(mem.cell[p].Payload())))
    {
      serial.Send(p);
      OthersKept(serial.fdhandler);
    }

    /** The serial port is readable: one read of at most MAX_PAYLOAD bytes, parsed into frames. */
    method SerialReadable(bytes: seq<byte>) returns (posted: seq<int>)
      requires Valid() && |bytes| <= MAX_PAYLOAD && MaxDeclared(serial.State(), bytes) <= MAX_PAYLOAD
      modifies serial, mem
      ensures Valid()
      ensures var (state, frames) := Feed(old(serial.State()), bytes);
              serial.State() == state && Carried(mem.cell, mem.owner, posted, frames)
    {
      var p := mem.Alloc();
      var data := bytes + mem.cell[p].data[|bytes|..];
      mem.SetCell(p, Packet(|bytes|, -101, data), null);
      assert data[..|bytes|] == bytes;
      serial.Kept({null, mem});
      posted := serial.FdReceive(p);
      HandlersKept();
    }

    /** The serial reader worked; the handlers and their packets were not touched. */
    twostate lemma HandlersKept()
      requires old(Valid()) && handlers == old(handlers) && mem.Valid() && serial.mem == mem && serial.Valid()
      requires mem.KeptExcept({null, serial, mem}) && unchanged(handlers)
      ensures Valid()
    {
      forall h | h in handlers ensures h.mem == mem && h.Valid() {
        assert old(h.Valid()) && unchanged(h);
        h.Kept({null, serial, mem});
      }
    }
  }
}
