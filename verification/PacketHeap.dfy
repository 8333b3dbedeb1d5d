/**
 * Packets and the lists they are threaded on (qemud.c): the free list, the out queue of every
 * FDHandler, the packet being filled by the serial reader. Packet pointers are addresses into one
 * packet memory. A ghost owner of each packet says who holds it: a list, the serial reader, or null
 * while it is in some function's hands; so lists of different owners never share a packet.
 */
module PacketHeap {
  import opened Words
  import opened Framing
  import opened Chains
  import opened Folding

  /** A packet but for its next field; data is the inline buffer of MAX_PAYLOAD bytes. */
  datatype Packet = Packet(len: int, channel: int, data: seq<byte>) {
    predicate Filled() { |data| == MAX_PAYLOAD && 0 <= len <= MAX_PAYLOAD }

    function Payload(): seq<byte>
      requires Filled()
    {
      data[..len]
    }
  }

  const BLANK := Packet(0, -1, seq(MAX_PAYLOAD, _ => 0))

  /** The cells of list belong to me, and no cell is on it twice. */
  ghost predicate Holds(owner: seq<object?>, me: object, list: seq<int>) {
    Distinct(list) && forall i :: 0 <= i < |list| ==> 0 <= list[i] < |owner| && owner[list[i]] == me
  }

  class PacketMemory {
    var next: seq<int>
    var cell: seq<Packet>
    var free: int                    // _free_packets
    ghost var owner: seq<object?>
    ghost var list: seq<int>         // the free list

    ghost predicate Valid()
      reads this
    {
      |next| == |cell| == |owner| && Chain(next, free, list) && Holds(owner, this, list) &&
      forall p :: 0 <= p < |cell| ==> |cell[p].data| == MAX_PAYLOAD
    }

    /** Nothing but packet p, and packets that did not exist, differs between two states. */
    twostate predicate OnlyChanged(p: int)
      reads this
    {
      |old(next)| <= |next| && |old(cell)| <= |cell| && |old(owner)| <= |owner| &&
      (forall q :: 0 <= q < |old(next)| && q != p ==> next[q] == old(next)[q]) &&
      (forall q :: 0 <= q < |old(cell)| && q != p ==> cell[q] == old(cell)[q]) &&
      (forall q :: 0 <= q < |old(owner)| && q != p ==> owner[q] == old(owner)[q])
    }

    /** Packets of owners outside objs are untouched. */
    twostate predicate KeptExcept(objs: set<object?>)
      reads this
    {
      |old(next)| <= |next| && |old(cell)| <= |cell| && |old(owner)| <= |owner| && |old(next)| == |old(cell)| == |old(owner)| &&
      forall q :: 0 <= q < |old(owner)| && old(owner)[q] !in objs ==>
        next[q] == old(next)[q] && cell[q] == old(cell)[q] && owner[q] == old(owner)[q]
    }

    constructor ()
      ensures Valid() && list == []
    {
      next, cell, free, owner, list := [], [], NULL, [], [];
    }

    /** packet_alloc: the first free packet, or a new one. */
    method Alloc() returns (p: int)
      requires Valid()
      modifies this
      ensures Valid() && OnlyChanged(p) && 0 <= p < |cell| && owner[p] == null
      ensures cell[p].len == 0 && cell[p].channel == -1
      ensures if old(list) == [] then p == |old(cell)| && list == [] else p == old(list)[0] && list == old(list)[1..]
    {
      if free != NULL {
        ChainPop(next, free, list);
        p := free;
        free := next[p];
        list := list[1..];
        next := next[p := NULL];
        owner := owner[p := null];
        cell := cell[p := cell[p].(len := 0, channel := -1)];
        ChainFrame(old(next), free, list, p, NULL);
      } else {
        p := |cell|;
        ChainGrow(next, free, list, [NULL]);
        next, cell, owner := next + [NULL], cell + [BLANK], owner + [null];
      }
    }

    /** Gives a packet in hand to an owner. */
    ghost method Take(p: int, me: object)
      requires Valid() && 0 <= p < |cell| && owner[p] == null && me != this
      modifies `owner
      ensures Valid() && owner == old(owner)[p := me]
    {
      assert p !in list;
      owner := owner[p := me];
    }

    /** Overwrites the fields of a packet that is on no list. */
    method SetCell(p: int, packet: Packet, ghost me: object?)
      requires Valid() && 0 <= p < |cell| && owner[p] != this && me != this && |packet.data| == MAX_PAYLOAD
      modifies `cell, `owner
      ensures Valid() && cell == old(cell)[p := packet] && owner == old(owner)[p := me]
    {
      assert p !in list;
      cell := cell[p := packet];
      owner := owner[p := me];
    }

    /** packet_free */
    method Free(p: int)
      requires Valid() && 0 <= p < |cell| && owner[p] != this
      modifies this
      ensures Valid() && list == [p] + old(list) && cell == old(cell)
      ensures next == old(next)[p := old(free)] && owner == old(owner)[p := this]
    {
      assert p !in list;
      ChainPush(next, free, list, p);
      next := next[p := free];
      free := p;
      owner := owner[p := this];
      list := [p] + list;
    }

    /** The two pointer writes that put p behind tail, for a list of another owner. */
    method Append(p: int, tail: int, ghost me: object)
      requires Valid() && 0 <= p < |cell| && owner[p] == null && me != this
      requires tail == NULL || (0 <= tail < |cell| && owner[tail] == me)
      modifies this
      ensures Valid() && cell == old(cell) && list == old(list) && owner == old(owner)[p := me]
      ensures next == if tail == NULL then old(next)[p := NULL] else old(next)[p := NULL][tail := p]
    {
      assert p !in list && tail !in list;
      ChainFrame(next, free, list, p, NULL);
      next := next[p := NULL];
      if tail != NULL {
        ChainFrame(next, free, list, tail, p);
        next := next[tail := p];
      }
      owner := owner[p := me];
    }
  }

  // --- The out queue of a handler ----------------------------------------------------------

  /** The queue is a chain from first, ends where the tail pointer says, is me's, and holds bodies. */
  ghost predicate Queued(next: seq<int>, cell: seq<Packet>, owner: seq<object?>, me: object,
                         first: int, tail: int, queue: seq<int>, bodies: seq<seq<byte>>)
  {
    |next| == |cell| == |owner| && Chain(next, first, queue) && Holds(owner, me, queue) &&
    Carries(cell, queue, bodies) && tail == (if queue == [] then NULL else queue[|queue| - 1])
  }

  ghost predicate Carries(cell: seq<Packet>, queue: seq<int>, bodies: seq<seq<byte>>) {
    |bodies| == |queue| &&
    forall i :: 0 <= i < |queue| ==>
      0 <= queue[i] < |cell| && cell[queue[i]].Filled() && bodies[i] == cell[queue[i]].Payload()
  }

  /** Linking p in through the tail pointer. */
  lemma {:induction false} QueueAppend(next: seq<int>, cell: seq<Packet>, owner: seq<object?>, me: object,
                    first: int, tail: int, queue: seq<int>, bodies: seq<seq<byte>>, p: int)
    requires Queued(next, cell, owner, me, first, tail, queue, bodies)
    requires 0 <= p < |cell| && owner[p] == null && cell[p].Filled()
    ensures var next1 := next[p := NULL];
            Queued(if tail == NULL then next1 else next1[tail := p], cell, owner[p := me], me,
                   if tail == NULL then p else first, p, queue + [p], bodies + [cell[p].Payload()])
  {
    assert p !in queue;
    ChainAppend(next, first, queue, p);
    assert [] + [p] == [p];
    HoldsAppend(owner, me, queue, p);
    CarriesAppend(cell, queue, bodies, p);
  }

  lemma HoldsAppend(owner: seq<object?>, me: object, list: seq<int>, p: int)
    requires Holds(owner, me, list) && 0 <= p < |owner| && p !in list
    ensures Holds(owner[p := me], me, list + [p])
  {}

  lemma CarriesAppend(cell: seq<Packet>, queue: seq<int>, bodies: seq<seq<byte>>, p: int)
    requires Carries(cell, queue, bodies) && 0 <= p < |cell| && cell[p].Filled()
    ensures Carries(cell, queue + [p], bodies + [cell[p].Payload()])
  {}

  lemma QueuePop(next: seq<int>, cell: seq<Packet>, owner: seq<object?>, me: object,
                 first: int, tail: int, queue: seq<int>, bodies: seq<seq<byte>>)
    requires Queued(next, cell, owner, me, first, tail, queue, bodies) && queue != []
    ensures first == queue[0] && 0 <= first < |next|
    ensures Queued(next, cell, owner[first := null], me, next[first], if next[first] == NULL then NULL else tail,
                   queue[1..], bodies[1..])
  {
    ChainPop(next, first, queue);
    HoldsTail(owner, me, queue);
    CarriesTail(cell, queue, bodies);
    assert next[first] == Link(queue, 1);
    assert |queue| > 1 ==> queue[1..][|queue| - 2] == queue[|queue| - 1];
  }

  lemma HoldsTail(owner: seq<object?>, me: object, list: seq<int>)
    requires Holds(owner, me, list) && list != []
    ensures list[0] !in list[1..] && Holds(owner[list[0] := null], me, list[1..])
  {
    var rest := list[1..];
    assert forall i :: 0 <= i < |rest| ==> rest[i] == list[i + 1];
  }

  lemma CarriesTail(cell: seq<Packet>, queue: seq<int>, bodies: seq<seq<byte>>)
    requires Carries(cell, queue, bodies) && queue != []
    ensures Carries(cell, queue[1..], bodies[1..])
  {
    forall i | 0 <= i < |queue| - 1
      ensures queue[1..][i] == queue[i + 1] && bodies[1..][i] == bodies[i + 1]
    {
    }
  }

  /** A queue does not notice changes to packets that are not on it. */
  lemma QueueFrame(next: seq<int>, cell: seq<Packet>, owner: seq<object?>, me: object,
                   first: int, tail: int, queue: seq<int>, bodies: seq<seq<byte>>,
                   next1: seq<int>, cell1: seq<Packet>, owner1: seq<object?>)
    requires Queued(next, cell, owner, me, first, tail, queue, bodies)
    requires |next| <= |next1| && |next1| == |cell1| == |owner1|
    requires forall q :: q in queue ==> next1[q] == next[q] && cell1[q] == cell[q] && owner1[q] == owner[q]
    ensures Queued(next1, cell1, owner1, me, first, tail, queue, bodies)
  {}

  /** Taking the first packet off and giving it to another list. */
  lemma PoppedQueueFrame(next: seq<int>, cell: seq<Packet>, owner: seq<object?>, me: object,
                         first: int, tail: int, queue: seq<int>, bodies: seq<seq<byte>>, to: int, other: object)
    requires Queued(next, cell, owner, me, first, tail, queue, bodies) && queue != [] && other != me
    ensures first == queue[0] && 0 <= first < |next|
    ensures Queued(next[first := to], cell, owner[first := other], me, next[first],
                   if next[first] == NULL then NULL else tail, queue[1..], bodies[1..])
    ensures next[first] == NULL <==> queue[1..] == []
  {
    QueuePop(next, cell, owner, me, first, tail, queue, bodies);
    HoldsTail(owner, me, queue);
    QueueFrame(next, cell, owner[first := null], me, next[first], if next[first] == NULL then NULL else tail,
               queue[1..], bodies[1..], next[first := to], cell, owner[first := other]);
  }

  /** What a queue has still to write. */
  function Unwritten(bodies: seq<seq<byte>>, outPos: int): seq<byte>
    requires bodies != [] ==> 0 <= outPos <= |bodies[0]|
  {
    if bodies == [] then [] else bodies[0][outPos..] + Joined(bodies[1..])
  }

  lemma {:induction false} JoinedAppend(bodies: seq<seq<byte>>, b: seq<byte>)
    ensures Joined(bodies + [b]) == Joined(bodies) + b
  {
    if bodies == [] {
      assert [] + [b] == [b];
    } else {
      assert (bodies + [b])[1..] == bodies[1..] + [b];
      JoinedAppend(bodies[1..], b);
      Associative(bodies[0], Joined(bodies[1..]), b);
    }
  }

  lemma UnwrittenAppend(bodies: seq<seq<byte>>, outPos: int, b: seq<byte>)
    requires bodies != [] && 0 <= outPos <= |bodies[0]|
    ensures Unwritten(bodies + [b], outPos) == Unwritten(bodies, outPos) + b
  {
    assert (bodies + [b])[1..] == bodies[1..] + [b];
    JoinedAppend(bodies[1..], b);
    Associative(bodies[0][outPos..], Joined(bodies[1..]), b);
  }

  /** What was written and what is pending, together. */
  function Account(written: seq<byte>, bodies: seq<seq<byte>>, outPos: int): seq<byte>
    requires bodies != [] ==> 0 <= outPos <= |bodies[0]|
  {
    written + Unwritten(bodies, outPos)
  }

  lemma AppendAccounted(written: seq<byte>, bodies: seq<seq<byte>>, outPos: int, body: seq<byte>)
    requires bodies != [] ==> 0 <= outPos <= |bodies[0]|
    ensures bodies != [] ==> (bodies + [body])[0] == bodies[0] &&
                             Account(written, bodies + [body], outPos) == Account(written, bodies, outPos) + body
    ensures bodies == [] ==> Account(written, bodies + [body], 0) == Account(written, bodies, outPos) + body
  {
    if bodies == [] {
      assert [] + [body] == [body] && [body][1..] == [];
      assert body[0..] + [] == body && written + [] == written;
    } else {
      UnwrittenAppend(bodies, outPos, body);
      Associative(written, Unwritten(bodies, outPos), body);
    }
  }

  /** Taking ret bytes of the first body moves them from unwritten to written. */
  lemma WriteAccounted(written: seq<byte>, bodies: seq<seq<byte>>, outPos: int, ret: int)
    requires bodies != [] && 0 <= outPos && 0 <= ret && outPos + ret <= |bodies[0]|
    ensures var taken := bodies[0][outPos..outPos + ret];
            taken <= Unwritten(bodies, outPos) &&
            Account(written + taken, bodies, outPos + ret) == Account(written, bodies, outPos)
  {
    var a, rest := bodies[0][outPos..], Joined(bodies[1..]);
    assert bodies[0][outPos..outPos + ret] == a[..ret] && bodies[0][outPos + ret..] == a[ret..];
    assert a[..ret] + (a[ret..] + rest) == a + rest;
    Associative(written, a[..ret], a[ret..] + rest);
  }

  /** A body that is written makes way for the next. */
  lemma NextAccounted(written: seq<byte>, bodies: seq<seq<byte>>)
    requires bodies != []
    ensures Account(written, bodies[1..], 0) == Account(written, bodies, |bodies[0]|)
  {
    assert bodies[0][|bodies[0]|..] + Joined(bodies[1..]) == Joined(bodies[1..]);
    if bodies[1..] != [] {
      assert bodies[1..][0][0..] == bodies[1..][0];
    }
  }

  /** The books balance: what was written and what is pending are what was enqueued. */
  ghost function Books(written: seq<byte>, bodies: seq<seq<byte>>, outPos: int, enqueued: seq<byte>): Status {
    if forall k {:trigger Key(k)} :: Key(k) ==>
      (bodies != [] ==> 0 <= outPos <= |bodies[0]|) && Account(written, bodies, outPos) == enqueued
    then Sound else Unsound
  }

  lemma BooksOpen()
    ensures Books([], [], 0, []) == Sound
  {}

  lemma BooksAfterWrite(written: seq<byte>, bodies: seq<seq<byte>>, outPos: int, enqueued: seq<byte>, ret: nat)
    requires bodies != [] && Books(written, bodies, outPos, enqueued) == Sound && 0 <= outPos && outPos + ret <= |bodies[0]|
    ensures Books(written + bodies[0][outPos..outPos + ret], bodies, outPos + ret, enqueued) == Sound
  {
    assert Key(0);
    WriteAccounted(written, bodies, outPos, ret);
  }

  lemma BooksAfterDrop(written: seq<byte>, bodies: seq<seq<byte>>, outPos: int, enqueued: seq<byte>)
    requires bodies != [] && Books(written, bodies, outPos, enqueued) == Sound && outPos == |bodies[0]|
    ensures Books(written, bodies[1..], 0, enqueued) == Sound
  {
    assert Key(0);
    NextAccounted(written, bodies);
  }

  lemma BooksAfterAppend(written: seq<byte>, bodies: seq<seq<byte>>, outPos: int, enqueued: seq<byte>, body: seq<byte>)
    requires Books(written, bodies, outPos, enqueued) == Sound
    ensures Books(written, bodies + [body], if bodies == [] then 0 else outPos, enqueued + body) == Sound
  {
    assert Key(0);
    AppendAccounted(written, bodies, outPos, body);
  }

  lemma BooksMean(written: seq<byte>, bodies: seq<seq<byte>>, outPos: int, enqueued: seq<byte>)
    requires Books(written, bodies, outPos, enqueued) == Sound
    ensures (bodies != [] ==> 0 <= outPos <= |bodies[0]|) && Account(written, bodies, outPos) == enqueued
  {
    assert Key(0);
  }

  class FDHandler {
    const mem: PacketMemory
    var outPos: int
    var outFirst: int
    var outTail: int          // the packet whose next field out_ptail addresses; NULL: &out_first
    var wantOut: bool         // EPOLLOUT is in the event mask of the descriptor

    ghost var queue: seq<int>
    ghost var bodies: seq<seq<byte>>  // the payloads in the queue
    ghost var enqueued: seq<byte>     // everything ever enqueued
    ghost var written: seq<byte>      // everything the descriptor has taken

    ghost predicate Threaded()
      reads this, mem
    {
      Queued(mem.next, mem.cell, mem.owner, this, outFirst, outTail, queue, bodies)
    }

    ghost predicate Valid()
      reads this, mem
    {
      Threaded() && (wantOut <==> queue != []) && (bodies != [] ==> 0 <= outPos <= |bodies[0]|) &&
      Books(written, bodies, outPos, enqueued) == Sound
    }

    /** fdhandler_new */
    constructor (mem: PacketMemory)
      requires mem.Valid()
      ensures Valid() && this.mem == mem && queue == [] && enqueued == [] && written == []
    {
      this.mem := mem;
      outPos, outFirst, outTail, wantOut := 0, NULL, NULL, false;
      queue, bodies, enqueued, written := [], [], [], [];
      BooksOpen();
    }

    /** A handler that was left alone, with its packets, is as valid as before. */
    twostate lemma Kept(objs: set<object?>)
      requires old(Valid()) && unchanged(this) && this !in objs && mem.KeptExcept(objs)
      requires |mem.next| == |mem.cell| == |mem.owner|
      ensures Valid()
    {
      QueueFrame(old(mem.next), old(mem.cell), old(mem.owner), this, outFirst, outTail, queue, bodies,
                 mem.next, mem.cell, mem.owner);
    }

    /** Links p in through out_ptail and moves out_ptail on to its next field. */
    method LinkTail(p: int)
      requires Threaded() && mem.Valid() && 0 <= p < |mem.cell| && mem.owner[p] == null && mem.cell[p].Filled()
      modifies `outFirst, `outTail, `queue, `bodies, mem
      ensures Threaded() && mem.Valid() && queue == old(queue) + [p]
      ensures bodies == old(bodies) + [old(mem.cell[p].Payload())]
      ensures mem.KeptExcept({null, this}) && mem.cell == old(mem.cell) && mem.list == old(mem.list)
      ensures mem.owner == old(mem.owner)[p := this]
    {
      QueueAppend(mem.next, mem.cell, mem.owner, this, outFirst, outTail, queue, bodies, p);
      queue, bodies := queue + [p], bodies + [mem.cell[p].Payload()];
      mem.Append(p, outTail, this);
      if outTail == NULL {
        outFirst := p;
      }
      outTail := p;
    }

    /** fdhandler_enqueue */
    method Enqueue(p: int)
      requires Valid() && mem.Valid() && 0 <= p < |mem.cell| && mem.owner[p] == null && mem.cell[p].Filled()
      modifies this, mem
      ensures Valid() && mem.Valid() && queue == old(queue) + [p] && written == old(written)
      ensures enqueued == old(enqueued) + old(mem.cell[p].Payload())
      ensures mem.KeptExcept({null, this}) && mem.cell == old(mem.cell) && mem.list == old(mem.list)
      ensures mem.owner == old(mem.owner)[p := this]
    {
      BooksAfterAppend(written, bodies, outPos, enqueued, mem.cell[p].Payload());
      enqueued := enqueued + mem.cell[p].Payload();
      var first := outFirst;
      LinkTail(p);
      if first == NULL {
        outPos := 0;
        wantOut := true;
      }
    }

    /** A packet written to its end goes back to the free list. */
    method DropFirst()
      requires Threaded() && mem.Valid() && queue != []
      modifies `outFirst, `outTail, `queue, `bodies, `outPos, `wantOut, mem
      ensures Threaded() && mem.Valid() && outPos == 0
      ensures wantOut == (old(wantOut) && queue != [])
      ensures queue == old(queue)[1..] && bodies == old(bodies)[1..] && mem.list == [old(queue)[0]] + old(mem.list)
      ensures mem.KeptExcept({null, this})
    {
      PoppedQueueFrame(mem.next, mem.cell, mem.owner, this, outFirst, outTail, queue, bodies, mem.free, mem);
      var p := outFirst;
      outPos := 0;
      outFirst := mem.next[p];
      mem.Free(p);
      queue, bodies := queue[1..], bodies[1..];
      if outFirst == NULL {
        outTail := NULL;
        wantOut := false;
      }
    }

    /** The descriptor took ret bytes of the first packet. */
    method Advance(ret: nat)
      requires bodies != [] && 0 <= outPos && outPos + ret <= |bodies[0]| && Books(written, bodies, outPos, enqueued) == Sound
      modifies `outPos, `written
      ensures outPos == old(outPos) + ret && written == old(written + bodies[0][outPos..outPos + ret])
      ensures Books(written, bodies, outPos, enqueued) == Sound
    {
      BooksAfterWrite(written, bodies, outPos, enqueued, ret);
      written, outPos := written + bodies[0][outPos..outPos + ret], outPos + ret;
    }

    /** The EPOLLOUT part of fdhandler_event; ret is what write() returned: -1, or how many bytes it took. */
    method WriteSome(ret: int)
      requires Valid() && mem.Valid() && queue != [] && -1 <= ret <= mem.cell[outFirst].len - outPos
      modifies this, mem
      ensures Valid() && mem.Valid() && enqueued == old(enqueued) && mem.KeptExcept({null, this})
      ensures ret < 0 ==> written == old(written) && queue == old(queue)
      ensures ret >= 0 ==> old(outPos) + ret <= |old(bodies)[0]| &&
                           written == old(written) + old(bodies)[0][old(outPos)..old(outPos) + ret]
      ensures (queue == old(queue) && mem.list == old(mem.list)) ||
              (queue == old(queue)[1..] && mem.list == [old(queue)[0]] + old(mem.list))
    {
      if ret < 0 {
        return;
      }
      assert outFirst == queue[0] && |bodies[0]| == mem.cell[outFirst].len;
      Advance(ret);
      if outPos >= mem.cell[outFirst].len {
        BooksAfterDrop(written, bodies, outPos, enqueued);
        DropFirst();
      }
    }

    /** The loop of fdhandler_close: the packets still queued go back to the free list unsent, one by one. */
    method Close()
      requires Valid() && mem.Valid()
      modifies this, mem
      ensures mem.Valid() && queue == [] && outFirst == NULL && written == old(written)
      ensures mem.KeptExcept({null, this}) && mem.list == Reversed(old(queue)) + old(mem.list)
    {
      ghost var freed := [];
      while outFirst != NULL
        invariant Threaded() && mem.Valid() && written == old(written)
        invariant mem.KeptExcept({null, this}) && mem.list == freed + old(mem.list)
        invariant Reversed(queue) + freed == Reversed(old(queue))
        decreases |queue|
      {
        Associative(Reversed(queue[1..]), [queue[0]], freed);
        Associative([queue[0]], freed, old(mem.list));
        freed := [queue[0]] + freed;
        DropFirst();
      }
      assert [] + freed == freed;
    }
  }

  function Reversed(list: seq<int>): seq<int> {
    if list == [] then [] else Reversed(list[1..]) + [list[0]]
  }
}
