/** Basic blocks that lie inside others, and the profile of bbprof that follows them. */
module InnerBlocks {
  import opened Words

  const NONE := -1

  /** A static basic block; inner is the index of the block that continues it, or NONE. */
  datatype Block = Block(addr: uint32, insns: nat, thumb: bool, inner: int, freq: nat)

  function Bytes(b: Block): nat { if b.thumb then b.insns * 2 else b.insns * 4 }

  function End(b: Block): int { b.addr + Bytes(b) }

  /** Every index below n once. */
  ghost predicate Permutes(order: seq<nat>, n: nat) {
    |order| == n && (forall p :: 0 <= p < |order| ==> order[p] < n) &&
    forall p, q :: 0 <= p < q < |order| ==> order[p] != order[q]
  }

  /** The order qsort leaves: every block once, in order of addresses. */
  ghost predicate IsOrder(blocks: seq<Block>, order: seq<nat>) {
    Permutes(order, |blocks|) &&
    forall p, q :: 0 <= p < q < |order| ==> blocks[order[p]].addr <= blocks[order[q]].addr
  }

  /** The blocks in that order. */
  function InOrder(blocks: seq<Block>, order: seq<nat>): (v: seq<Block>)
    requires forall p :: 0 <= p < |order| ==> order[p] < |blocks|
    ensures |v| == |order|
  {
    seq(|order|, p requires 0 <= p < |order| => blocks[order[p]])
  }

  /** A block cut short where the next one, which has index next, starts. */
  function Cut(b: Block, after: Block, next: int): Block {
    if (b.addr + Bytes(b)) % TWO32 > after.addr then
      var diff := (after.addr - b.addr) % TWO32;
      b.(inner := next, insns := if b.thumb then diff / 2 else diff / 4)
    else b
  }

  function CutAll(before: seq<Block>, order: seq<nat>): (v: seq<Block>)
    requires |before| == |order|
    ensures |v| == |before|
  {
    seq(|before|, p requires 0 <= p < |before| => if p + 1 < |before| then Cut(before[p], before[p + 1], order[p + 1]) else before[p])
  }

  /** The body of the loop of assign_inner_blocks. */
  method CutBlock(b: Block, after: Block, next: int) returns (c: Block)
    ensures c == Cut(b, after, next)
  {
    c := b;
    var numBytes := if b.thumb then b.insns * 2 else b.insns * 4;
    var addrEnd := (b.addr + numBytes) % TWO32;
    if addrEnd > after.addr {
      var diff := (after.addr - b.addr) % TWO32;
      c := b.(inner := next, insns := if b.thumb then diff / 2 else diff / 4);
    }
  }

  /** assign_inner_blocks */
  method AssignInnerBlocks(blocks: array<Block>, order: seq<nat>)
    requires IsOrder(blocks[..], order)
    modifies blocks
    ensures InOrder(blocks[..], order) == CutAll(old(InOrder(blocks[..], order)), order)
  {
    ghost var before := InOrder(blocks[..], order);
    if |order| == 0 {
      return;
    }
    for i := 0 to |order| - 1
      invariant forall p :: 0 <= p < i ==> blocks[order[p]] == Cut(before[p], before[p + 1], order[p + 1])
      invariant forall p :: i <= p < |order| ==> blocks[order[p]] == before[p]
    {
      var c := CutBlock(blocks[order[i]], blocks[order[i + 1]], order[i + 1]);
      blocks[order[i]] := c;
    }
  }

  // --- What it achieves -----------------------------------------------------------------------------

  /** Blocks in address order that end within the address space and continue nowhere yet. */
  ghost predicate Fresh(v: seq<Block>) {
    (forall p :: 0 <= p < |v| ==> End(v[p]) < TWO32 && v[p].inner == NONE) &&
    forall p, q :: 0 <= p < q < |v| ==> v[p].addr <= v[q].addr
  }

  /** What a cut means when nothing wraps around. */
  lemma CutMeans(b: Block, after: Block, next: int)
    requires End(b) < TWO32 && b.addr <= after.addr
    ensures var c, diff := Cut(b, after, next), after.addr - b.addr;
            if End(b) > after.addr then c == b.(inner := next, insns := if b.thumb then diff / 2 else diff / 4) else c == b
  {
    assert (b.addr + Bytes(b)) % TWO32 == b.addr + Bytes(b);
    assert (after.addr - b.addr) % TWO32 == after.addr - b.addr;
  }

  /** Neighbours do not overlap any more. */
  lemma {:induction false} NeighboursApart(v: seq<Block>, order: seq<nat>, p: nat)
    requires |v| == |order| && Fresh(v) && p + 1 < |v|
    ensures End(CutAll(v, order)[p]) <= v[p + 1].addr == CutAll(v, order)[p + 1].addr
  {
    CutMeans(v[p], v[p + 1], order[p + 1]);
  }

  /** Continuations lead from a block to the next in the order. */
  ghost predicate Threaded(v: seq<Block>, order: seq<nat>) {
    |v| == |order| &&
    forall p :: 0 <= p < |v| ==> v[p].inner == NONE || (p + 1 < |v| && v[p].inner == order[p + 1])
  }

  lemma {:induction false} CutsAreThreaded(v: seq<Block>, order: seq<nat>)
    requires |v| == |order| && Fresh(v)
    ensures Threaded(CutAll(v, order), order)
  {
    forall p | 0 <= p < |v| - 1
      ensures CutAll(v, order)[p].inner == NONE || CutAll(v, order)[p].inner == order[p + 1]
    {
      CutMeans(v[p], v[p + 1], order[p + 1]);
    }
  }

  /** The last of the blocks that continue the one at p: a chain is finite, because it only goes up. */
  function Last(v: seq<Block>, p: nat): (l: nat)
    requires p < |v|
    ensures p <= l < |v|
    decreases |v| - p
  {
    if v[p].inner == NONE || p + 1 >= |v| then p else Last(v, p + 1)
  }

  /** The instructions of a block together with those that continue it. */
  function TotalInsns(v: seq<Block>, p: nat): nat
    decreases |v| - p
  {
    if p >= |v| then 0
    else v[p].insns + if v[p].inner == NONE || p + 1 >= |v| then 0 else TotalInsns(v, p + 1)
  }

  function Step(b: Block): nat { if b.thumb then 2 else 4 }

  /** The instructions of a block before the next one starts. */
  function Before(b: Block, after: Block): nat
    requires b.addr <= after.addr
  {
    (after.addr - b.addr) / Step(b)
  }

  /** A block that starts inside the one before it has as many instructions as are left of that one. */
  ghost predicate Nested(v: seq<Block>)
    requires Fresh(v)
  {
    forall p :: 0 <= p < |v| - 1 ==>
      v[p + 1].addr < End(v[p]) ==> v[p].insns == Before(v[p], v[p + 1]) + v[p + 1].insns
  }

  /** From the last block backwards, the totals are what they were as far as the blocks are nested. */
  lemma {:induction false} TotalFrom(v: seq<Block>, order: seq<nat>, p: nat)
    requires |v| == |order| && Fresh(v) && Nested(v) && p < |v|
    ensures TotalInsns(CutAll(v, order), p) == v[p].insns
    decreases |v| - p
  {
    if p + 1 < |v| {
      TotalFrom(v, order, p + 1);
      CutMeans(v[p], v[p + 1], order[p + 1]);
    }
  }

  /** The total of one block in terms of the next one's. */
  lemma TotalStep(v: seq<Block>, order: seq<nat>, p: nat)
    requires |v| == |order| && Fresh(v) && p + 1 < |v|
    ensures TotalInsns(CutAll(v, order), p) ==
            if v[p + 1].addr < End(v[p]) then Before(v[p], v[p + 1]) + TotalInsns(CutAll(v, order), p + 1) else v[p].insns
  {
    CutMeans(v[p], v[p + 1], order[p + 1]);
  }

  /** Along its chain every block has as many instructions as before it was cut. */
  ghost predicate Conserved(v: seq<Block>, order: seq<nat>)
    requires |v| == |order|
  {
    forall p :: 0 <= p < |v| ==> TotalInsns(CutAll(v, order), p) == v[p].insns
  }

  lemma ConservedAreNested(v: seq<Block>, order: seq<nat>)
    requires |v| == |order| && Fresh(v) && Conserved(v, order)
    ensures Nested(v)
  {
    forall p | 0 <= p < |v| - 1 && v[p + 1].addr < End(v[p])
      ensures v[p].insns == Before(v[p], v[p + 1]) + v[p + 1].insns
    {
      TotalStep(v, order, p);
    }
  }

  /** Exactly when cutting loses no instruction: if and only if the blocks are nested. */
  lemma ConservedIff(v: seq<Block>, order: seq<nat>)
    requires |v| == |order| && Fresh(v)
    ensures Conserved(v, order) <==> Nested(v)
  {
    if Conserved(v, order) {
      ConservedAreNested(v, order);
    }
    if Nested(v) {
      forall p | 0 <= p < |v|
        ensures TotalInsns(CutAll(v, order), p) == v[p].insns
      {
        TotalFrom(v, order, p);
      }
    }
  }

  /** A block that starts inside the one before it ends where that one ends. */
  ghost predicate SharedEnds(v: seq<Block>) {
    forall p :: 0 <= p < |v| - 1 ==> v[p + 1].addr < End(v[p]) ==> End(v[p + 1]) == End(v[p])
  }

  /** It has the same mode and starts at one of its instructions. */
  ghost predicate Aligned(v: seq<Block>) {
    forall p :: 0 <= p < |v| - 1 ==> v[p + 1].addr < End(v[p]) ==>
      v[p + 1].thumb == v[p].thumb && (v[p + 1].addr - v[p].addr) % Step(v[p]) == 0
  }

  /** For aligned blocks of one mode that means: they share their ends. */
  lemma NestedIffSharedEnds(v: seq<Block>)
    requires Fresh(v) && Aligned(v)
    ensures Nested(v) <==> SharedEnds(v)
  {
    forall p | 0 <= p < |v| - 1 && v[p + 1].addr < End(v[p])
      ensures v[p].insns == Before(v[p], v[p + 1]) + v[p + 1].insns <==> End(v[p + 1]) == End(v[p])
    {}
  }

  /** No instruction is lost, then, exactly when blocks inside one another share their ends. */
  lemma InsnsConserved(v: seq<Block>, order: seq<nat>)
    requires |v| == |order| && Fresh(v) && Aligned(v)
    ensures Conserved(v, order) <==> SharedEnds(v)
  {
    ConservedIff(v, order);
    NestedIffSharedEnds(v);
  }

  // --- The profile --------------------------------------------------------------------------------------

  /** A cycle counter: a block's index and an instruction in it. */
  datatype Slot = Slot(block: nat, insn: nat)

  function Row(block: nat, n: nat): (r: seq<Slot>)
    ensures |r| == n
  {
    seq(n, i requires 0 <= i < n => Slot(block, i))
  }

  /** The cycle counters of a block and of those that continue it, in order of execution. */
  function Slots(v: seq<Block>, order: seq<nat>, p: nat): (s: seq<Slot>)
    requires |v| == |order|
    ensures |s| == TotalInsns(v, p)
    decreases |v| - p
  {
    if p >= |v| then []
    else Row(order[p], v[p].insns) + if v[p].inner == NONE || p + 1 >= |v| then [] else Slots(v, order, p + 1)
  }

  function Take<T>(s: seq<T>, n: nat): seq<T> {
    if n < |s| then s[..n] else s
  }

  function Minus(n: nat, m: nat): nat { if m < n then n - m else 0 }

  /** Cutting loses no counter: an event that ran no more than the whole block has one for each instruction. */
  lemma {:induction false} EveryInsnCounted(v: seq<Block>, order: seq<nat>, p: nat, n: nat)
    requires |v| == |order| && Fresh(v) && Nested(v) && p < |v| && n <= v[p].insns
    ensures |Take(Slots(CutAll(v, order), order, p), n)| == n
  {
    TotalFrom(v, order, p);
  }

  /** No counter is used for two instructions of an event. */
  lemma {:induction false} SlotsDiffer(v: seq<Block>, order: seq<nat>, p: nat, i: nat, j: nat)
    requires |v| == |order| && (forall q, r :: 0 <= q < r < |order| ==> order[q] != order[r])
    requires i < j < |Slots(v, order, p)|
    ensures Slots(v, order, p)[i] != Slots(v, order, p)[j]
    decreases |v| - p
  {
    var n := v[p].insns;
    if n <= i {
      SlotsDiffer(v, order, p + 1, i - n, j - n);
    } else if n <= j {
      SlotsBehind(v, order, p + 1, j - n);
    }
  }

  lemma {:induction false} SlotsBehind(v: seq<Block>, order: seq<nat>, p: nat, j: nat)
    requires |v| == |order| && j < |Slots(v, order, p)|
    ensures exists q :: p <= q < |order| && Slots(v, order, p)[j].block == order[q]
    decreases |v| - p
  {
    if j >= v[p].insns {
      SlotsBehind(v, order, p + 1, j - v[p].insns);
    }
  }

  lemma TakeConcat<T>(a: seq<T>, b: seq<T>, n: nat)
    ensures Take(a + b, n) == Take(a, n) + Take(b, Minus(n, |a|))
  {
    if n < |a| {
      assert (a + b)[..n] == a[..n];
    }
  }

  /** The inner loop over the instructions of one block. */
  method TimeBlock(block: nat, insns: nat, numInsns: nat) returns (slots: seq<Slot>, left: nat)
    ensures slots == Take(Row(block, insns), numInsns) && left == Minus(numInsns, insns)
  {
    slots, left := [], numInsns;
    var i := 0;
    while left > 0 && i < insns
      invariant 0 <= i <= insns && i + left == numInsns && slots == Row(block, i)
    {
      slots, left, i := slots + [Slot(block, i)], left - 1, i + 1;
    }
  }

  /** The counters of the blocks that continue the one at q. */
  function Behind(v: seq<Block>, order: seq<nat>, q: nat): seq<Slot>
    requires |v| == |order| && q < |v|
  {
    if v[q].inner == NONE || q + 1 >= |v| then [] else Slots(v, order, q + 1)
  }

  lemma SlotsStep(v: seq<Block>, order: seq<nat>, q: nat, n: nat, done: seq<Slot>)
    requires |v| == |order| && q < |v|
    ensures done + Take(Slots(v, order, q), n) ==
            (done + Take(Row(order[q], v[q].insns), n)) + Take(Behind(v, order, q), Minus(n, v[q].insns))
  {
    TakeConcat(Row(order[q], v[q].insns), Behind(v, order, q), n);
    Associative(done, Take(Row(order[q], v[q].insns), n), Take(Behind(v, order, q), Minus(n, v[q].insns)));
  }

  /** The outer loop: one time is read for each cycle counter, from the block and on through its chain. */
  method TimeEvent(blocks: seq<Block>, ghost order: seq<nat>, ghost p: nat, bb: nat, numInsns: nat) returns (slots: seq<Slot>)
    requires Permutes(order, |blocks|) && p < |order| && bb == order[p]
    requires Threaded(InOrder(blocks, order), order)
    ensures slots == Take(Slots(InOrder(blocks, order), order, p), numInsns)
  {
    ghost var v, q := InOrder(blocks, order), p;
    ghost var todo := Take(Slots(v, order, p), numInsns);
    ghost var all := todo;
    slots := [];
    var block: int, left := bb, numInsns;
    while block != NONE
      invariant slots + todo == all && (block == NONE ==> todo == [])
      invariant q <= |order| && (block != NONE ==> q < |order| && block == order[q] && todo == Take(Slots(v, order, q), left))
      decreases |order| - q
    {
      SlotsStep(v, order, q, left, slots);
      LastStep(v, order, q);
      var row, rest := TimeBlock(block, blocks[block].insns, left);
      todo := Take(Behind(v, order, q), rest);
      slots, left := slots + row, rest;
      block, q := blocks[block].inner, q + 1;
    }
  }

  /** The frequency loop: the block and every block that continues it count once, and no other does. */
  method CountEvent(blocks: array<Block>, ghost order: seq<nat>, ghost p: nat, bb: nat)
    requires Permutes(order, blocks.Length) && p < |order| && bb == order[p]
    requires Threaded(InOrder(blocks[..], order), order)
    modifies blocks
    ensures var v := old(InOrder(blocks[..], order));
            forall r :: 0 <= r < |order| ==> blocks[order[r]] == Counted(v[r], p <= r <= Last(v, p))
  {
    ghost var v, q, last := InOrder(blocks[..], order), p, Last(InOrder(blocks[..], order), p);
    var block: int := bb;
    while block != NONE
      invariant q <= last + 1 && (block == NONE <==> q == last + 1)
      invariant block != NONE ==> block == order[q] && Last(v, q) == last
      invariant forall r :: 0 <= r < |order| ==> blocks[order[r]] == Counted(v[r], p <= r < q)
      decreases last + 1 - q
    {
      LastStep(v, order, q);
      block := CountOne(blocks, order, q, block);
      q := q + 1;
    }
  }

  method CountOne(blocks: array<Block>, ghost order: seq<nat>, ghost q: nat, block: nat) returns (inner: int)
    requires Permutes(order, blocks.Length) && q < |order| && block == order[q]
    modifies blocks
    ensures inner == old(blocks[block].inner)
    ensures forall r :: 0 <= r < |order| ==> blocks[order[r]] == Counted(old(blocks[order[r]]), r == q)
  {
    inner := blocks[block].inner;
    blocks[block] := Counted(blocks[block], true);
  }

  lemma LastStep(v: seq<Block>, order: seq<nat>, q: nat)
    requires Threaded(v, order) && q < |v|
    ensures if v[q].inner == NONE then Last(v, q) == q
            else q + 1 < |v| && v[q].inner == order[q + 1] && Last(v, q) == Last(v, q + 1)
  {}

  function Counted(b: Block, once: bool): Block {
    if once then b.(freq := b.freq + 1) else b
  }
}
