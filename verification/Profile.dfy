/** How bbprof attributes simulation time to instructions and blocks. */
module ProfileTimes {
  import opened Words
  import opened Options
  import opened InnerBlocks

  /** An amount of time for a counter, or for nothing before the first instruction. */
  datatype Charge = Charge(slot: Option<Slot>, amount: uint32)

  function SumOf(log: seq<Charge>): nat {
    if log == [] then 0 else SumOf(log[..|log| - 1]) + log[|log| - 1].amount
  }

  /** What a log of charges comes to for one counter. */
  function ForSlot(log: seq<Charge>, slot: Slot): nat {
    if log == [] then 0
    else
      var c := log[|log| - 1];
      ForSlot(log[..|log| - 1], slot) + if c.slot == Some(slot) then c.amount else 0
  }

  /** And for all the counters of one block. */
  function ForBlock(log: seq<Charge>, block: nat): nat {
    if log == [] then 0
    else
      var c := log[|log| - 1];
      ForBlock(log[..|log| - 1], block) + if c.slot.Some? && c.slot.value.block == block then c.amount else 0
  }

  /** The time from each instruction to the next belongs to the earlier one. */
  function Charges(slots: seq<Slot>, times: seq<uint32>, slot: Option<Slot>, time: uint32): (c: seq<Charge>)
    requires |times| == |slots|
    ensures |c| == |slots|
    decreases |slots|
  {
    if slots == [] then []
    else [Charge(slot, (times[0] - time) % TWO32)] + Charges(slots[1..], times[1..], Some(slots[0]), times[0])
  }

  lemma ChargesAt(slots: seq<Slot>, times: seq<uint32>, slot: Option<Slot>, time: uint32, i: nat)
    requires |times| == |slots| && i < |slots|
    ensures Charges(slots, times, slot, time)[i] ==
            Charge(if i == 0 then slot else Some(slots[i - 1]), (times[i] - if i == 0 then time else times[i - 1]) % TWO32)
    decreases i
  {
    if i > 0 {
      ChargesAt(slots[1..], times[1..], Some(slots[0]), times[0], i - 1);
    }
  }

  function At<K>(m: map<K, uint32>, k: K): uint32 {
    if k in m then m[k] else 0
  }

  lemma LogGrows(log: seq<Charge>, c: Charge)
    ensures SumOf(log + [c]) == SumOf(log) + c.amount
    ensures forall s :: ForSlot(log + [c], s) == ForSlot(log, s) + if c.slot == Some(s) then c.amount else 0
    ensures forall b :: ForBlock(log + [c], b) == ForBlock(log, b) + if c.slot.Some? && c.slot.value.block == b then c.amount else 0
  {
    assert (log + [c])[..|log|] == log;
  }

  lemma AddModulo(x: int, y: int)
    ensures (x % TWO32 + y) % TWO32 == (x + y) % TWO32
  {}

  ghost predicate SlotsBooked(cycles: map<Slot, uint32>, log: seq<Charge>) {
    forall s :: At(cycles, s) == ForSlot(log, s) % TWO32
  }

  ghost predicate BlocksBooked(elapsed: map<nat, uint32>, log: seq<Charge>) {
    forall b :: At(elapsed, b) == ForBlock(log, b) % TWO32
  }

  /** m with an amount added at one key, in 32 bits. */
  function Added<K>(m: map<K, uint32>, k: K, amount: uint32): map<K, uint32> {
    m[k := (At(m, k) + amount) % TWO32]
  }

  lemma SlotBooked(cycles: map<Slot, uint32>, log: seq<Charge>, slot: Option<Slot>, amount: uint32)
    requires SlotsBooked(cycles, log)
    ensures SlotsBooked(if slot.Some? then Added(cycles, slot.value, amount) else cycles, log + [Charge(slot, amount)])
  {
    LogGrows(log, Charge(slot, amount));
    if slot.Some? {
      AddModulo(ForSlot(log, slot.value), amount);
    }
  }

  lemma BlockBooked(elapsed: map<nat, uint32>, log: seq<Charge>, slot: Option<Slot>, amount: uint32)
    requires BlocksBooked(elapsed, log)
    ensures BlocksBooked(if slot.Some? then Added(elapsed, slot.value.block, amount) else elapsed, log + [Charge(slot, amount)])
  {
    LogGrows(log, Charge(slot, amount));
    if slot.Some? {
      AddModulo(ForBlock(log, slot.value.block), amount);
    }
  }

  lemma TimeAdds(log: seq<Charge>, slot: Option<Slot>, time: uint32, simTime: uint32)
    requires SumOf(log) % TWO32 == time
    ensures SumOf(log + [Charge(slot, (simTime - time) % TWO32)]) % TWO32 == simTime
  {
    var amount := (simTime - time) % TWO32;
    assert (log + [Charge(slot, amount)])[..|log|] == log;
    AddModulo(SumOf(log), amount);
    AddModulo(simTime - time, time);
  }

  // --- What one event adds to the counters --------------------------------------------------------------

  lemma {:induction false} ForSlotConcat(a: seq<Charge>, b: seq<Charge>, s: Slot)
    ensures ForSlot(a + b, s) == ForSlot(a, s) + ForSlot(b, s)
    decreases |b|
  {
    if b == [] {
      assert a + b == a;
    } else {
      var front, last := b[..|b| - 1], b[|b| - 1];
      assert a + b == (a + front) + [last] && ((a + front) + [last])[..|a + front|] == a + front;
      ForSlotConcat(a, front, s);
    }
  }

  /** The time one counter gets from the instructions that have a later one in the event. */
  function Own(slots: seq<Slot>, times: seq<uint32>, s: Slot): nat
    requires |times| == |slots|
    decreases |slots|
  {
    if |slots| < 2 then 0
    else (if slots[0] == s then (times[1] - times[0]) % TWO32 else 0) + Own(slots[1..], times[1..], s)
  }

  /** And from the instruction before the event. */
  function FromBefore(times: seq<uint32>, slot: Option<Slot>, time: uint32, s: Slot): nat {
    if times != [] && slot == Some(s) then (times[0] - time) % TWO32 else 0
  }

  lemma {:induction false} ChargesOwn(slots: seq<Slot>, times: seq<uint32>, slot: Option<Slot>, time: uint32, s: Slot)
    requires |times| == |slots|
    ensures ForSlot(Charges(slots, times, slot, time), s) == FromBefore(times, slot, time, s) + Own(slots, times, s)
    decreases |slots|
  {
    if slots != [] {
      var first, rest := [Charge(slot, (times[0] - time) % TWO32)], Charges(slots[1..], times[1..], Some(slots[0]), times[0]);
      ChargesOwn(slots[1..], times[1..], Some(slots[0]), times[0], s);
      ForSlotConcat(first, rest, s);
      assert first[..0] == [];
    }
  }

  /** A counter of none of the instructions gets nothing. */
  lemma {:induction false} OwnNone(slots: seq<Slot>, times: seq<uint32>, s: Slot)
    requires |times| == |slots| && s !in slots
    ensures Own(slots, times, s) == 0
    decreases |slots|
  {
    if |slots| >= 2 {
      OwnNone(slots[1..], times[1..], s);
    }
  }

  /** That of instruction i gets the time from it to the next, if there is one in the event. */
  lemma {:induction false} OwnAt(slots: seq<Slot>, times: seq<uint32>, i: nat)
    requires |times| == |slots| && i < |slots| && forall j, k :: 0 <= j < k < |slots| ==> slots[j] != slots[k]
    ensures Own(slots, times, slots[i]) == if i + 1 < |slots| then (times[i + 1] - times[i]) % TWO32 else 0
    decreases |slots|
  {
    if |slots| >= 2 {
      if i == 0 {
        OwnNone(slots[1..], times[1..], slots[0]);
      } else {
        OwnAt(slots[1..], times[1..], i - 1);
      }
    }
  }

  lemma SumModulo(a: int, x: int, b: int, n: int)
    requires a == x % TWO32 && b == (x + n) % TWO32
    ensures b == (a + n) % TWO32
  {
    AddModulo(x, n);
  }

  /** What an event's charges do to the counters. */
  ghost predicate Grown(was: map<Slot, uint32>, now: map<Slot, uint32>, slots: seq<Slot>, times: seq<uint32>, slot: Option<Slot>, time: uint32)
    requires |times| == |slots|
  {
    forall s :: At(now, s) == (At(was, s) + (FromBefore(times, slot, time, s) + Own(slots, times, s))) % TWO32
  }

  lemma EventBooked(was: map<Slot, uint32>, now: map<Slot, uint32>, log: seq<Charge>, slots: seq<Slot>, times: seq<uint32>,
                    slot: Option<Slot>, time: uint32)
    requires |times| == |slots| && SlotsBooked(was, log) && SlotsBooked(now, log + Charges(slots, times, slot, time))
    ensures Grown(was, now, slots, times, slot, time)
  {
    var more := Charges(slots, times, slot, time);
    forall s
      ensures At(now, s) == (At(was, s) + (FromBefore(times, slot, time, s) + Own(slots, times, s))) % TWO32
    {
      ChargesOwn(slots, times, slot, time, s);
      ForSlotConcat(log, more, s);
      SumModulo(At(was, s), ForSlot(log, s), At(now, s), ForSlot(more, s));
    }
  }

  /**
   * For an event's counters in the chain of its block: the one of instruction i gets the time to the next,
   * and a counter outside the chain gets nothing.
   */
  lemma EventShare(v: seq<Block>, order: seq<nat>, p: nat, n: nat, times: seq<uint32>, i: nat)
    requires Permutes(order, |v|) && |times| == |Take(Slots(v, order, p), n)| && i < |times|
    ensures var slots := Take(Slots(v, order, p), n);
            Own(slots, times, slots[i]) == (if i + 1 < |slots| then (times[i + 1] - times[i]) % TWO32 else 0) &&
            forall s :: s !in slots ==> Own(slots, times, s) == 0
  {
    var slots := Take(Slots(v, order, p), n);
    forall j, k | 0 <= j < k < |slots|
      ensures slots[j] != slots[k]
    {
      SlotsDiffer(v, order, p, j, k);
    }
    OwnAt(slots, times, i);
    forall s | s !in slots
      ensures Own(slots, times, s) == 0
    {
      OwnNone(slots, times, s);
    }
  }

  class Profile {
    var cycles: map<Slot, uint32>       // the cycles arrays of the blocks
    var elapsed: map<nat, uint32>       // the elapsed fields
    var current: Option<Slot>           // what cycle_ptr and bb_elapsed_ptr point to; None: the dummy
    var prevTime: uint32
    ghost var log: seq<Charge>

    /** Every counter holds what was charged to it, and the charges add up to the time of the last instruction. */
    ghost predicate Valid()
      reads this
    {
      Booked() && SumOf(log) % TWO32 == prevTime
    }

    ghost predicate Booked()
      reads this
    {
      SlotsBooked(cycles, log) && BlocksBooked(elapsed, log)
    }

    constructor ()
      ensures Valid() && log == [] && current == None && prevTime == 0
    {
      cycles, elapsed, current, prevTime, log := map[], map[], None, 0, [];
    }

    /** Adds an amount to what is pointed to. */
    method Add(amount: uint32)
      requires Booked()
      modifies `cycles, `elapsed, `log
      ensures Booked()
      ensures log == old(log) + [Charge(current, amount)]
    {
      SlotBooked(cycles, log, current, amount);
      BlockBooked(elapsed, log, current, amount);
      if current.Some? {
        cycles := Added(cycles, current.value, amount);
        elapsed := Added(elapsed, current.value.block, amount);
      }
      log := log + [Charge(current, amount)];
    }

    /** One instruction runs at simTime. */
    method RunInsn(slot: Slot, simTime: uint32)
      requires Valid()
      modifies this
      ensures Valid() && current == Some(slot) && prevTime == simTime
      ensures log == old(log) + [Charge(old(current), (simTime - old(prevTime)) % TWO32)]
    {
      var amount := (simTime - prevTime) % TWO32;
      TimeAdds(log, current, prevTime, simTime);
      Add(amount);
      prevTime, current := simTime, Some(slot);
    }

    /**
     * The times of an event's instructions. Afterwards all charges together are the time of the last
     * instruction, in 32 bits: no time is lost and none is counted twice.
     */
    method ChargeAll(slots: seq<Slot>, times: seq<uint32>)
      requires Valid() && |times| == |slots|
      modifies this
      ensures Valid() && log == old(log) + Charges(slots, times, old(current), old(prevTime))
      ensures slots != [] ==> current == Some(slots[|slots| - 1]) && prevTime == times[|times| - 1]
    {
      var i := 0;
      ghost var todo := Charges(slots, times, current, prevTime);
      ghost var all := log + todo;
      assert slots[0..] == slots && times[0..] == times;
      while i < |slots|
        invariant 0 <= i <= |slots| && Valid() && log + todo == all
        invariant todo == Charges(slots[i..], times[i..], current, prevTime)
        invariant i > 0 ==> current == Some(slots[i - 1]) && prevTime == times[i - 1]
      {
        assert slots[i..][1..] == slots[i + 1..] && times[i..][1..] == times[i + 1..];
        Associative(log, [todo[0]], todo[1..]);
        RunInsn(slots[i], times[i]);
        todo := todo[1..];
        i := i + 1;
      }
    }

    /**
     * The times of one event, for the counters its instructions select. Every cycle counter grows by the
     * time from its instruction to the next; that of the last one before the event by the time from it to
     * the event's first.
     */
    method ProfileEvent(blocks: seq<Block>, ghost order: seq<nat>, ghost p: nat, bb: nat, numInsns: nat, times: seq<uint32>)
      requires Valid() && Permutes(order, |blocks|) && p < |order| && bb == order[p]
      requires Threaded(InOrder(blocks, order), order)
      requires |times| == |Take(Slots(InOrder(blocks, order), order, p), numInsns)|
      modifies this
      ensures Valid() && (times != [] ==> prevTime == times[|times| - 1])
      ensures var slots := Take(Slots(InOrder(blocks, order), order, p), numInsns);
              (times != [] ==> current == Some(slots[|slots| - 1])) &&
              Grown(old(cycles), cycles, slots, times, old(current), old(prevTime))
    {
      ghost var was, before, slot, time := cycles, log, current, prevTime;
      var slots := TimeEvent(blocks, order, p, bb, numInsns);
      ChargeAll(slots, times);
      EventBooked(was, cycles, before, slots, times, slot, time);
    }
  }
}
