/**
 * The futures_ array of BBReader: one array of structs through which two lists are threaded,
 * the pending futures in time order (head_) and the unused ones (free_). Pointers are indices.
 */
module Futures {
  import opened Words
  import opened BBMerge
  import opened Chains

  /** Two lists without repetition that share nothing and, with held, use every index below n. */
  ghost predicate Owned(n: nat, active: seq<int>, spare: seq<int>, held: set<int>) {
    Distinct(active) && Distinct(spare) &&
    (forall k :: k in active ==> k !in spare && k !in held) &&
    (forall k :: k in spare ==> k !in held) &&
    (forall k :: 0 <= k < n <==> k in active || k in spare || k in held)
  }

  lemma OwnedInsert(n: nat, active: seq<int>, spare: seq<int>, x: int, i: nat)
    requires Owned(n, active, spare, {x}) && i <= |active|
    ensures Owned(n, active[..i] + [x] + active[i..], spare, {})
  {
    var l := active[..i] + [x] + active[i..];
    assert active == active[..i] + active[i..];
    forall k ensures k in l <==> k in active || k == x {
    }
    forall j | 0 <= j < |l| ensures l[j] == if j < i then active[j] else if j == i then x else active[j - 1] {
    }
  }

  lemma FrontLinked(next: seq<int>, head: int, free: int, active: seq<int>, spare: seq<int>, x: int)
    requires Chain(next, head, active) && Chain(next, free, spare) && Owned(|next|, active, spare, {x})
    ensures var next1 := next[x := head];
            Chain(next1, x, [x] + active) && Chain(next1, free, spare) && Owned(|next|, [x] + active, spare, {})
  {
    ChainPush(next, head, active, x);
    ChainFrame(next, free, spare, x, head);
    OwnedInsert(|next|, active, spare, x, 0);
    assert active[..0] + [x] + active[0..] == [x] + active;
  }

  lemma MiddleLinked(next: seq<int>, head: int, free: int, active: seq<int>, spare: seq<int>, x: int, i: nat)
    requires Chain(next, head, active) && Chain(next, free, spare) && Owned(|next|, active, spare, {x})
    requires 0 < i <= |active|
    ensures var next2 := LinkedAfter(next, x, active[i - 1]); var l := active[..i] + [x] + active[i..];
            Chain(next2, head, l) && Chain(next2, free, spare) && Owned(|next|, l, spare, {})
  {
    var prev := active[i - 1];
    ChainInsert(next, head, active, i, x);
    ChainFrame(next, free, spare, x, next[prev]);
    ChainFrame(next[x := next[prev]], free, spare, prev, x);
    OwnedInsert(|next|, active, spare, x, i);
  }

  lemma ViewInsert(bbs: seq<TimeRec>, list: seq<int>, x: int, i: nat)
    requires (forall k :: 0 <= k < |list| ==> 0 <= list[k] < |bbs|) && 0 <= x < |bbs| && i <= |list|
    requires forall k :: 0 <= k < |list| + 1 ==> 0 <= (list[..i] + [x] + list[i..])[k] < |bbs|
    ensures Held(bbs, list[..i] + [x] + list[i..]) == Held(bbs, list)[..i] + [bbs[x]] + Held(bbs, list)[i..]
  {
    var l := list[..i] + [x] + list[i..];
    var v := Held(bbs, list)[..i] + [bbs[x]] + Held(bbs, list)[i..];
    forall k | 0 <= k < |l| ensures Held(bbs, l)[k] == v[k] {
      if k > i {
        assert l[k] == list[k - 1];
      }
    }
  }

  /** Where the search of InsertFuture stops is where Insert puts the entry. */
  lemma {:induction false} InsertAt(p: TimeRec, pending: seq<TimeRec>, i: nat)
    requires i <= |pending| && forall k :: 0 <= k < i ==> pending[k].nextTime < p.nextTime
    requires i == |pending| || p.nextTime <= pending[i].nextTime
    ensures Insert(p, pending) == pending[..i] + [p] + pending[i..]
  {
    if i == 0 {
    } else {
      InsertAt(p, pending[1..], i - 1);
      assert pending[..i] == [pending[0]] + pending[1..][..i - 1];
    }
  }

  /** The structs of futures_ as two parallel arrays, one a field: next and bb. */
  class FutureTable {
    const next: array<int>
    const bb: array<TimeRec>
    var head: int
    var free: int
    ghost var active: seq<int>
    ghost var spare: seq<int>

    /** Both lists are intact; the indices in held are on neither. */
    ghost predicate Holding(held: set<int>)
      reads this, next
    {
      next.Length == bb.Length && Chain(next[..], head, active) && Chain(next[..], free, spare) &&
      Owned(next.Length, active, spare, held)
    }

    ghost predicate Valid()
      reads this, next
    {
      Holding({})
    }

    ghost function Pending(): (v: seq<TimeRec>)
      requires forall i :: 0 <= i < |active| ==> 0 <= active[i] < bb.Length
      reads this, bb
    {
      Held(bb[..], active)
    }

    /** Links every element on the free list, as Open does. */
    constructor (capacity: nat)
      requires capacity > 0
      ensures Valid() && fresh(next) && fresh(bb) && next.Length == capacity
      ensures active == [] && |spare| == capacity
    {
      next := new int[capacity](_ => NULL);
      bb := new TimeRec[capacity](_ => TimeRec(BBRec(0, 0, 0, 0), 0));
      head, free := NULL, 0;
      active, spare := [], seq(capacity, i => i);
      new;
      for ii := 0 to capacity - 1
        invariant forall i :: 0 <= i < ii ==> next[i] == i + 1
        invariant forall i :: ii <= i < capacity ==> next[i] == NULL
        modifies next
      {
        next[ii] := ii + 1;
      }
      assert forall k :: 0 <= k < capacity ==> spare[k] == k;
      forall k ensures 0 <= k < capacity <==> k in spare {
        if 0 <= k < capacity {
          assert spare[k] == k;
        }
      }
    }

    method AllocFuture() returns (future: int)
      requires Valid() && spare != []
      modifies `free, `spare
      ensures future == old(spare)[0] && spare == old(spare)[1..]
      ensures Holding({future})
    {
      ChainPop(next[..], free, spare);
      future := free;
      free := next[free];
      spare := spare[1..];
    }

    method FreeFuture(future: int)
      requires Holding({future})
      modifies `free, `spare, next
      ensures Valid() && spare == [future] + old(spare)
    {
      ChainFrame(next[..], head, active, future, free);
      ChainPush(next[..], free, spare, future);
      next[future] := free;
      free := future;
      spare := [future] + spare;
    }

    /** The search of InsertFuture: the last pending future that is earlier than time, or NULL. */
    method FindPlace(time: uint64, ghost held: set<int>) returns (prev: int, ghost i: nat)
      requires Holding(held)
      ensures i <= |active| && prev == if i == 0 then NULL else active[i - 1]
      ensures forall k :: 0 <= k < i ==> Pending()[k].nextTime < time
      ensures i == |active| || time <= Pending()[i].nextTime
    {
      prev, i := NULL, 0;
      var ptr := head;
      while ptr != NULL
        invariant i <= |active| && ptr == Link(active, i) && prev == if i == 0 then NULL else active[i - 1]
        invariant forall k :: 0 <= k < i ==> Pending()[k].nextTime < time
        decreases |active| - i
      {
        if time <= bb[ptr].nextTime {
          break;
        }
        prev, ptr, i := ptr, next[ptr], i + 1;
      }
    }

    method LinkFront(future: int)
      requires Holding({future})
      modifies `head, `active, next
      ensures Valid() && Pending() == [bb[future]] + old(Pending())
    {
      FrontLinked(next[..], head, free, active, spare, future);
      ViewInsert(bb[..], active, future, 0);
      assert active[..0] + [future] + active[0..] == [future] + active;
      next[future] := head;
      head := future;
      active := [future] + active;
    }

    method LinkAfter(future: int, prev: int, ghost i: nat)
      requires Holding({future}) && 0 < i <= |active| && prev == active[i - 1]
      modifies `active, next
      ensures Valid()
      ensures var was := old(Pending()); Pending() == was[..i] + [bb[future]] + was[i..]
    {
      ghost var next0 := next[..];
      MiddleLinked(next0, head, free, active, spare, future, i);
      ViewInsert(bb[..], active, future, i);
      next[future] := next[prev];
      next[prev] := future;
      assert next[..] == LinkedAfter(next0, future, prev);
      active := active[..i] + [future] + active[i..];
    }

    /** Links the future into the pending list, before the first entry that is not earlier. */
    method InsertFuture(future: int)
      requires Holding({future})
      modifies `head, `active, next
      ensures Valid() && Pending() == Insert(bb[future], old(Pending())) && |active| == |old(active)| + 1
    {
      var prev, i := FindPlace(bb[future].nextTime, {future});
      InsertAt(bb[future], Pending(), i);
      if prev == NULL {
        LinkFront(future);
      } else {
        LinkAfter(future, prev, i);
      }
    }

    /** Unlinks the head of the pending list. */
    method RemoveHead() returns (future: int)
      requires Valid() && head != NULL
      modifies `head, `active
      ensures Holding({future}) && old(active) != [] && future == old(active)[0] && active == old(active)[1..]
      ensures Pending() == old(Pending())[1..] && bb[future] == old(Pending())[0]
    {
      ChainPop(next[..], head, active);
      future := head;
      head := next[head];
      active := active[1..];
    }

    /** What ReadBB does with the earliest future: move it on by one repetition, or free it. */
    method AdvanceHead()
      requires Valid() && head != NULL
      modifies this, next, bb
      ensures Valid() && Pending() == AfterPending(old(Pending()))
      ensures |active| + |spare| == old(|active| + |spare|)
    {
      var future := RemoveHead();
      if bb[future].rec.repeat > 0 {
        ghost var rest := Pending();
        bb[future] := Repeated(bb[future]);
        assert Pending() == rest;
        InsertFuture(future);
      } else {
        FreeFuture(future);
      }
    }

    /** What ReadBB does with a repeating record it has just started. */
    method AddStarted(r: BBRec)
      requires Valid() && spare != [] && r.repeat > 0
      modifies this, next, bb
      ensures Valid() && Pending() == AfterRec(old(Pending()), r)
      ensures |active| + |spare| == old(|active| + |spare|)
    {
      var future := AllocFuture();
      bb[future] := Started(r);
      assert Pending() == old(Pending());
      InsertFuture(future);
    }
  }
}
