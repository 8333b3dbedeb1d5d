/**
 * The event loop of qemud: an array of hooks that is reallocated and compacted, and an epoll set
 * whose entries point into that array.
 */
module EventLoop {
  import opened Words

  datatype Event = In | Out | Hup | Err

  datatype LoopHook = LoopHook(fd: int, wanted: set<Event>, events: set<Event>,
                               pending: bool, closing: bool, user: int)

  /** An address of a hook: position index of the block-th allocation of the hook array. */
  datatype Pointer = Pointer(block: nat, index: nat)

  datatype Registration = Registration(mask: set<Event>, ptr: Pointer)

  type EpollSet = map<int, Registration>

  /** epoll_ctl(EPOLL_CTL_MOD): fails, changing nothing, on a descriptor that is not registered. */
  function EpollMod(epoll: EpollSet, fd: int, r: Registration): EpollSet {
    if fd in epoll then epoll[fd := r] else epoll
  }

  ghost predicate DistinctFds(hooks: seq<LoopHook>) {
    forall i, j :: 0 <= i < j < |hooks| ==> hooks[i].fd != hooks[j].fd
  }

  /** Each live hook is registered with its own mask and its own address; a closing one is not. */
  ghost predicate HookAgrees(epoll: EpollSet, h: LoopHook, p: Pointer) {
    if h.closing then h.fd !in epoll else h.fd in epoll && epoll[h.fd] == Registration(h.wanted, p)
  }

  ghost predicate AllAgree(epoll: EpollSet, hooks: seq<LoopHook>, block: nat) {
    forall i :: 0 <= i < |hooks| ==> HookAgrees(epoll, hooks[i], Pointer(block, i))
  }

  ghost predicate NoStrays(epoll: EpollSet, hooks: seq<LoopHook>) {
    forall fd :: fd in epoll ==> exists i :: 0 <= i < |hooks| && hooks[i].fd == fd
  }

  ghost predicate Agreement(epoll: EpollSet, hooks: seq<LoopHook>, block: nat) {
    DistinctFds(hooks) && AllAgree(epoll, hooks, block) && NoStrays(epoll, hooks)
  }

  /** How often a hook is among those not closing. */
  function Live(hooks: seq<LoopHook>, h: LoopHook): nat {
    if hooks == [] then 0 else (if !hooks[0].closing && hooks[0] == h then 1 else 0) + Live(hooks[1..], h)
  }

  datatype Call = Call(user: int, events: set<Event>)

  /** The callbacks owed to the hooks, in order. */
  function Owed(hooks: seq<LoopHook>): seq<Call> {
    if hooks == [] then []
    else (if hooks[0].pending then [Call(hooks[0].user, hooks[0].events)] else []) + Owed(hooks[1..])
  }

  datatype Op =
    | Add(fd: int, user: int)
    | Del(fd: int)
    | Enable(fd: int, events: set<Event>)
    | Disable(fd: int, events: set<Event>)

  /** The fields that decide what a dispatch does are the same in both, hook by hook; more may follow. */
  ghost predicate SameCalls(was: seq<LoopHook>, now: seq<LoopHook>) {
    |was| <= |now| &&
    (forall i :: 0 <= i < |was| ==>
      now[i].pending == was[i].pending && now[i].user == was[i].user && now[i].events == was[i].events &&
      now[i].fd == was[i].fd) &&
    (forall i :: |was| <= i < |now| ==> !now[i].pending)
  }

  /** A hook is closing afterwards if it was before or if one of the operations deletes its descriptor. */
  ghost predicate ClosedBy(was: seq<LoopHook>, now: seq<LoopHook>, ops: seq<Op>) {
    |was| <= |now| &&
    forall i :: 0 <= i < |was| ==> now[i].fd == was[i].fd && now[i].user == was[i].user && (now[i].closing <==> was[i].closing || Del(was[i].fd) in ops)
  }

  lemma ClosedByMore(was: seq<LoopHook>, mid: seq<LoopHook>, now: seq<LoopHook>, a: seq<Op>, b: seq<Op>)
    requires ClosedBy(was, mid, a) && ClosedBy(mid, now, b)
    ensures ClosedBy(was, now, a + b)
  {}

  /** What the callbacks do, in order. */
  function AllOps(calls: seq<Call>, react: int -> seq<Op>): seq<Op> {
    if calls == [] then [] else AllOps(calls[..|calls| - 1], react) + react(calls[|calls| - 1].user)
  }

  lemma {:induction false} AllOpsConcat(a: seq<Call>, b: seq<Call>, react: int -> seq<Op>)
    ensures AllOps(a + b, react) == AllOps(a, react) + AllOps(b, react)
    decreases |b|
  {
    if b == [] {
      assert a + b == a && AllOps(a, react) + [] == AllOps(a, react);
    } else {
      var front, last := b[..|b| - 1], b[|b| - 1];
      assert a + b == (a + front) + [last] && ((a + front) + [last])[..|a + front|] == a + front;
      AllOpsConcat(a, front, react);
      Associative(AllOps(a, react), AllOps(front, react), react(last.user));
    }
  }

  // --- Which descriptors may be added -----------------------------------------------------------------

  /** The descriptors on a hook, live or closing. */
  function Fds(hooks: seq<LoopHook>): set<int> {
    set i | 0 <= i < |hooks| :: hooks[i].fd
  }

  /** Until the next sweep an operation only adds to them. */
  function FdsAfter(fds: set<int>, ops: seq<Op>): set<int>
    decreases |ops|
  {
    if ops == [] then fds else FdsAfter(FdsWith(fds, ops[0]), ops[1..])
  }

  function FdsWith(fds: set<int>, op: Op): set<int> {
    if op.Add? then fds + {op.fd} else fds
  }

  /** No operation adds a descriptor that is still on a hook. */
  predicate AddsFresh(fds: set<int>, ops: seq<Op>)
    decreases |ops|
  {
    ops == [] || ((ops[0].Add? ==> ops[0].fd !in fds) && AddsFresh(FdsWith(fds, ops[0]), ops[1..]))
  }

  lemma {:induction false} AddsFreshConcat(fds: set<int>, a: seq<Op>, b: seq<Op>)
    ensures FdsAfter(fds, a + b) == FdsAfter(FdsAfter(fds, a), b)
    ensures AddsFresh(fds, a + b) <==> AddsFresh(fds, a) && AddsFresh(FdsAfter(fds, a), b)
    decreases |a|
  {
    if a == [] {
      assert a + b == b;
    } else {
      assert (a + b)[0] == a[0] && (a + b)[1..] == a[1..] + b;
      AddsFreshConcat(FdsWith(fds, a[0]), a[1..], b);
    }
  }

  /** epoll_ctl(EPOLL_CTL_ADD): fails, changing nothing, on a descriptor that is registered. */
  function EpollAdd(epoll: EpollSet, fd: int, r: Registration): EpollSet {
    if fd in epoll then epoll else epoll[fd := r]
  }

  /** What looper_add does where there is room keeps the agreement exactly if the descriptor is on no hook, live or closing. */
  lemma AddAgreesIff(epoll: EpollSet, hooks: seq<LoopHook>, block: nat, fd: int, user: int)
    requires Agreement(epoll, hooks, block)
    ensures var h := LoopHook(fd, {}, {}, false, false, user);
            Agreement(EpollAdd(epoll, fd, Registration({}, Pointer(block, |hooks|))), hooks + [h], block) <==> fd !in Fds(hooks)
  {
    var h := LoopHook(fd, {}, {}, false, false, user);
    if fd in Fds(hooks) {
      var i :| 0 <= i < |hooks| && hooks[i].fd == fd;
      assert (hooks + [h])[i].fd == (hooks + [h])[|hooks|].fd;
    } else {
      AgreementAdd(epoll, hooks, block, h);
    }
  }

  lemma TurnIsFresh(fds: set<int>, call: seq<Call>, more: seq<Call>, react: int -> seq<Op>)
    requires |call| <= 1 && AddsFresh(fds, AllOps(call + more, react))
    ensures call != [] ==> AllOps(call, react) == react(call[0].user)
    ensures AddsFresh(fds, AllOps(call, react)) && AddsFresh(FdsAfter(fds, AllOps(call, react)), AllOps(more, react))
  {
    AllOpsConcat(call, more, react);
    AddsFreshConcat(fds, AllOps(call, react), AllOps(more, react));
    if call != [] {
      assert call[..0] == [] && [] + react(call[0].user) == react(call[0].user);
    }
  }

  lemma NextIsFresh(fds: set<int>, ops: seq<Op>, i: nat)
    requires AddsFresh(fds, ops) && i < |ops|
    ensures ops[i].Add? ==> ops[i].fd !in FdsAfter(fds, ops[..i])
    ensures FdsAfter(fds, ops[..i + 1]) == FdsWith(FdsAfter(fds, ops[..i]), ops[i])
  {
    assert ops == ops[..i] + ops[i..] && ops[i..][0] == ops[i];
    AddsFreshConcat(fds, ops[..i], ops[i..]);
    assert ops[..i + 1] == ops[..i] + [ops[i]];
    AddsFreshConcat(fds, ops[..i], [ops[i]]);
    assert [ops[i]][1..] == [];
  }

  lemma FdsMore(hooks: seq<LoopHook>, h: LoopHook)
    ensures Fds(hooks + [h]) == Fds(hooks) + {h.fd}
  {
    forall fd | fd in Fds(hooks) + {h.fd}
      ensures fd in Fds(hooks + [h])
    {
      if fd in Fds(hooks) {
        var i :| 0 <= i < |hooks| && hooks[i].fd == fd;
        assert (hooks + [h])[i].fd == fd;
      } else {
        assert (hooks + [h])[|hooks|].fd == fd;
      }
    }
  }

  lemma FdsSame(was: seq<LoopHook>, now: seq<LoopHook>)
    requires |was| == |now| && forall i :: 0 <= i < |was| ==> now[i].fd == was[i].fd
    ensures Fds(now) == Fds(was)
  {
    forall fd | fd in Fds(was)
      ensures fd in Fds(now)
    {
      var i :| 0 <= i < |was| && was[i].fd == fd;
      assert now[i].fd == fd;
    }
    forall fd | fd in Fds(now)
      ensures fd in Fds(was)
    {
      var i :| 0 <= i < |was| && now[i].fd == fd;
      assert was[i].fd == fd;
    }
  }

  ghost predicate HasHook(hooks: seq<LoopHook>, fd: int) {
    exists n :: 0 <= n < |hooks| && hooks[n].fd == fd
  }

  /** Changing one hook, its descriptor kept, and its own registration. */
  lemma AgreementUpdate(epoll: EpollSet, hooks: seq<LoopHook>, block: nat, n: nat, h: LoopHook, epoll1: EpollSet)
    requires Agreement(epoll, hooks, block) && n < |hooks| && h.fd == hooks[n].fd
    requires epoll1 - {h.fd} == epoll - {h.fd} && HookAgrees(epoll1, h, Pointer(block, n))
    ensures Agreement(epoll1, hooks[n := h], block)
  {
    var hooks1 := hooks[n := h];
    forall i | 0 <= i < |hooks1| ensures HookAgrees(epoll1, hooks1[i], Pointer(block, i)) {
      if i != n {
        var fd := hooks[i].fd;
        assert fd != h.fd;
        assert fd in epoll <==> fd in epoll - {h.fd};
        assert fd in epoll1 <==> fd in epoll1 - {h.fd};
      }
    }
    forall fd | fd in epoll1 ensures exists i :: 0 <= i < |hooks1| && hooks1[i].fd == fd {
      if fd == h.fd {
        assert hooks1[n].fd == fd;
      } else {
        assert fd in epoll1 - {h.fd};
        var i :| 0 <= i < |hooks| && hooks[i].fd == fd;
        assert hooks1[i].fd == fd;
      }
    }
  }

  lemma AgreementAdd(epoll: EpollSet, hooks: seq<LoopHook>, block: nat, h: LoopHook)
    requires Agreement(epoll, hooks, block) && !h.closing && forall i :: 0 <= i < |hooks| ==> hooks[i].fd != h.fd
    ensures h.fd !in epoll
    ensures Agreement(epoll[h.fd := Registration(h.wanted, Pointer(block, |hooks|))], hooks + [h], block)
  {
    var epoll1 := epoll[h.fd := Registration(h.wanted, Pointer(block, |hooks|))];
    forall fd | fd in epoll1 ensures exists i :: 0 <= i < |hooks + [h]| && (hooks + [h])[i].fd == fd {
      if fd == h.fd {
        assert (hooks + [h])[|hooks|].fd == fd;
      } else {
        var i :| 0 <= i < |hooks| && hooks[i].fd == fd;
        assert (hooks + [h])[i].fd == fd;
      }
    }
  }

  /** The hook at n gone, the last one in its place. */
  function WithoutAt(hooks: seq<LoopHook>, n: nat): seq<LoopHook>
    requires n < |hooks|
  {
    var last := |hooks| - 1;
    if n == last then hooks[..last] else hooks[..last][n := hooks[last]]
  }

  lemma {:induction false} AgreementRemove(epoll: EpollSet, hooks: seq<LoopHook>, block: nat, n: nat)
    requires Agreement(epoll, hooks, block) && n < |hooks| && hooks[n].closing
    ensures var h := hooks[|hooks| - 1];
            Agreement(EpollMod(epoll, h.fd, Registration(h.wanted, Pointer(block, n))), WithoutAt(hooks, n), block)
  {
    var last := |hooks| - 1;
    var h, hooks1 := hooks[last], WithoutAt(hooks, n);
    var epoll1 := EpollMod(epoll, h.fd, Registration(h.wanted, Pointer(block, n)));
    forall fd | fd in epoll1 ensures exists i :: 0 <= i < |hooks1| && hooks1[i].fd == fd {
      var i :| 0 <= i < |hooks| && hooks[i].fd == fd;
      assert i != n;
      assert hooks1[if i == last then n else i].fd == fd;
    }
  }

  lemma {:induction false} LiveConcat(a: seq<LoopHook>, b: seq<LoopHook>, h: LoopHook)
    ensures Live(a + b, h) == Live(a, h) + Live(b, h)
  {
    if a == [] {
      assert a + b == b;
    } else {
      assert (a + b)[1..] == a[1..] + b;
      LiveConcat(a[1..], b, h);
    }
  }

  lemma LiveAround(a: seq<LoopHook>, x: LoopHook, b: seq<LoopHook>, h: LoopHook)
    ensures Live(a + [x] + b, h) == Live(a, h) + Live(b, h) + if !x.closing && x == h then 1 else 0
  {
    LiveConcat(a + [x], b, h);
    LiveConcat(a, [x], h);
    assert [x][1..] == [];
  }

  /** Removing a closing hook keeps the live ones. */
  lemma LiveWithout(hooks: seq<LoopHook>, n: nat, h: LoopHook)
    requires n < |hooks| && hooks[n].closing
    ensures Live(WithoutAt(hooks, n), h) == Live(hooks, h)
  {
    var last := |hooks| - 1;
    assert hooks == hooks[..last] + [hooks[last]] + [];
    LiveAround(hooks[..last], hooks[last], [], h);
    if n < last {
      var a, b := hooks[..n], hooks[n + 1..last];
      assert hooks[..last] == a + [hooks[n]] + b && WithoutAt(hooks, n) == a + [hooks[last]] + b;
      LiveAround(a, hooks[n], b, h);
      LiveAround(a, hooks[last], b, h);
    }
  }

  ghost predicate NoneClosing(hooks: seq<LoopHook>, n: nat) {
    n <= |hooks| && forall i :: 0 <= i < n ==> !hooks[i].closing
  }

  datatype Ready = Ready(fd: int, events: set<Event>)

  /** A hook after epoll_wait's list has been gone through. */
  function Marked(h: LoopHook, ready: seq<Ready>): LoopHook {
    if ready == [] then h
    else
      var r := ready[|ready| - 1];
      if r.fd == h.fd then h.(pending := true, closing := false, events := r.events)
      else Marked(h, ready[..|ready| - 1])
  }

  lemma {:induction false} MarkedKeeps(h: LoopHook, ready: seq<Ready>)
    requires !h.closing
    ensures var m := Marked(h, ready); m.fd == h.fd && m.wanted == h.wanted && m.user == h.user && !m.closing
  {
    if ready != [] {
      MarkedKeeps(h, ready[..|ready| - 1]);
    }
  }

  /** In the middle of a dispatch: the first n hooks have been called, new ones only follow at the end. */
  ghost predicate Dispatching(start: seq<LoopHook>, now: seq<LoopHook>, n: nat) {
    |start| <= |now| &&
    (forall i :: 0 <= i < |start| ==>
      now[i].user == start[i].user && now[i].events == start[i].events && now[i].fd == start[i].fd &&
      now[i].pending == (i >= n && start[i].pending)) &&
    (forall i :: |start| <= i < |now| ==> !now[i].pending)
  }

  /** The call owed to the hook at n; new hooks are owed none. */
  function Turn(hooks: seq<LoopHook>, n: nat): seq<Call> {
    if n < |hooks| && hooks[n].pending then [Call(hooks[n].user, hooks[n].events)] else []
  }

  function OwedFrom(hooks: seq<LoopHook>, n: nat): seq<Call> {
    if n < |hooks| then Owed(hooks[n..]) else []
  }

  lemma OwedStep(hooks: seq<LoopHook>, n: nat)
    ensures OwedFrom(hooks, n) == Turn(hooks, n) + OwedFrom(hooks, n + 1)
  {
    if n < |hooks| {
      assert hooks[n..][1..] == hooks[n + 1..];
    }
  }

  class Looper {
    var epoll: EpollSet
    var numFds: nat
    var maxFds: nat
    var hooks: seq<LoopHook>   // maxFds of them, the first numFds in use
    var block: nat             // which allocation of the array this is

    ghost predicate Shaped()
      reads this
    {
      numFds <= maxFds == |hooks|
    }

    ghost function Used(): (s: seq<LoopHook>)
      requires Shaped()
      reads this
    {
      hooks[..numFds]
    }

    ghost predicate Valid()
      reads this
    {
      Shaped() && Agreement(epoll, Used(), block)
    }

    /** looper_init */
    constructor ()
      ensures Valid() && Used() == []
    {
      epoll, numFds, maxFds, hooks, block := map[], 0, 0, [], 0;
    }

    /** looper_find: the position of the descriptor's hook, or -1. */
    method Find(fd: int) returns (n: int)
      requires Shaped()
      ensures -1 <= n < numFds
      ensures n >= 0 ==> Used()[n].fd == fd
      ensures n < 0 ==> forall i :: 0 <= i < numFds ==> Used()[i].fd != fd
    {
      for i := 0 to numFds
        invariant forall k :: 0 <= k < i ==> hooks[k].fd != fd
      {
        if hooks[i].fd == fd {
          return i;
        }
      }
      n := -1;
    }

    /** looper_grow: a larger array elsewhere, every hook registered again at its new address. */
    method Grow()
      requires Valid()
      modifies this
      ensures Valid() && Used() == old(Used()) && maxFds > old(maxFds) && epoll.Keys == old(epoll.Keys)
    {
      var newMax := maxFds + maxFds / 2 + 4;
      ghost var used, before := Used(), block;
      var more := seq(newMax - maxFds, _ => LoopHook(0, {}, {}, false, false, 0));
      hooks, maxFds, block := hooks + more, newMax, block + 1;
      for n := 0 to numFds
        invariant Shaped() && Used() == used && epoll.Keys == old(epoll).Keys
        invariant forall i :: 0 <= i < numFds ==>
          HookAgrees(epoll, used[i], Pointer(if i < n then block else before, i))
        modifies `epoll
      {
        epoll := EpollMod(epoll, hooks[n].fd, Registration(hooks[n].wanted, Pointer(block, n)));
      }
    }

    /** looper_add, for a descriptor that is on no hook. */
    method Register(fd: int, user: int)
      requires Valid() && fd !in Fds(Used())
      modifies this
      ensures Valid() && Used() == old(Used()) + [LoopHook(fd, {}, {}, false, false, user)]
    {
      if numFds >= maxFds {
        Grow();
      }
      var h := LoopHook(fd, {}, {}, false, false, user);
      AgreementAdd(epoll, Used(), block, h);
      hooks := hooks[numFds := h];
      epoll := epoll[fd := Registration({}, Pointer(block, numFds))];
      assert hooks[..numFds + 1] == Used() + [h];
      numFds := numFds + 1;
    }

    /** Rewrites one hook in place. */
    method SetHook(n: nat, h: LoopHook, epoll1: EpollSet)
      requires Valid() && n < numFds && h.fd == Used()[n].fd
      requires epoll1 - {h.fd} == epoll - {h.fd} && HookAgrees(epoll1, h, Pointer(block, n))
      modifies `hooks, `epoll
      ensures Valid() && Used() == old(Used())[n := h] && epoll == epoll1
    {
      AgreementUpdate(epoll, Used(), block, n, h, epoll1);
      hooks := hooks[n := h];
      epoll := epoll1;
      assert Used() == old(Used())[n := h];
    }

    /** looper_del: the hook stays until the next sweep, the registration goes at once. */
    method Unregister(fd: int)
      requires Valid()
      modifies `hooks, `epoll
      ensures Valid() && |Used()| == |old(Used())| && fd !in epoll
      ensures forall i :: 0 <= i < numFds ==>
        Used()[i] == if old(Used())[i].fd == fd then old(Used())[i].(closing := true) else old(Used())[i]
    {
      var n := Find(fd);
      if n >= 0 {
        SetHook(n, hooks[n].(closing := true), epoll - {fd});
      }
    }

    /** looper_enable */
    method EnableEvents(fd: int, events: set<Event>)
      requires Valid()
      modifies `hooks, `epoll
      ensures Valid() && |Used()| == |old(Used())|
      ensures forall i :: 0 <= i < numFds ==>
        Used()[i] == if old(Used())[i].fd == fd then old(Used())[i].(wanted := old(Used())[i].wanted + events)
                     else old(Used())[i]
    {
      var n := Find(fd);
      if n >= 0 {
        if !(events <= hooks[n].wanted) {
          var h := hooks[n].(wanted := hooks[n].wanted + events);
          SetHook(n, h, EpollMod(epoll, fd, Registration(h.wanted, Pointer(block, n))));
        } else {
          assert hooks[n].wanted + events == hooks[n].wanted;
        }
      }
    }

    /** looper_disable */
    method DisableEvents(fd: int, events: set<Event>)
      requires Valid()
      modifies `hooks, `epoll
      ensures Valid() && |Used()| == |old(Used())|
      ensures forall i :: 0 <= i < numFds ==>
        Used()[i] == if old(Used())[i].fd == fd then old(Used())[i].(wanted := old(Used())[i].wanted - events)
                     else old(Used())[i]
    {
      var n := Find(fd);
      if n >= 0 {
        if events * hooks[n].wanted != {} {
          var h := hooks[n].(wanted := hooks[n].wanted - events);
          SetHook(n, h, EpollMod(epoll, fd, Registration(h.wanted, Pointer(block, n))));
        } else {
          assert forall e :: e in hooks[n].wanted ==> e !in events * hooks[n].wanted;
          assert hooks[n].wanted - events == hooks[n].wanted;
        }
      }
    }

    /** What a callback may do to the loop. A descriptor that is added is on no hook, live or closing. */
    method Perform(op: Op)
      requires Valid() && (op.Add? ==> op.fd !in Fds(Used()))
      modifies this
      ensures Valid() && SameCalls(old(Used()), Used()) && ClosedBy(old(Used()), Used(), [op])
      ensures Fds(Used()) == FdsWith(old(Fds(Used())), op)
      ensures op.Add? ==> Used() == old(Used()) + [LoopHook(op.fd, {}, {}, false, false, op.user)]
    {
      match op {
        case Add(fd, user) =>
          Register(fd, user);
          FdsMore(old(Used()), Used()[|old(Used())|]);
        case Del(fd) =>
          Unregister(fd);
          FdsSame(old(Used()), Used());
        case Enable(fd, events) =>
          EnableEvents(fd, events);
          FdsSame(old(Used()), Used());
        case Disable(fd, events) =>
          DisableEvents(fd, events);
          FdsSame(old(Used()), Used());
      }
    }

    method PerformAll(ops: seq<Op>)
      requires Valid() && AddsFresh(Fds(Used()), ops)
      modifies this
      ensures Valid() && SameCalls(old(Used()), Used()) && ClosedBy(old(Used()), Used(), ops)
      ensures Fds(Used()) == FdsAfter(old(Fds(Used())), ops)
    {
      ghost var fds := Fds(Used());
      for i := 0 to |ops|
        invariant Valid() && SameCalls(old(Used()), Used()) && ClosedBy(old(Used()), Used(), ops[..i])
        invariant Fds(Used()) == FdsAfter(fds, ops[..i])
      {
        ghost var mid := Used();
        NextIsFresh(fds, ops, i);
        Perform(ops[i]);
        ClosedByMore(old(Used()), mid, Used(), ops[..i], [ops[i]]);
        assert ops[..i + 1] == ops[..i] + [ops[i]];
      }
      assert ops[..|ops|] == ops;
    }

    // --- One round of looper_loop: mark, dispatch, sweep ------------------------------------

    /** Between rounds no hook is closing and none is pending. */
    ghost predicate Quiet()
      requires Shaped()
      reads this
    {
      forall i :: 0 <= i < numFds ==> !Used()[i].closing && !Used()[i].pending
    }

    /** Marks the hooks epoll_wait reported, found through the pointers registered with epoll. */
    method Mark(ready: seq<Ready>)
      requires Valid() && forall i :: 0 <= i < numFds ==> !Used()[i].closing
      requires forall k :: 0 <= k < |ready| ==> ready[k].fd in epoll
      modifies `hooks, `epoll
      ensures Valid() && epoll == old(epoll) && |Used()| == |old(Used())|
      ensures forall i :: 0 <= i < numFds ==> Used()[i] == Marked(old(Used())[i], ready)
    {
      for k := 0 to |ready|
        invariant Valid() && epoll == old(epoll) && |Used()| == |old(Used())|
        invariant forall i :: 0 <= i < numFds ==> Used()[i] == Marked(old(Used())[i], ready[..k])
      {
        var ptr := epoll[ready[k].fd].ptr;
        ghost var n :| 0 <= n < numFds && Used()[n].fd == ready[k].fd;
        MarkedKeeps(old(Used())[n], ready[..k]);
        assert ptr == Pointer(block, n);
        // state = HOOK_PENDING overwrites the whole state word
        SetHook(ptr.index, hooks[ptr.index].(pending := true, closing := false, events := ready[k].events), epoll);
        assert ready[..k + 1][..k] == ready[..k];
        forall i | 0 <= i < numFds ensures Used()[i] == Marked(old(Used())[i], ready[..k + 1]) {
          MarkedKeeps(old(Used())[i], ready[..k]);
        }
      }
      assert ready[..|ready|] == ready;
    }

    /** The turn of the hook at n; more are the calls behind it. */
    method DispatchOne(n: nat, react: int -> seq<Op>, ghost start: seq<LoopHook>, ghost more: seq<Call>) returns (call: seq<Call>)
      requires Valid() && n < numFds && Dispatching(start, Used(), n)
      requires AddsFresh(Fds(Used()), AllOps(Turn(start, n) + more, react))
      modifies this
      ensures Valid() && n < numFds && Dispatching(start, Used(), n + 1)
      ensures call == Turn(start, n) && (n >= |start| ==> Used() == old(Used()))
      ensures ClosedBy(old(Used()), Used(), AllOps(call, react))
      ensures AddsFresh(Fds(Used()), AllOps(more, react))
    {
      TurnIsFresh(Fds(Used()), Turn(start, n), more, react);
      var h := hooks[n];
      assert h == Used()[n];
      call := [];
      if h.pending {
        SetHook(n, h.(pending := false), epoll);
        FdsSame(old(Used()), Used());
        call := [Call(h.user, h.events)];
        PerformAll(react(h.user));
      }
    }

    /** Runs the callbacks of the pending hooks; react says what each one does to the loop. */
    method Dispatch(react: int -> seq<Op>) returns (calls: seq<Call>)
      requires Valid() && AddsFresh(Fds(Used()), AllOps(Owed(Used()), react))
      modifies this
      ensures Valid() && calls == Owed(old(Used()))
      ensures forall i :: 0 <= i < numFds ==> !Used()[i].pending
      ensures ClosedBy(old(Used()), Used(), AllOps(calls, react))
    {
      ghost var start := Used();
      ghost var more := Owed(start);
      var n := 0;
      calls := [];
      while n < numFds
        invariant Valid() && n <= numFds && Dispatching(start, Used(), n)
        invariant more == OwedFrom(start, n) && calls + more == Owed(start)
        invariant ClosedBy(start, Used(), AllOps(calls, react))
        invariant AddsFresh(Fds(Used()), AllOps(more, react))
        decreases if n < |start| then |start| - n else 0, numFds - n
      {
        ghost var mid := Used();
        OwedStep(start, n);
        more := OwedFrom(start, n + 1);
        var call := DispatchOne(n, react, start, more);
        AllOpsConcat(calls, call, react);
        ClosedByMore(start, mid, Used(), AllOps(calls, react), AllOps(call, react));
        Associative(calls, call, more);
        calls := calls + call;
        n := n + 1;
      }
      assert calls + [] == calls;
    }

    /** One removal of the sweep. */
    method RemoveAt(n: nat)
      requires Valid() && n < numFds && Used()[n].closing
      modifies `hooks, `epoll, `numFds
      ensures Valid() && numFds == old(numFds) - 1 && Used() == WithoutAt(old(Used()), n)
    {
      AgreementRemove(epoll, Used(), block, n);
      ghost var used := Used();
      hooks := hooks[n := hooks[numFds - 1]];
      numFds := numFds - 1;
      var h := hooks[n];
      epoll := EpollMod(epoll, h.fd, Registration(h.wanted, Pointer(block, n)));
      assert Used() == WithoutAt(used, n);
    }

    /** Removes the closing hooks, each replaced by the last one, whose new address is registered. */
    method Sweep()
      requires Valid()
      modifies `hooks, `epoll, `numFds
      ensures Valid() && SameLive(old(Used()), Used())
      ensures forall i :: 0 <= i < numFds ==> !Used()[i].closing
    {
      ghost var start := Used();
      var n := 0;
      while n < numFds
        invariant Valid() && n <= numFds && NoneClosing(Used(), n)
        invariant SameLive(start, Used())
        decreases numFds - n
      {
        if !hooks[n].closing {
          n := n + 1;
        } else {
          StillLive(start, Used(), n);
          RemoveAt(n);
        }
      }
    }

    /**
     * One round of looper_loop. Whatever the callbacks do, each descriptor reported ready gets
     * exactly one callback, its own, with its events; then the closing hooks are gone. No callback adds a
     * descriptor that is still on a hook.
     */
    method Round(ready: seq<Ready>, react: int -> seq<Op>) returns (calls: seq<Call>)
      requires Valid() && Quiet() && forall k :: 0 <= k < |ready| ==> ready[k].fd in epoll
      requires AddsFresh(Fds(Used()), AllOps(Owed(MarkedAll(Used(), ready)), react))
      modifies this
      ensures Valid() && Quiet()
      ensures calls == Owed(MarkedAll(old(Used()), ready))
      ensures Survive(old(Used()), Used(), AllOps(calls, react))
    {
      ghost var start := Used();
      Mark(ready);
      assert Used() == MarkedAll(start, ready);
      MarkedClosing(start, ready);
      FdsSame(start, Used());
      calls := Dispatch(react);
      ghost var before := Used();
      Sweep();
      Survivors(start, before, Used(), AllOps(calls, react));
      forall i | 0 <= i < numFds ensures !Used()[i].pending {
        LiveAt(Used(), i);
        LiveFrom(before, Used()[i]);
      }
    }
  }

  /** A hook whose descriptor no callback deletes is still there, for its handler; of the others none is. */
  ghost predicate Survive(was: seq<LoopHook>, now: seq<LoopHook>, ops: seq<Op>) {
    forall i :: 0 <= i < |was| ==>
      if Del(was[i].fd) in ops then !HasHook(now, was[i].fd)
      else exists n :: 0 <= n < |now| && now[n].fd == was[i].fd && now[n].user == was[i].user
  }

  lemma MarkedClosing(hooks: seq<LoopHook>, ready: seq<Ready>)
    requires forall i :: 0 <= i < |hooks| ==> !hooks[i].closing
    ensures ClosedBy(hooks, MarkedAll(hooks, ready), [])
  {
    forall i | 0 <= i < |hooks|
      ensures MarkedAll(hooks, ready)[i].fd == hooks[i].fd && MarkedAll(hooks, ready)[i].user == hooks[i].user && !MarkedAll(hooks, ready)[i].closing
    {
      MarkedKeeps(hooks[i], ready);
    }
  }

  /** The sweep of hooks that the operations closed leaves exactly the others. */
  lemma Survivors(start: seq<LoopHook>, before: seq<LoopHook>, after: seq<LoopHook>, ops: seq<Op>)
    requires ClosedBy(start, before, ops) && (forall i :: 0 <= i < |start| ==> !start[i].closing)
    requires DistinctFds(before) && SameLive(before, after) && forall n :: 0 <= n < |after| ==> !after[n].closing
    ensures Survive(start, after, ops)
  {
    forall i | 0 <= i < |start|
      ensures if Del(start[i].fd) in ops then !HasHook(after, start[i].fd)
              else exists n :: 0 <= n < |after| && after[n].fd == start[i].fd && after[n].user == start[i].user
    {
      if before[i].closing {
        NotLive(before, after, i);
      } else {
        LiveAt(before, i);
        LiveFrom(after, before[i]);
        var n :| 0 <= n < |after| && after[n] == before[i];
        assert after[n].fd == start[i].fd && after[n].user == start[i].user;
      }
    }
  }

  lemma NotLive(before: seq<LoopHook>, after: seq<LoopHook>, i: nat)
    requires DistinctFds(before) && SameLive(before, after) && (forall n :: 0 <= n < |after| ==> !after[n].closing)
    requires i < |before| && before[i].closing
    ensures !HasHook(after, before[i].fd)
  {
    forall n | 0 <= n < |after|
      ensures after[n].fd != before[i].fd
    {
      LiveAt(after, n);
      LiveFrom(before, after[n]);
    }
  }

  function MarkedAll(hooks: seq<LoopHook>, ready: seq<Ready>): seq<LoopHook> {
    seq(|hooks|, i requires 0 <= i < |hooks| => Marked(hooks[i], ready))
  }

  /** Every hook is as often among the live hooks of one as of the other. */
  ghost predicate SameLive(was: seq<LoopHook>, now: seq<LoopHook>) {
    forall h :: Live(now, h) == Live(was, h)
  }

  lemma StillLive(start: seq<LoopHook>, hooks: seq<LoopHook>, n: nat)
    requires SameLive(start, hooks) && n < |hooks| && hooks[n].closing
    ensures SameLive(start, WithoutAt(hooks, n))
  {
    forall h
      ensures Live(WithoutAt(hooks, n), h) == Live(start, h)
    {
      LiveWithout(hooks, n, h);
    }
  }

  lemma {:induction false} LiveAt(hooks: seq<LoopHook>, n: nat)
    requires n < |hooks| && !hooks[n].closing
    ensures Live(hooks, hooks[n]) > 0
  {
    if n > 0 {
      LiveAt(hooks[1..], n - 1);
    }
  }

  lemma {:induction false} LiveFrom(hooks: seq<LoopHook>, h: LoopHook)
    requires Live(hooks, h) > 0
    ensures h in hooks
  {
    if hooks[0] != h {
      LiveFrom(hooks[1..], h);
    }
  }

  /** In a round, a hook is called exactly when its descriptor was reported, with the events reported. */
  lemma {:induction false} MarkedMeans(h: LoopHook, ready: seq<Ready>)
    requires !h.pending
    ensures Marked(h, ready).pending <==> exists k :: 0 <= k < |ready| && ready[k].fd == h.fd
    ensures Marked(h, ready).pending ==> Ready(h.fd, Marked(h, ready).events) in ready
  {
    if ready != [] {
      var rest := ready[..|ready| - 1];
      MarkedMeans(h, rest);
      if ready[|ready| - 1].fd != h.fd {
        forall k | 0 <= k < |ready| && ready[k].fd == h.fd ensures rest[k].fd == h.fd {
        }
      }
    }
  }

  lemma {:induction false} OwedUsers(hooks: seq<LoopHook>, c: Call)
    requires forall i :: 0 <= i < |hooks| ==> hooks[i].user != c.user
    ensures c !in multiset(Owed(hooks))
  {
    if hooks != [] {
      OwedUsers(hooks[1..], c);
    }
  }

  /** With a handler of its own, a hook's callback is owed once if it is pending and not at all otherwise. */
  lemma {:induction false} OwedOnce(hooks: seq<LoopHook>, n: nat)
    requires n < |hooks| && forall i :: 0 <= i < |hooks| && i != n ==> hooks[i].user != hooks[n].user
    ensures multiset(Owed(hooks))[Call(hooks[n].user, hooks[n].events)] == if hooks[n].pending then 1 else 0
  {
    var c, first := Call(hooks[n].user, hooks[n].events), if hooks[0].pending then [Call(hooks[0].user, hooks[0].events)] else [];
    assert multiset(Owed(hooks)) == multiset(first) + multiset(Owed(hooks[1..]));
    if n == 0 {
      OwedUsers(hooks[1..], c);
    } else {
      OwedOnce(hooks[1..], n - 1);
    }
  }
}
