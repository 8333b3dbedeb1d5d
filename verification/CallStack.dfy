/**
 * The call-stack reconstructor of the trace tools (callstack.h) with the shadow stack its client
 * q2dm keeps through the push and pop callbacks.
 */
module CallStacks {
  import opened Words
  import opened Options

  /** A function symbol; id stands for its address in memory. */
  datatype Symbol = Symbol(id: int, addr: uint32, baseAddr: uint32, isKernel: bool, isPlt: bool, isVectorStart: bool) {
    predicate IsVectorTable() { isPlt || isVectorStart }

    /** How far into the function an address is. */
    function Offset(bbAddr: uint32): uint32 { (bbAddr - addr - baseAddr) % TWO32 }
  }

  /** What the decoded last instruction of a block says about control flow. */
  datatype LastOp = LastOp(branch: bool, branchLink: bool, branchExchange: bool, plainBranch: bool, loadsPc: bool)

  const OP_INVALID := LastOp(false, false, false, false, false)

  datatype BBEvent = BBEvent(time: uint64, bbAddr: uint32, numInsns: nat, isThumb: bool, pid: int, lastOp: LastOp) {
    /** The address just past the block. */
    function EndAddr(): uint32 {
      (bbAddr + numInsns * if isThumb then 2 else 4) % TWO32
    }
  }

  const NO_EVENT := BBEvent(0, 0, 0, false, 0, OP_INVALID)

  /** A stack frame; the three flags together are kPopBarrier. */
  datatype Frame = Frame(sym: Symbol, addr: uint32, causedException: bool, interpreted: bool, startNative: bool) {
    predicate Barrier() { causedException || interpreted || startNative }
  }

  // --- Callbacks and nesting ---------------------------------------------------------------

  datatype Callback = Push(level: nat, sym: Symbol) | Pop(level: nat, sym: Symbol)

  /** The stack a well-nested sequence of callbacks leaves; None if it is not well nested. */
  function Replay(log: seq<Callback>): Option<seq<Symbol>> {
    if log == [] then Some([])
    else
      var before, c := Replay(log[..|log| - 1]), log[|log| - 1];
      if before.None? then None
      else if c.Push? then (if c.level == |before.value| then Some(before.value + [c.sym]) else None)
      else if |before.value| > 0 && c.level == |before.value| - 1 && before.value[c.level] == c.sym
      then Some(before.value[..c.level]) else None
  }

  lemma {:induction false} ReplayMore(log: seq<Callback>, c: Callback)
    ensures Replay(log + [c]) ==
      var before := Replay(log);
      if before.None? then None
      else if c.Push? then (if c.level == |before.value| then Some(before.value + [c.sym]) else None)
      else if |before.value| > 0 && c.level == |before.value| - 1 && before.value[c.level] == c.sym
      then Some(before.value[..c.level]) else None
  {
    assert (log + [c])[..|log|] == log;
  }

  // --- The search of doPop -------------------------------------------------------------------

  /** From the top down: a frame returning to bbAddr, or one above the first barrier, or -1. */
  function AddrLevel(fs: seq<Frame>, top: nat, bbAddr: uint32): (level: int)
    requires top <= |fs|
    ensures -1 <= level <= top
  {
    if top == 0 then -1
    else if fs[top - 1].addr == bbAddr then top - 1
    else if fs[top - 1].Barrier() then top
    else AddrLevel(fs, top - 1, bbAddr)
  }

  /** From the top down: one above a frame of the function, or one above the first barrier, or -1. */
  function FuncLevel(fs: seq<Frame>, top: nat, callee: Symbol): (level: int)
    requires top <= |fs|
    ensures -1 <= level <= top
  {
    if top == 0 then -1
    else if fs[top - 1].sym == callee || fs[top - 1].Barrier() then top
    else FuncLevel(fs, top - 1, callee)
  }

  /** The level down to which one pass of doPop pops. fs reaches one frame past the top of the stack. */
  function PopLevel(fs: seq<Frame>, top: nat, bbAddr: uint32, callee: Symbol): (level: nat)
    requires top < |fs|
  {
    var l1, l2 := AddrLevel(fs, top, bbAddr), FuncLevel(fs, top, callee);
    var level := if l1 >= 0 && fs[l1].addr == bbAddr then l1 else if l2 < 0 then 0 else l2;
    if level == 0 && fs[0].sym == callee then 1 else level
  }

  /** The index of the topmost frame with a barrier flag, or -1. */
  function TopBarrier(fs: seq<Frame>, top: nat): (b: int)
    requires top <= |fs|
    ensures -1 <= b < top
    ensures b >= 0 ==> fs[b].Barrier()
    ensures forall i :: b < i < top ==> !fs[i].Barrier()
  {
    if top == 0 then -1 else if fs[top - 1].Barrier() then top - 1 else TopBarrier(fs, top - 1)
  }

  lemma {:induction false} LevelsStopAtBarrier(fs: seq<Frame>, top: nat, bbAddr: uint32, callee: Symbol)
    requires top <= |fs|
    ensures var b := TopBarrier(fs, top);
            AddrLevel(fs, top, bbAddr) >= b &&
            (b >= 0 && AddrLevel(fs, top, bbAddr) == b ==> fs[b].addr == bbAddr) &&
            (b >= 0 ==> FuncLevel(fs, top, callee) > b)
  {
    if top > 0 {
      LevelsStopAtBarrier(fs, top - 1, bbAddr, callee);
    }
  }

  /**
   * A pass of doPop pops no frame below the topmost barrier, and pops the barrier frame itself only
   * if that frame returns to the address being executed.
   */
  lemma {:induction false} PopRespectsBarrier(fs: seq<Frame>, top: nat, bbAddr: uint32, callee: Symbol)
    requires top < |fs|
    ensures var b, level := TopBarrier(fs, top), PopLevel(fs, top, bbAddr, callee);
            b >= 0 ==> level > b || (level == b && fs[b].addr == bbAddr)
  {
    LevelsStopAtBarrier(fs, top, bbAddr, callee);
  }

  // --- Where pushes and method exits pop to ------------------------------------------------------

  /** A vector-table frame on top makes way for the function it leads to. */
  function VectorBase(fs: seq<Frame>, top: nat): (level: nat)
    requires top <= |fs|
    ensures level <= top
  {
    if top > 0 && fs[top - 1].sym.IsVectorTable() then top - 1 else top
  }

  /** Leaving the kernel pops at least one frame, down to the frame that caused the exception. */
  function KernelBase(fs: seq<Frame>, top: nat): (level: nat)
    requires 0 < top <= |fs|
    ensures level < top
    ensures level > 0 ==> fs[level - 1].causedException
    ensures forall i :: level <= i < top - 1 ==> !fs[i].causedException
  {
    if top == 1 || fs[top - 2].causedException then top - 1 else KernelBase(fs, top - 1)
  }

  /** What doPush finds before the new frame goes on: the level, the return address, and the frames. */
  datatype Room = Room(top: nat, retAddr: uint32, frames: seq<Frame>)

  function RoomFor(fs: seq<Frame>, top: nat, leavesKernel: bool, plainAddr: uint32): (r: Room)
    requires top < |fs|
    ensures r.top <= top && |r.frames| == |fs|
  {
    var vector := VectorBase(fs, top);
    var addr := if vector < top then fs[vector].addr else plainAddr;
    if leavesKernel && vector > 0 then
      var level := KernelBase(fs, vector);
      if level > 0 then Room(level, fs[level].addr, Marked(fs, level - 1, false)) else Room(0, addr, fs)
    else Room(vector, addr, fs)
  }

  /** The exception mark of one frame set or cleared. */
  function Marked(fs: seq<Frame>, i: nat, caused: bool): (r: seq<Frame>)
    requires i < |fs|
    ensures |r| == |fs|
  {
    fs[i := fs[i].(causedException := caused)]
  }

  /** The frames up to top, and what lies behind them. */
  datatype Stack = Stack(top: nat, frames: seq<Frame>)

  /** doPush on a stack that is not full. */
  function PushEffect(st: Stack, sym: Symbol, leavesKernel: bool, plainAddr: uint32, interpreted: bool): (r: Stack)
    requires st.top < |st.frames|
    ensures 0 < r.top <= st.top + 1 && |r.frames| == |st.frames|
  {
    var room := RoomFor(st.frames, st.top, leavesKernel, plainAddr);
    var below := if sym.isVectorStart && room.top > 0 then Marked(room.frames, room.top - 1, true) else room.frames;
    Stack(room.top + 1, below[room.top := Frame(sym, room.retAddr, false, interpreted, false)])
  }

  /** One pass of doPop. */
  function PopEffect(st: Stack, bbAddr: uint32, sym: Symbol): (r: Stack)
    requires st.top < |st.frames|
    ensures r.top <= st.top && |r.frames| == |st.frames|
  {
    var level := PopLevel(st.frames, st.top, bbAddr, sym);
    var top := if level < st.top then level else st.top;
    Stack(top, if top > 0 then Marked(st.frames, top - 1, false) else st.frames)
  }

  /** Nothing below the topmost barrier is gone, and the barrier frame only if it returns to the address. */
  predicate AtBarrier(before: Stack, bbAddr: uint32, after: Stack)
    requires before.top < |before.frames|
  {
    var b := TopBarrier(before.frames, before.top);
    b >= 0 ==> after.top > b || (after.top == b && before.frames[b].addr == bbAddr)
  }

  lemma PassRespectsBarrier(st: Stack, bbAddr: uint32, sym: Symbol)
    requires st.top < |st.frames|
    ensures AtBarrier(st, bbAddr, PopEffect(st, bbAddr, sym))
  {
    PopRespectsBarrier(st.frames, st.top, bbAddr, sym);
  }

  /** A second pass is made when the kernel is left and the saved user code looks as if it returned. */
  predicate PopsTwice(prevSym: Symbol, userEvent: BBEvent, userSym: Symbol, event: BBEvent, sym: Symbol) {
    prevSym.isKernel && !sym.isKernel && ActionOf(userEvent, userSym, event, sym) == PopAction
  }

  predicate MethodFrame(f: Frame, addr: uint32, native: bool) {
    if native then f.startNative else f.interpreted && (f.sym.baseAddr + f.sym.addr) % TWO32 == addr
  }

  /** The topmost frame of the method that exits, or -1. */
  function MethodLevel(fs: seq<Frame>, top: nat, addr: uint32, native: bool): (level: int)
    requires top <= |fs|
    ensures -1 <= level < top
    ensures level >= 0 ==> MethodFrame(fs[level], addr, native)
    ensures forall i :: level < i < top ==> !MethodFrame(fs[i], addr, native)
  {
    if top == 0 then -1
    else if MethodFrame(fs[top - 1], addr, native) then top - 1
    else MethodLevel(fs, top - 1, addr, native)
  }

  // --- The shadow stack of q2dm ------------------------------------------------------------------

  class FunctionStack {
    const capacity: nat
    ghost const owner: int       // the id it is found by
    var top: nat
    var frames: seq<Symbol>

    ghost predicate Valid()
      reads this
    {
      top <= capacity == |frames|
    }

    ghost function Contents(): seq<Symbol>
      requires Valid()
      reads this
    {
      frames[..top]
    }

    constructor (capacity: nat, filler: Symbol, ghost owner: int)
      ensures Valid() && Contents() == [] && this.capacity == capacity && this.owner == owner
    {
      this.capacity, this.owner := capacity, owner;
      top, frames := 0, seq(capacity, _ => filler);
    }

    method PushSymbol(sym: Symbol)
      requires Valid()
      modifies this
      ensures Valid()
      ensures Contents() == if |old(Contents())| < capacity then old(Contents()) + [sym] else old(Contents())
    {
      if top >= capacity {
        return;
      }
      frames := frames[top := sym];
      top := top + 1;
    }

    method PopSymbol() returns (sym: Option<Symbol>)
      requires Valid()
      modifies this
      ensures Valid()
      ensures if old(Contents()) == [] then sym == None && Contents() == []
              else sym == Some(old(Contents())[|old(Contents())| - 1]) &&
                   Contents() == old(Contents())[..|old(Contents())| - 1]
    {
      if top <= 0 {
        return None;
      }
      top := top - 1;
      sym := Some(frames[top]);
    }
  }

  // --- The method trace, shared by all stacks -------------------------------------------------------

  datatype MethodFlag = MethodEnter | NativeEnter | MethodExit | MethodException | NativeExit | NativeException

  datatype MethodRec = MethodRec(time: uint64, addr: uint32, pid: int, flags: MethodFlag) {
    predicate Enters() { flags.MethodEnter? || flags.NativeEnter? }
    predicate Native() { flags.NativeEnter? || flags.NativeExit? || flags.NativeException? }
  }

  const NO_METHOD := MethodRec(NEVER, 0, 0, MethodEnter)

  function RecordAt(records: seq<MethodRec>, i: nat): MethodRec {
    if i < |records| then records[i] else NO_METHOD
  }

  /** to is the first position from from on whose record is later than time. */
  ghost predicate CaughtUp(records: seq<MethodRec>, from: nat, to: nat, time: uint64) {
    from <= to && time < RecordAt(records, to).time &&
    forall i :: from <= i < to ==> RecordAt(records, i).time <= time
  }

  class MethodTrace {
    const records: seq<MethodRec>
    var at: nat
    var current: MethodRec
    var next: MethodRec
    ghost var pos: nat        // next is the record at pos, current the one before it

    ghost predicate Valid()
      reads this
    {
      pos > 0 && current == RecordAt(records, pos - 1) && next == RecordAt(records, pos) &&
      at == (if pos < |records| then pos + 1 else |records|) &&
      forall r <- records :: r.time < NEVER
    }

    /** Reads the two records the constructor of the first CallStack reads. */
    constructor (records: seq<MethodRec>)
      requires forall r <- records :: r.time < NEVER
      ensures Valid() && this.records == records && pos == 1
    {
      this.records := records;
      current := if |records| > 0 then records[0] else NO_METHOD;
      next := if |records| > 1 then records[1] else NO_METHOD;
      at := if |records| < 2 then |records| else 2;
      pos := 1;
    }

    method ReadNext()
      requires at <= |records|
      modifies `at, `next
      ensures next == RecordAt(records, old(at)) && at == if old(at) < |records| then old(at) + 1 else |records|
    {
      if at < |records| {
        next := records[at];
        at := at + 1;
      } else {
        next := NO_METHOD;
      }
    }

    /** Skips records until the next one is later than time. */
    method CatchUp(time: uint64)
      requires Valid() && time < NEVER
      modifies this
      ensures Valid() && CaughtUp(records, old(pos), pos, time)
    {
      while time >= next.time
        invariant Valid() && old(pos) <= pos
        invariant forall i :: old(pos) <= i < pos ==> RecordAt(records, i).time <= time
        decreases |records| - pos
      {
        current := next;
        ReadNext();
        pos := pos + 1;
      }
    }

    method Consume()
      requires Valid()
      modifies this
      ensures Valid() && pos == old(pos) + 1
    {
      current := next;
      if next.time != NEVER {
        ReadNext();
      }
      pos := pos + 1;
    }
  }

  /** The mutable vm_sym field of symbols: for the symbol of a method, that of the interpreter which runs it. */
  class VmLinks {
    var vm: map<Symbol, Symbol>

    constructor ()
      ensures vm == map[]
    {
      vm := map[];
    }
  }

  /** What a record of the method trace does: entries push a frame, exits pop through the method's frame. */
  ghost predicate MethodEffect(applied: Option<MethodRec>, sym: Symbol, fs: seq<Frame>, top: nat, fs1: seq<Frame>, top1: nat)
    requires top < |fs|
  {
    if applied.None? then fs1 == fs && top1 == top
    else
      var rec := applied.value;
      if rec.Enters() then top1 == top + 1 && fs1 == fs[top := Frame(sym, 0, false, !rec.Native(), rec.Native())]
      else
        var level := MethodLevel(fs, top, rec.addr, rec.Native());
        fs1 == fs && top1 == if level >= 0 then level else top
  }

  // --- The stack itself --------------------------------------------------------------------------

  datatype Action = NoAction | PushAction | PopAction

  /** The symbol a fresh stack takes for "the previous function". */
  const DUMMY := Symbol(0, 0, 0, false, false, false)

  const BLANK_FRAME := Frame(DUMMY, 0, false, false, false)

  function Syms(fs: seq<Frame>, top: nat): (s: seq<Symbol>)
    requires top <= |fs|
    ensures |s| == top
  {
    seq(top, i requires 0 <= i < top => fs[i].sym)
  }

  lemma SymsPush(fs: seq<Frame>, top: nat, f: Frame)
    requires top < |fs|
    ensures Syms(fs[top := f], top + 1) == Syms(fs, top) + [f.sym]
  {}

  lemma SymsPop(fs: seq<Frame>, top: nat)
    requires 0 < top <= |fs|
    ensures Syms(fs, top - 1) == Syms(fs, top)[..top - 1] && Syms(fs, top)[top - 1] == fs[top - 1].sym
  {}

  /** What the last instruction of a block says. */
  function LastInsn(e: BBEvent): LastOp {
    if e.numInsns > 0 then e.lastOp else OP_INVALID
  }

  /** Whether a block continues the one before it, calls or returns. */
  function ActionOf(prev: BBEvent, prevSym: Symbol, event: BBEvent, sym: Symbol): Action {
    var offset, op := sym.Offset(event.bbAddr), LastInsn(prev);
    if prev.EndAddr() == event.bbAddr then NoAction
    else if sym == prevSym then
      if prev.numInsns > 0 && offset == 0 && !op.plainBranch then PushAction
      else if prev.numInsns > 0 && offset != 0 && op.loadsPc then PopAction
      else NoAction
    else if prevSym.isKernel && !sym.isKernel then PopAction
    else if offset == 0 || prevSym == DUMMY || sym.IsVectorTable() then PushAction
    else if !op.branch || op.branchExchange then PopAction
    else if !op.branchLink then NoAction
    else PushAction
  }

  /** A block of native user code after another: what it does to the stack. */
  function PlainStep(st: Stack, prev: BBEvent, prevSym: Symbol, event: BBEvent, sym: Symbol): (r: Stack)
    requires st.top < |st.frames|
    ensures 0 < r.top <= st.top + 1 && |r.frames| == |st.frames|
  {
    var r := match ActionOf(prev, prevSym, event, sym)
      case PushAction => PushEffect(st, sym, false, prev.EndAddr(), false)
      case PopAction => PopEffect(st, event.bbAddr, sym)
      case NoAction => st;
    if r.top == 0 then Stack(1, r.frames[0 := Frame(sym, 0, false, false, false)]) else r
  }

  class CallStack {
    const numFrames: nat
    const shadow: FunctionStack
    const methods: MethodTrace
    const links: VmLinks

    /** mFrames; the last element stands for the memory behind the array, which doPop may look at. */
    var frames: seq<Frame>
    var top: nat

    var nativeOnly: bool
    var allowNativeFrames: bool
    var prevSym: Symbol
    var prevEvent: BBEvent
    var userSym: Symbol
    var userEvent: BBEvent
    var mismatch: bool               // q2dm has exited with "function mismatch"

    ghost var log: seq<Callback>     // every push and pop callback so far

    /** The callbacks made so far are well nested, and both stacks are what they leave. */
    ghost predicate Valid()
      reads this, shadow
    {
      |frames| == numFrames + 1 && top <= numFrames && !userSym.isKernel && !mismatch &&
      shadow.Valid() && shadow.capacity == numFrames && shadow.Contents() == Syms(frames, top) &&
      Replay(log) == Some(Syms(frames, top))
    }

    constructor (numFrames: nat, shadow: FunctionStack, methods: MethodTrace, links: VmLinks)
      requires shadow.Valid() && shadow.capacity == numFrames && shadow.Contents() == []
      ensures Valid() && top == 0 && log == [] && this.shadow == shadow
      ensures this.numFrames == numFrames && this.methods == methods && this.links == links
    {
      this.numFrames, this.shadow, this.methods, this.links := numFrames, shadow, methods, links;
      frames, top := seq(numFrames + 1, _ => BLANK_FRAME), 0;
      nativeOnly, allowNativeFrames, mismatch := false, true, false;
      prevSym, prevEvent, userSym, userEvent := DUMMY, NO_EVENT, DUMMY, NO_EVENT;
      log := [];
    }

    /** doSimplePush, with the push callback; false is the exit on stack overflow. */
    method SimplePush(sym: Symbol, addr: uint32, interpreted: bool, startNative: bool) returns (ok: bool)
      requires Valid()
      modifies `frames, `top, `log, shadow
      ensures Valid() && (ok <==> old(top) < numFrames)
      ensures ok ==> top == old(top) + 1 && log == old(log) + [Push(old(top), sym)]
      ensures ok ==> frames == old(frames)[old(top) := Frame(sym, addr, false, interpreted, startNative)]
      ensures !ok ==> top == old(top) && frames == old(frames) && log == old(log)
    {
      if top >= numFrames {
        return false;
      }
      var f := Frame(sym, addr, false, interpreted, startNative);
      SymsPush(frames, top, f);
      ReplayMore(log, Push(top, sym));
      frames := frames[top := f];
      shadow.PushSymbol(sym);
      log := log + [Push(top, sym)];
      top := top + 1;
      ok := true;
    }

    /** doSimplePop, with the pop callback. */
    method SimplePop()
      requires Valid()
      modifies `top, `log, `mismatch, `allowNativeFrames, shadow
      ensures Valid() && top == (if old(top) > 0 then old(top) - 1 else 0)
      ensures log == if old(top) > 0 then old(log) + [Pop(top, frames[top].sym)] else old(log)
      ensures nativeOnly ==> allowNativeFrames == old(allowNativeFrames)
    {
      if top <= 0 {
        return;
      }
      SymsPop(frames, top);
      ReplayMore(log, Pop(top - 1, frames[top - 1].sym));
      top := top - 1;
      var sym := shadow.PopSymbol();
      mismatch := mismatch || (sym.Some? && sym.value != frames[top].sym);
      log := log + [Pop(top, frames[top].sym)];
      if nativeOnly {
        return;
      }
      if top == 0 {
        allowNativeFrames := true;
      } else if frames[top].interpreted && !frames[top - 1].interpreted {
        allowNativeFrames := true;
      } else if !frames[top].interpreted && frames[top - 1].interpreted {
        allowNativeFrames := false;
      }
    }

    /** Pops the frames from the top down to the given level. */
    method PopDownTo(level: nat)
      requires Valid()
      modifies `top, `log, `mismatch, `allowNativeFrames, shadow
      ensures Valid() && top == if level < old(top) then level else old(top)
      ensures nativeOnly ==> allowNativeFrames == old(allowNativeFrames)
    {
      while top > level
        invariant Valid() && top == if level < top then top else if level < old(top) then level else old(top)
        invariant top <= old(top) && (nativeOnly ==> allowNativeFrames == old(allowNativeFrames))
      {
        SimplePop();
      }
    }

    /** popAll */
    method PopAll()
      requires Valid()
      modifies `top, `log, `mismatch, `allowNativeFrames, shadow
      ensures Valid() && top == 0 && Replay(log) == Some([])
    {
      while top != 0
        invariant Valid()
      {
        SimplePop();
      }
    }

    ghost function Now(): Stack
      reads this
    {
      Stack(top, frames)
    }

    /** getAction: whether a basic block continues, calls or returns; on entering the kernel it saves the user's side. */
    method GetAction(event: BBEvent, sym: Symbol) returns (action: Action)
      requires Valid()
      modifies `userSym, `userEvent
      ensures Valid() && action == ActionOf(prevEvent, prevSym, event, sym)
      ensures if prevEvent.EndAddr() != event.bbAddr && !prevSym.isKernel && sym.isKernel
              then userSym == prevSym && userEvent == prevEvent
              else userSym == old(userSym) && userEvent == old(userEvent)
    {
      var offset := (event.bbAddr - sym.addr - sym.baseAddr) % TWO32;
      var op := if prevEvent.numInsns > 0 then prevEvent.lastOp else OP_INVALID;
      if prevEvent.EndAddr() == event.bbAddr {
        return NoAction;
      }
      if sym == prevSym {
        if prevEvent.numInsns > 0 {
          if offset == 0 && !op.plainBranch {
            return PushAction;
          }
          if offset != 0 && op.loadsPc {
            return PopAction;
          }
        }
        return NoAction;
      }
      if !prevSym.isKernel && sym.isKernel {
        userEvent, userSym := prevEvent, prevSym;
      } else if prevSym.isKernel && !sym.isKernel {
        return PopAction;
      }
      action := PushAction;
      if offset != 0 && prevSym != DUMMY {
        if !op.branch || op.branchExchange {
          action := PopAction;
        } else if op.branch && !op.branchLink {
          action := NoAction;
        }
        if sym.IsVectorTable() {
          action := PushAction;
        }
      }
    }

    /** Clears or sets kCausedException on the top frame. */
    method MarkTop(caused: bool)
      requires Valid() && top > 0
      modifies `frames
      ensures Valid() && frames == Marked(old(frames), top - 1, caused)
    {
      frames := frames[top - 1 := frames[top - 1].(causedException := caused)];
      assert Syms(frames, top) == Syms(old(frames), top);
    }

    /** Pops at least one frame, down to one that caused an exception. */
    method PopToException()
      requires Valid() && top > 0
      modifies `top, `log, `mismatch, `allowNativeFrames, shadow
      ensures Valid() && top == KernelBase(frames, old(top)) && (nativeOnly ==> allowNativeFrames == old(allowNativeFrames))
    {
      SimplePop();
      while top > 0 && !frames[top - 1].causedException
        invariant Valid() && top < old(top) && KernelBase(frames, old(top)) == KernelBase(frames, top + 1)
        invariant nativeOnly ==> allowNativeFrames == old(allowNativeFrames)
      {
        SimplePop();
      }
    }

    /** The part of doPush for a block reached from the kernel: the return address is that of the last frame popped. */
    method PopKernelFrames(retAddr: uint32) returns (addr: uint32)
      requires Valid() && top > 0
      modifies `frames, `top, `log, `mismatch, `allowNativeFrames, shadow
      ensures Valid() && top == KernelBase(old(frames), old(top)) && (nativeOnly ==> allowNativeFrames == old(allowNativeFrames))
      ensures addr == if top > 0 then old(frames)[top].addr else retAddr
      ensures frames == if top > 0 then Marked(old(frames), top - 1, false) else old(frames)
    {
      addr := retAddr;
      PopToException();
      if top > 0 {
        MarkTop(false);
        addr := frames[top].addr;
      }
    }

    /** The fix-ups of doPush before the new frame: the return address and the frames they pop. */
    method MakeRoom(sym: Symbol) returns (retAddr: uint32)
      requires Valid()
      modifies `frames, `top, `log, `mismatch, `allowNativeFrames, shadow
      ensures Valid() && (nativeOnly ==> allowNativeFrames == old(allowNativeFrames))
      ensures Room(top, retAddr, frames) ==
              RoomFor(old(frames), old(top), prevSym.isKernel && !sym.isKernel, if sym in links.vm then 0 else prevEvent.EndAddr())
    {
      retAddr := if sym in links.vm then 0 else prevEvent.EndAddr();
      if top > 0 && frames[top - 1].sym.IsVectorTable() {
        retAddr := frames[top - 1].addr;
        SimplePop();
      }
      if prevSym.isKernel && !sym.isKernel && top > 0 {
        retAddr := PopKernelFrames(retAddr);
      }
    }

    /** doPush: the callee's frame goes on, after the fix-ups for vector tables and kernel exits. */
    method DoPush(event: BBEvent, sym: Symbol) returns (ok: bool)
      requires Valid()
      modifies `frames, `top, `log, `mismatch, `allowNativeFrames, shadow
      ensures Valid() && (!ok <==> old(top) == numFrames) && (!ok ==> Now() == old(Now()))
      ensures ok ==> Now() == PushEffect(old(Now()), sym, prevSym.isKernel && !sym.isKernel,
                                         if sym in links.vm then 0 else prevEvent.EndAddr(), sym in links.vm)
      ensures nativeOnly ==> allowNativeFrames == old(allowNativeFrames)
    {
      if top >= numFrames {
        return false;
      }
      var retAddr := MakeRoom(sym);
      if sym.isVectorStart && top > 0 {
        MarkTop(true);
      }
      ok := SimplePush(sym, retAddr, sym in links.vm, false);
    }

    /** The first search of doPop. */
    method FindAddrLevel(bbAddr: uint32) returns (level: int)
      requires Valid()
      ensures level == AddrLevel(frames, top, bbAddr)
    {
      level := top - 1;
      while level >= 0
        invariant -1 <= level < top && AddrLevel(frames, top, bbAddr) == AddrLevel(frames, level + 1, bbAddr)
      {
        if bbAddr == frames[level].addr {
          return;
        }
        if frames[level].Barrier() {
          return level + 1;
        }
        level := level - 1;
      }
    }

    /** The second search of doPop. */
    method FindFuncLevel(sym: Symbol) returns (level: int)
      requires Valid()
      ensures level == FuncLevel(frames, top, sym)
    {
      level := top - 1;
      while level >= 0
        invariant -1 <= level < top && FuncLevel(frames, top, sym) == FuncLevel(frames, level + 1, sym)
      {
        if sym == frames[level].sym || frames[level].Barrier() {
          return level + 1;
        }
        level := level - 1;
      }
    }

    /** One pass of doPop, up to the clearing of the exception mark. */
    method PopPass(bbAddr: uint32, sym: Symbol)
      requires Valid()
      modifies `frames, `top, `log, `mismatch, `allowNativeFrames, shadow
      ensures Valid()
      ensures Now() == PopEffect(old(Now()), bbAddr, sym) && (nativeOnly ==> allowNativeFrames == old(allowNativeFrames))
      ensures AtBarrier(old(Now()), bbAddr, Now())
    {
      PassRespectsBarrier(Now(), bbAddr, sym);
      var level := FindPopLevel(bbAddr, sym);
      PopDownTo(level);
      if top > 0 {
        MarkTop(false);
      }
    }

    /** The two searches of doPop, and the function that stays on an emptied stack. */
    method FindPopLevel(bbAddr: uint32, sym: Symbol) returns (level: int)
      requires Valid()
      ensures level == PopLevel(frames, top, bbAddr, sym)
    {
      level := FindAddrLevel(bbAddr);
      if level < 0 || bbAddr != frames[level].addr {
        level := FindFuncLevel(sym);
        if level < 0 {
          level := 0;
        }
      }
      if level == 0 && frames[0].sym == sym {
        level := 1;
      }
    }

    /**
     * doPop: a second pass is made when the kernel is left by what looks like a return in user code.
     * It is never a third, because the saved user function is not a kernel function.
     */
    method DoPop(event: BBEvent, sym: Symbol) returns (passes: nat)
      requires Valid()
      modifies `frames, `top, `log, `mismatch, `allowNativeFrames, `prevSym, `prevEvent, `userSym, `userEvent, shadow
      ensures Valid() && top <= old(top)
      ensures passes == if PopsTwice(old(prevSym), old(userEvent), old(userSym), event, sym) then 2 else 1
      ensures var one := PopEffect(old(Now()), event.bbAddr, sym);
              AtBarrier(old(Now()), event.bbAddr, one) &&
              if passes == 1 then Now() == one
              else Now() == PopEffect(one, event.bbAddr, sym) && AtBarrier(one, event.bbAddr, Now())
      ensures nativeOnly ==> allowNativeFrames == old(allowNativeFrames)
      decreases if prevSym.isKernel && !sym.isKernel then 1 else 0
    {
      PopPass(event.bbAddr, sym);
      passes := 1;
      if prevSym.isKernel && !sym.isKernel {
        prevEvent, prevSym := userEvent, userSym;
        var action := GetAction(event, sym);
        if action == PopAction {
          var more := DoPop(event, sym);
          passes := passes + more;
        }
      }
    }

    /** doMethodPop: down through the frame of the method that exits, if it is on the stack. */
    method MethodPop(addr: uint32, native: bool)
      requires Valid()
      modifies `top, `log, `mismatch, `allowNativeFrames, shadow
      ensures Valid()
      ensures var level := MethodLevel(frames, old(top), addr, native); top == if level >= 0 then level else old(top)
    {
      var level: int := top - 1;
      while level >= 0
        invariant -1 <= level < top
        invariant MethodLevel(frames, top, addr, native) == MethodLevel(frames, level + 1, addr, native)
      {
        if native {
          if frames[level].startNative {
            break;
          }
        } else if frames[level].interpreted &&
                  (frames[level].sym.baseAddr + frames[level].sym.addr) % TWO32 == addr {
          break;
        }
        level := level - 1;
      }
      if level >= 0 {
        PopDownTo(level);
      }
    }

    /** A method of the trace is entered; false is the exit on stack overflow. */
    method EnterMethod(sym: Symbol, native: bool) returns (ok: bool)
      requires Valid()
      modifies `frames, `top, `log, `mismatch, `allowNativeFrames, shadow
      ensures Valid() && (!ok <==> old(top) == numFrames) && (!ok ==> top == old(top))
      ensures ok ==> top == old(top) + 1 && frames == old(frames)[old(top) := Frame(sym, 0, false, !native, native)]
      ensures ok ==> allowNativeFrames == native
    {
      ok := SimplePush(sym, 0, !native, native);
      if ok {
        allowNativeFrames := native;
      }
    }

    /** Applies a record of the method trace; false is the exit on stack overflow. */
    method ApplyMethod(rec: MethodRec, sym: Symbol) returns (ok: bool)
      requires Valid()
      modifies `frames, `top, `log, `mismatch, `allowNativeFrames, shadow
      ensures Valid() && (!ok <==> rec.Enters() && old(top) == numFrames) && (!ok ==> top == old(top))
      ensures ok ==> MethodEffect(Some(rec), sym, old(frames), old(top), frames, top)
      ensures ok && rec.Enters() ==> allowNativeFrames == rec.Native()
    {
      ok := true;
      if rec.Enters() {
        ok := EnterMethod(sym, rec.Native());
      } else {
        MethodPop(rec.addr, rec.Native());
      }
    }

    /** doMethodAction: catches up with the method trace, then applies and consumes its current record if it is due. */
    method MethodAction(event: BBEvent, sym: Symbol) returns (ok: bool, applied: Option<MethodRec>)
      requires Valid() && methods.Valid() && event.time < NEVER
      modifies `frames, `top, `log, `mismatch, `allowNativeFrames, shadow, methods
      ensures Valid() && methods.Valid() && (!ok ==> top == old(top))
      ensures !ok <==> applied.Some? && applied.value.Enters() && old(top) == numFrames
      ensures ok ==> MethodEffect(applied, sym, old(frames), old(top), frames, top)
      ensures var p := methods.pos - if applied.Some? then 1 else 0;
              old(methods.pos) <= p && CaughtUp(methods.records, old(methods.pos), p, event.time) &&
              var rec := RecordAt(methods.records, p - 1);
              applied == if event.time >= rec.time && event.pid == rec.pid then Some(rec) else None
    {
      ok, applied := true, None;
      methods.CatchUp(event.time);
      if event.time >= methods.current.time && event.pid == methods.current.pid {
        applied := Some(methods.current);
        ok := ApplyMethod(methods.current, sym);
        methods.Consume();
      }
    }

    /** Pushes, pops or does nothing; then the function goes on an empty stack. */
    method Perform(action: Action, event: BBEvent, sym: Symbol) returns (ok: bool)
      requires Valid()
      modifies `frames, `top, `log, `mismatch, `allowNativeFrames, `prevSym, `prevEvent, `userSym, `userEvent, shadow
      ensures Valid() && (ok ==> top > 0) && (!ok ==> top == numFrames)
      ensures !ok <==> (action == PushAction && old(top) == numFrames) || numFrames == 0
      ensures action == NoAction && old(top) > 0 ==> ok && top == old(top) && frames == old(frames) && log == old(log)
      ensures ok && action == PushAction ==> frames[top - 1].sym == sym
      ensures ok && action == PopAction ==> old(top) == 0 || top <= old(top)
      ensures ok && !old(prevSym).isKernel && !sym.isKernel && sym !in links.vm &&
              action == ActionOf(old(prevEvent), old(prevSym), event, sym)
              ==> Now() == PlainStep(old(Now()), old(prevEvent), old(prevSym), event, sym)
      ensures nativeOnly ==> allowNativeFrames == old(allowNativeFrames)
    {
      ok := true;
      if action == PushAction {
        ok := DoPush(event, sym);
      } else if action == PopAction {
        var passes := DoPop(event, sym);
      }
      if ok && top == 0 {
        ok := SimplePush(sym, 0, false, false);
      }
    }

    /** The function updateStack works with, after the method trace has been followed. */
    method Follow(event: BBEvent, sym0: Symbol) returns (ok: bool, sym: Symbol)
      requires Valid() && methods.Valid() && event.time < NEVER
      modifies `frames, `top, `log, `mismatch, `allowNativeFrames, shadow, methods
      ensures Valid() && methods.Valid() && (!ok ==> top == numFrames)
      ensures sym == if nativeOnly && sym0 in links.vm then links.vm[sym0] else sym0
      ensures nativeOnly ==> ok && Now() == old(Now()) && allowNativeFrames == old(allowNativeFrames)
    {
      ok, sym := true, sym0;
      if nativeOnly {
        if sym in links.vm {
          sym := links.vm[sym];
        }
      } else {
        var applied: Option<MethodRec>;
        ok, applied := MethodAction(event, sym);
      }
    }

    /** Native user code follows native user code. */
    ghost predicate Plain(sym: Symbol)
      reads this, links
    {
      nativeOnly && allowNativeFrames && !prevSym.isKernel && !sym.isKernel && sym !in links.vm
    }

    /** What a block's action is once native frames that are not wanted are ruled out. */
    ghost function Wanted(event: BBEvent, sym: Symbol): Action
      reads this
    {
      if allowNativeFrames || sym.isKernel then ActionOf(prevEvent, prevSym, event, sym) else NoAction
    }

    /** The same when only native code is followed: a method stands for its interpreter. */
    ghost function ActionFor(event: BBEvent, sym: Symbol): Action
      reads this, links
    {
      Wanted(event, if sym in links.vm then links.vm[sym] else sym)
    }

    /** updateStack: one executed basic block; false is the exit on stack overflow. */
    method UpdateStack(event: BBEvent, sym0: Symbol) returns (ok: bool)
      requires Valid() && methods.Valid() && event.time < NEVER
      modifies this, shadow, methods, links
      ensures Valid() && methods.Valid()
      ensures (ok ==> top > 0 && prevEvent == event) && (!ok ==> top == numFrames)
      ensures old(nativeOnly) ==> (!ok <==> (old(ActionFor(event, sym0)) == PushAction && old(top) == numFrames) || numFrames == 0)
      ensures old(Plain(sym0)) && ok ==>
                Now() == PlainStep(old(Now()), old(prevEvent), old(prevSym), event, sym0) && prevSym == sym0 && Plain(sym0)
      ensures old(Plain(sym0)) ==> links.vm == old(links.vm)
    {
      var sym;
      ok, sym := Follow(event, sym0);
      if !ok {
        return;
      }
      var action := Decide(event, sym);
      sym := Interpreter(sym);
      ok := Conclude(action, event, sym);
    }

    /** Performs the action and remembers the block. */
    method Conclude(action: Action, event: BBEvent, sym: Symbol) returns (ok: bool)
      requires Valid()
      modifies `frames, `top, `log, `mismatch, `allowNativeFrames, `prevSym, `prevEvent, `userSym, `userEvent, shadow
      ensures Valid() && (ok ==> top > 0 && prevEvent == event && prevSym == sym) && (!ok ==> top == numFrames)
      ensures !ok <==> (action == PushAction && old(top) == numFrames) || numFrames == 0
      ensures ok && !old(prevSym).isKernel && !sym.isKernel && sym !in links.vm &&
              action == ActionOf(old(prevEvent), old(prevSym), event, sym)
              ==> Now() == PlainStep(old(Now()), old(prevEvent), old(prevSym), event, sym)
      ensures nativeOnly ==> allowNativeFrames == old(allowNativeFrames)
    {
      ok := Perform(action, event, sym);
      if ok {
        prevSym, prevEvent := sym, event;
      }
    }

    /** getAction, unless native frames are not wanted now. */
    method Decide(event: BBEvent, sym: Symbol) returns (action: Action)
      requires Valid()
      modifies `userSym, `userEvent
      ensures Valid()
      ensures action == old(Wanted(event, sym))
    {
      action := GetAction(event, sym);
      if !allowNativeFrames && !sym.isKernel {
        action := NoAction;
      }
    }

    /** For a method, the interpreter that runs it, whose own link is cleared. */
    method Interpreter(sym: Symbol) returns (r: Symbol)
      modifies links
      ensures r == if sym in old(links.vm) then old(links.vm)[sym] else sym
      ensures sym !in old(links.vm) ==> links.vm == old(links.vm)
    {
      r := sym;
      if r in links.vm {
        r := links.vm[r];
        links.vm := links.vm - {r};
      }
    }
  }
}
