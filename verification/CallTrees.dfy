/**
 * What the heuristics of the call stack are for: on native user code that calls and returns in the usual
 * way, the reconstructed stack is the call stack of the program.
 */
module CallTrees {
  import opened Words
  import opened CallStacks

  /** Code run by one function: its own blocks, and calls of others (or itself) with what they run. */
  datatype Code =
    | Straight(block: BBEvent)
    | Call(callee: Symbol, entry: BBEvent, body: seq<Code>, back: BBEvent)

  /** A stack with the block that ran last. */
  datatype Machine = Machine(st: Stack, prev: BBEvent, prevSym: Symbol)

  /** A block and the function it is in. */
  datatype Block = Block(event: BBEvent, sym: Symbol)

  function RunBlock(m: Machine, b: Block): (r: Machine)
    ensures |r.st.frames| == |m.st.frames|
  {
    if m.st.top < |m.st.frames| then Machine(PlainStep(m.st, m.prev, m.prevSym, b.event, b.sym), b.event, b.sym) else m
  }

  function RunBlocks(m: Machine, blocks: seq<Block>): Machine
    decreases |blocks|
  {
    if blocks == [] then m else RunBlocks(RunBlock(m, blocks[0]), blocks[1..])
  }

  lemma {:induction false} RunConcat(m: Machine, a: seq<Block>, b: seq<Block>)
    ensures RunBlocks(m, a + b) == RunBlocks(RunBlocks(m, a), b)
    decreases |a|
  {
    if a == [] {
      assert a + b == b;
    } else {
      assert (a + b)[0] == a[0] && (a + b)[1..] == a[1..] + b;
      RunConcat(RunBlock(m, a[0]), a[1..], b);
    }
  }

  /** The blocks of a piece of code of function f, in the order they run. */
  function BlocksOf(c: Code, f: Symbol): seq<Block>
    decreases c, 0
  {
    match c
    case Straight(b) => [Block(b, f)]
    case Call(callee, entry, body, back) => [Block(entry, callee)] + AllBlocks(body, callee) + [Block(back, f)]
  }

  function AllBlocks(code: seq<Code>, f: Symbol): seq<Block>
    decreases code, 1
  {
    if code == [] then [] else BlocksOf(code[0], f) + AllBlocks(code[1..], f)
  }

  /** How many frames code needs above that of its function. */
  function Depth(c: Code): nat
    decreases c, 0
  {
    if c.Straight? then 0 else 1 + DepthOf(c.body)
  }

  function DepthOf(code: seq<Code>): nat
    decreases code, 1
  {
    if code == [] then 0
    else
      var first, rest := Depth(code[0]), DepthOf(code[1..]);
      if first < rest then rest else first
  }

  /**
   * The code looks as usual to the heuristics: blocks of a function go on in it, an entry is a call, and the
   * block after a call is a return to the address behind the calling block.
   */
  predicate Usual(m: Machine, c: Code, f: Symbol)
    decreases c, 0
  {
    match c
    case Straight(b) => ActionOf(m.prev, m.prevSym, b, f) == NoAction
    case Call(callee, entry, body, back) =>
      ActionOf(m.prev, m.prevSym, entry, callee) == PushAction && !callee.IsVectorTable() &&
      var inside := RunBlock(m, Block(entry, callee));
      AllUsual(inside, body, callee) &&
      var done := RunBlocks(inside, AllBlocks(body, callee));
      ActionOf(done.prev, done.prevSym, back, f) == PopAction && back.bbAddr == m.prev.EndAddr()
  }

  predicate AllUsual(m: Machine, code: seq<Code>, f: Symbol)
    decreases code, 1
  {
    code == [] ||
    (Usual(m, code[0], f) && AllUsual(RunBlocks(m, BlocksOf(code[0], f)), code[1..], f))
  }

  /** Some code of f has just run: its frame is on top and nothing special about it. */
  predicate In(m: Machine, f: Symbol) {
    0 < m.st.top < |m.st.frames| && m.prevSym == f &&
    var frame := m.st.frames[m.st.top - 1];
    !frame.sym.IsVectorTable() && !frame.causedException
  }

  /** The same stack, whatever lies behind it. */
  predicate SameStack(a: Stack, b: Stack) {
    a.top == b.top <= |a.frames| == |b.frames| && a.frames[..a.top] == b.frames[..b.top]
  }

  /** A call pushes one frame, for the callee, that returns behind the calling block. */
  lemma CallPushes(m: Machine, f: Symbol, callee: Symbol, entry: BBEvent)
    requires In(m, f) && m.st.top + 1 < |m.st.frames| && !callee.IsVectorTable()
    requires ActionOf(m.prev, m.prevSym, entry, callee) == PushAction
    ensures var r := RunBlock(m, Block(entry, callee));
            In(r, callee) && r.st.top == m.st.top + 1 &&
            r.st.frames == m.st.frames[m.st.top := Frame(callee, m.prev.EndAddr(), false, false, false)]
  {}

  /** A return pops exactly the frame that returns there, if that is on top. */
  lemma ReturnPops(m: Machine, f: Symbol, back: BBEvent)
    requires 1 < m.st.top < |m.st.frames| && m.st.frames[m.st.top - 1].addr == back.bbAddr
    requires !m.st.frames[m.st.top - 2].causedException
    requires ActionOf(m.prev, m.prevSym, back, f) == PopAction
    ensures RunBlock(m, Block(back, f)) == Machine(Stack(m.st.top - 1, m.st.frames), back, f)
  {
    var fs, top := m.st.frames, m.st.top;
    assert AddrLevel(fs, top, back.bbAddr) == top - 1;
    assert fs[top - 2].(causedException := false) == fs[top - 2];
    assert Marked(fs, top - 2, false) == fs;
  }

  /** After the body of a call, with the stack as the call left it, the return pops the callee's frame. */
  lemma BackFromCall(m: Machine, c: Code, f: Symbol, done: Machine)
    requires c.Call? && In(m, f) && m.st.top + 1 < |m.st.frames| && !c.callee.IsVectorTable()
    requires ActionOf(m.prev, m.prevSym, c.entry, c.callee) == PushAction
    requires SameStack(done.st, RunBlock(m, Block(c.entry, c.callee)).st)
    requires ActionOf(done.prev, done.prevSym, c.back, f) == PopAction && c.back.bbAddr == m.prev.EndAddr()
    ensures var r := RunBlock(done, Block(c.back, f)); In(r, f) && SameStack(r.st, m.st)
  {
    CallPushes(m, f, c.callee, c.entry);
    var inside, top := RunBlock(m, Block(c.entry, c.callee)), m.st.top;
    SamePrefix(done.st.frames, inside.st.frames, top + 1, top);
    ReturnPops(done, f, c.back);
  }

  lemma SamePrefix<T>(a: seq<T>, b: seq<T>, n: nat, k: nat)
    requires k < n <= |a| && n <= |b| && a[..n] == b[..n]
    ensures a[k] == b[k] && a[..k] == b[..k] && (k > 0 ==> a[k - 1] == b[k - 1])
  {
    assert a[k] == a[..n][k] && b[k] == b[..n][k];
    assert a[..k] == a[..n][..k] && b[..k] == b[..n][..k];
    assert k > 0 ==> a[k - 1] == a[..n][k - 1] && b[k - 1] == b[..n][k - 1];
  }

  /** A piece of code leaves the stack as it found it. */
  lemma {:induction false} PieceBalances(m: Machine, c: Code, f: Symbol)
    requires In(m, f) && m.st.top + Depth(c) < |m.st.frames| && Usual(m, c, f)
    ensures var r := RunBlocks(m, BlocksOf(c, f)); In(r, f) && SameStack(r.st, m.st)
    decreases c, 0
  {
    if c.Call? {
      var inside := RunBlock(m, Block(c.entry, c.callee));
      CallPushes(m, f, c.callee, c.entry);
      CodeBalances(inside, c.body, c.callee);
      BackFromCall(m, c, f, RunBlocks(inside, AllBlocks(c.body, c.callee)));
      CallRun(m, c, f);
    }
  }

  lemma CallRun(m: Machine, c: Code, f: Symbol)
    requires c.Call?
    ensures RunBlocks(m, BlocksOf(c, f)) ==
            RunBlock(RunBlocks(RunBlock(m, Block(c.entry, c.callee)), AllBlocks(c.body, c.callee)), Block(c.back, f))
  {
    var e, body, back := [Block(c.entry, c.callee)], AllBlocks(c.body, c.callee), [Block(c.back, f)];
    RunConcat(m, e + body, back);
    RunConcat(m, e, body);
    RunOne(m, e[0]);
    RunOne(RunBlocks(m, e + body), back[0]);
  }

  lemma RunOne(m: Machine, b: Block)
    ensures RunBlocks(m, [b]) == RunBlock(m, b)
  {
    assert [b][1..] == [];
  }

  /**
   * However deep its calls go, code that looks as usual leaves the stack as it found it, with its own frame
   * on top.
   */
  lemma {:induction false} CodeBalances(m: Machine, code: seq<Code>, f: Symbol)
    requires In(m, f) && m.st.top + DepthOf(code) < |m.st.frames| && AllUsual(m, code, f)
    ensures var r := RunBlocks(m, AllBlocks(code, f)); In(r, f) && SameStack(r.st, m.st)
    decreases code, 1
  {
    if code != [] {
      PieceBalances(m, code[0], f);
      var next := RunBlocks(m, BlocksOf(code[0], f));
      CodeBalances(next, code[1..], f);
      RunConcat(m, BlocksOf(code[0], f), AllBlocks(code[1..], f));
    }
  }

  // --- What looks as usual --------------------------------------------------------------------------

  /** A branch-and-link from one user function to another, anywhere in it, is a call. */
  lemma BranchLinkCalls(prev: BBEvent, f: Symbol, entry: BBEvent, callee: Symbol)
    requires prev.numInsns > 0 && prev.lastOp.branch && prev.lastOp.branchLink && !prev.lastOp.branchExchange
    requires callee != f && !f.isKernel && !callee.isKernel && prev.EndAddr() != entry.bbAddr
    ensures ActionOf(prev, f, entry, callee) == PushAction
  {}

  /** A bx, or any last instruction that is no branch, into the middle of another user function is a return. */
  lemma ExchangeReturns(prev: BBEvent, f: Symbol, back: BBEvent, caller: Symbol)
    requires prev.numInsns > 0 && (prev.lastOp.branchExchange || !prev.lastOp.branch)
    requires caller != f && f != DUMMY && !f.isKernel && !caller.isKernel && !caller.IsVectorTable()
    requires prev.EndAddr() != back.bbAddr && caller.Offset(back.bbAddr) != 0
    ensures ActionOf(prev, f, back, caller) == PopAction
  {}

  // --- Room for the frames --------------------------------------------------------------------------

  /** Each call among the blocks finds a stack with room for n frames not yet full. */
  predicate AllFit(m: Machine, blocks: seq<Block>, n: nat)
    decreases |blocks|
  {
    blocks == [] ||
    ((ActionOf(m.prev, m.prevSym, blocks[0].event, blocks[0].sym) == PushAction ==> m.st.top != n) &&
     AllFit(RunBlock(m, blocks[0]), blocks[1..], n))
  }

  lemma {:induction false} FitConcat(m: Machine, a: seq<Block>, b: seq<Block>, n: nat)
    ensures AllFit(m, a + b, n) <==> AllFit(m, a, n) && AllFit(RunBlocks(m, a), b, n)
    decreases |a|
  {
    if a == [] {
      assert a + b == b;
    } else {
      assert (a + b)[0] == a[0] && (a + b)[1..] == a[1..] + b;
      FitConcat(RunBlock(m, a[0]), a[1..], b, n);
    }
  }

  lemma FitOne(m: Machine, b: Block, n: nat)
    ensures AllFit(m, [b], n) <==> (ActionOf(m.prev, m.prevSym, b.event, b.sym) == PushAction ==> m.st.top != n)
  {
    assert [b][1..] == [];
  }

  lemma {:induction false} PieceFits(m: Machine, c: Code, f: Symbol, n: nat)
    requires In(m, f) && m.st.top + Depth(c) <= n == |m.st.frames| - 1 && Usual(m, c, f)
    ensures AllFit(m, BlocksOf(c, f), n)
    decreases c, 0
  {
    match c {
      case Straight(b) =>
        FitOne(m, Block(b, f), n);
      case Call(callee, entry, body, back) =>
        var e, inside := [Block(entry, callee)], RunBlock(m, Block(entry, callee));
        CallPushes(m, f, callee, entry);
        CodeFits(inside, body, callee, n);
        FitOne(m, Block(entry, callee), n);
        RunOne(m, Block(entry, callee));
        FitConcat(m, e, AllBlocks(body, callee), n);
        RunConcat(m, e, AllBlocks(body, callee));
        FitOne(RunBlocks(inside, AllBlocks(body, callee)), Block(back, f), n);
        FitConcat(m, e + AllBlocks(body, callee), [Block(back, f)], n);
    }
  }

  /** Code that calls no deeper than the stack has room for never finds it full. */
  lemma {:induction false} CodeFits(m: Machine, code: seq<Code>, f: Symbol, n: nat)
    requires In(m, f) && m.st.top + DepthOf(code) <= n == |m.st.frames| - 1 && AllUsual(m, code, f)
    ensures AllFit(m, AllBlocks(code, f), n)
    decreases code, 1
  {
    if code != [] {
      var next := RunBlocks(m, BlocksOf(code[0], f));
      PieceBalances(m, code[0], f);
      PieceFits(m, code[0], f, n);
      CodeFits(next, code[1..], f, n);
      FitConcat(m, BlocksOf(code[0], f), AllBlocks(code[1..], f), n);
    }
  }

  // --- On the stack itself ---------------------------------------------------------------------------

  /** Runs the blocks on a stack that has native user code only; false is the exit on overflow. */
  method RunPlain(stack: CallStack, blocks: seq<Block>) returns (ok: bool)
    requires stack.Valid() && stack.methods.Valid() && stack.nativeOnly && stack.allowNativeFrames && !stack.prevSym.isKernel
    requires forall b <- blocks :: b.event.time < NEVER && !b.sym.isKernel && b.sym !in stack.links.vm
    requires stack.numFrames > 0
    modifies stack, stack.shadow, stack.methods, stack.links
    ensures ok <==> AllFit(old(Machine(stack.Now(), stack.prevEvent, stack.prevSym)), blocks, stack.numFrames)
    ensures ok ==> Machine(stack.Now(), stack.prevEvent, stack.prevSym) ==
                   RunBlocks(old(Machine(stack.Now(), stack.prevEvent, stack.prevSym)), blocks)
  {
    ghost var start := Machine(stack.Now(), stack.prevEvent, stack.prevSym);
    ok := true;
    var i := 0;
    assert blocks[0..] == blocks;
    while i < |blocks|
      invariant 0 <= i <= |blocks| && stack.Valid() && stack.methods.Valid()
      invariant stack.nativeOnly && stack.allowNativeFrames && !stack.prevSym.isKernel && stack.links.vm == old(stack.links.vm)
      invariant var m := Machine(stack.Now(), stack.prevEvent, stack.prevSym);
                RunBlocks(m, blocks[i..]) == RunBlocks(start, blocks) &&
                (AllFit(m, blocks[i..], stack.numFrames) <==> AllFit(start, blocks, stack.numFrames))
    {
      assert blocks[i] in blocks && blocks[i..][0] == blocks[i] && blocks[i..][1..] == blocks[i + 1..];
      ok := stack.UpdateStack(blocks[i].event, blocks[i].sym);
      if !ok {
        return;
      }
      i := i + 1;
    }
  }

  /** Code that looks as usual, run from inside its function, leaves the reconstructed stack as it found it. */
  method RunCode(stack: CallStack, code: seq<Code>, f: Symbol) returns (ok: bool)
    requires stack.Valid() && stack.methods.Valid() && stack.nativeOnly && stack.allowNativeFrames && !f.isKernel
    requires forall b <- AllBlocks(code, f) :: b.event.time < NEVER && !b.sym.isKernel && b.sym !in stack.links.vm
    requires var m := Machine(stack.Now(), stack.prevEvent, stack.prevSym);
             In(m, f) && stack.top + DepthOf(code) <= stack.numFrames && AllUsual(m, code, f)
    modifies stack, stack.shadow, stack.methods, stack.links
    ensures ok && SameStack(stack.Now(), old(stack.Now())) && stack.prevSym == f
  {
    CodeBalances(Machine(stack.Now(), stack.prevEvent, stack.prevSym), code, f);
    CodeFits(Machine(stack.Now(), stack.prevEvent, stack.prevSym), code, f, stack.numFrames);
    ok := RunPlain(stack, AllBlocks(code, f));
  }
}
