/**
 * The thread switching of q2dm: one call stack per pid, one for the kernel, all fed from one event
 * stream and all emptied at the end.
 */
module Q2dm {
  import opened Words
  import opened Options
  import opened CallStacks
  import opened Folding

  /**
   * An event with the function it falls in. userMapped is the region flag kIsUserMappedRegion; interpreter
   * is what the lookup has stored in the function's vm_sym, if the function is an interpreted method.
   */
  datatype Step = Step(event: BBEvent, sym: Symbol, userMapped: bool, interpreter: Option<Symbol>)

  const K_MAX_THREADS := 32 * 1024

  class Session {
    const numFrames: nat
    const methods: MethodTrace
    const links: VmLinks
    const kernelPid: int
    const kernelStack: CallStack
    var stacks: map<int, CallStack>
    var shadows: map<int, FunctionStack>      // dmtrace_stack: the callbacks find a stack's shadow by its id
    var inKernel: bool

    ghost var repr: set<object>               // everything the session may change

    /** The stack of an id is well nested and agrees with the shadow the id selects, which is its own. */
    ghost predicate Keeps(id: int, stack: CallStack)
      requires stack in repr && stack.shadow in repr
      reads this, repr
    {
      id in shadows && shadows[id] == stack.shadow && stack.shadow.owner == id && stack.methods == methods && stack.links == links &&
      stack.numFrames == numFrames && stack.Valid()
    }

    ghost predicate Valid()
      reads this, repr
    {
      this !in repr && methods in repr && links in repr && methods.Valid() &&
      kernelStack in repr && kernelStack.shadow in repr && Keeps(kernelPid, kernelStack) &&
      (forall id <- shadows :: id == kernelPid || id in stacks) &&
      forall p <- stacks ::
        0 <= p < K_MAX_THREADS && p != kernelPid && stacks[p] in repr && stacks[p].shadow in repr && Keeps(p, stacks[p])
    }

    ghost function Status(): Status
      reads this, repr
    {
      if forall k {:trigger Key(k)} :: Key(k) ==> Valid() then Sound else Unsound
    }

    /** A stack has no room for another frame. */
    ghost predicate SomeFull()
      reads this, repr
    {
      exists stack :: Has(stack) && stack in repr && stack.top == numFrames
    }

    constructor (kernelPid: int, numFrames: nat, records: seq<MethodRec>)
      requires forall r <- records :: r.time < NEVER
      ensures Status() == Sound && fresh(repr) && this.kernelPid == kernelPid && this.numFrames == numFrames
    {
      var trace := new MethodTrace(records);
      var vm := new VmLinks();
      var shadow := new FunctionStack(numFrames, DUMMY, kernelPid);
      var kernel := new CallStack(numFrames, shadow, trace, vm);
      this.numFrames, methods, links, this.kernelPid, kernelStack := numFrames, trace, vm, kernelPid, kernel;
      stacks, shadows, inKernel := map[], map[kernelPid := shadow], false;
      repr := {kernel, shadow, trace, vm};
    }

    ghost predicate Has(stack: CallStack)
      reads this
    {
      stack == kernelStack || exists p :: p in stacks && stacks[p] == stack
    }

    /** Changing one stack and its shadow leaves the session in order. */
    twostate lemma OthersKept(stack: CallStack)
      requires old(Valid()) && old(Has(stack)) && stack.Valid() && methods.Valid()
      requires stacks == old(stacks) && shadows == old(shadows) && repr == old(repr)
      requires unchanged(old(repr) - {stack, stack.shadow, methods, links})
      ensures Valid()
    {
      forall p <- stacks
        ensures Keeps(p, stacks[p])
      {
        assert old(Keeps(p, stacks[p]));
      }
      assert old(Keeps(kernelPid, kernelStack));
    }

    /** Empties one of the stacks. */
    method Empty(stack: CallStack)
      requires Valid() && Has(stack)
      modifies stack, stack.shadow
      ensures Valid() && stack.top == 0 && Replay(stack.log) == Some([])
      ensures forall p <- stacks :: stacks[p] != stack ==> stacks[p].top == old(stacks[p].top) && stacks[p].log == old(stacks[p].log)
    {
      stack.PopAll();
      OthersKept(stack);
    }

    /** A stack for the session, with a shadow of its own. */
    method NewStack(pid: int) returns (stack: CallStack)
      ensures fresh(stack) && fresh(stack.shadow) && stack.shadow.owner == pid && stack.methods == methods && stack.links == links
      ensures stack.numFrames == numFrames && stack.Valid()
    {
      var shadow := new FunctionStack(numFrames, DUMMY, pid);
      stack := new CallStack(numFrames, shadow, methods, links);
    }

    /** A further stack, with the shadow its id selects, leaves the others in order. */
    twostate lemma Added(new stack: CallStack)
      requires old(Valid()) && stack.Valid() && stack !in old(repr) && stack.shadow !in old(repr)
      requires stack.methods == methods && stack.links == links && stack.numFrames == numFrames
      requires var pid := stack.shadow.owner;
               0 <= pid < K_MAX_THREADS && pid != kernelPid && pid !in old(stacks) &&
               stacks == old(stacks)[pid := stack] && shadows == old(shadows)[pid := stack.shadow]
      requires repr == old(repr) + {stack, stack.shadow} && unchanged(old(repr))
      ensures Valid()
    {
      forall p <- stacks
        ensures stacks[p] in repr && stacks[p].shadow in repr && Keeps(p, stacks[p])
      {
        assert p != stack.shadow.owner ==> old(Keeps(p, stacks[p]));
      }
      assert old(Keeps(kernelPid, kernelStack));
    }

    /** A pid's stack is made when the pid is first seen. */
    method AddStack(pid: int)
      requires Status() == Sound && 0 <= pid < K_MAX_THREADS && pid != kernelPid && pid !in stacks
      modifies `stacks, `shadows, `repr
      ensures Status() == Sound && pid in stacks && fresh(repr - old(repr))
      ensures forall p <- old(stacks) :: p in stacks && stacks[p] == old(stacks)[p]
    {
      assert Key(0);
      var stack := NewStack(pid);
      stacks, shadows := stacks[pid := stack], shadows[pid := stack.shadow];
      repr := repr + {stack, stack.shadow};
      Added(stack);
    }

    /** The stack of a pid, made when the pid is first seen. */
    method StackOf(pid: int) returns (stack: CallStack)
      requires Status() == Sound && 0 <= pid < K_MAX_THREADS && pid != kernelPid
      modifies `stacks, `shadows, `repr
      ensures Status() == Sound && Has(stack) && fresh(repr - old(repr)) && pid in stacks && stack == stacks[pid]
      ensures forall p <- old(stacks) :: p in stacks && stacks[p] == old(stacks)[p]
    {
      if pid !in stacks {
        AddStack(pid);
      }
      stack := stacks[pid];
    }

    /** No stack is found by two ids. */
    lemma OwnStacks()
      requires Valid()
      ensures forall p <- stacks :: stacks[p] != kernelStack
      ensures forall p, q :: p in stacks && q in stacks && stacks[p] == stacks[q] ==> p == q
    {
      assert forall p <- stacks :: stacks[p].shadow.owner == p;
    }

    /** A block on a stack, with the interpreter the lookup has stored in the function. */
    method Feed(stack: CallStack, step: Step) returns (ok: bool)
      requires stack.Valid() && stack.methods == methods && stack.links == links && methods.Valid() && step.event.time < NEVER
      modifies stack, stack.shadow, methods, links
      ensures stack.Valid() && methods.Valid()
      ensures if ok then stack.prevEvent == step.event else stack.top == stack.numFrames
    {
      if step.interpreter.Some? {
        links.vm := links.vm[step.sym := step.interpreter.value];
      }
      ok := stack.UpdateStack(step.event, step.sym);
    }

    /** One block on one of the stacks; false is the exit on overflow, with that stack full. */
    method Update(stack: CallStack, ghost id: int, step: Step) returns (ok: bool)
      requires Status() == Sound && Has(stack) && step.event.time < NEVER
      requires if id == kernelPid then stack == kernelStack else id in stacks && stack == stacks[id]
      modifies repr
      ensures Status() == Sound && unchanged(this) && (!ok ==> SomeFull())
      ensures ok ==> stack.prevEvent == step.event
      ensures forall p <- stacks :: p != id || id == kernelPid ==> stacks[p].log == old(stacks[p].log)
    {
      assert Key(0);
      OwnStacks();
      ok := Feed(stack, step);
      OthersKept(stack);
    }

    /** The kernel's stack is emptied when the kernel is left. */
    method LeaveKernel()
      requires Status() == Sound
      modifies repr
      ensures Status() == Sound && unchanged(this) && kernelStack.top == 0
      ensures forall p <- stacks :: stacks[p].log == old(stacks[p].log)
    {
      assert Key(0);
      OwnStacks();
      Empty(kernelStack);
    }

    method SetKernel(kernel: bool)
      requires Status() == Sound
      modifies `inKernel
      ensures Status() == Sound && inKernel == kernel
    {
      assert Key(0);
      inKernel := kernel;
    }

    /** One event of the main loop; false is the exit on stack overflow. */
    method Handle(step: Step) returns (ok: bool)
      requires Status() == Sound && step.event.time < NEVER && 0 <= step.event.pid < K_MAX_THREADS && step.event.pid != kernelPid
      modifies this, repr
      ensures Status() == Sound && fresh(repr - old(repr)) && (!ok ==> SomeFull())
      ensures inKernel == (step.sym.isKernel && !step.userMapped)
      ensures inKernel && ok ==> kernelStack.prevEvent == step.event
      ensures !inKernel ==> step.event.pid in stacks && (ok ==> stacks[step.event.pid].prevEvent == step.event)
      ensures forall p <- old(stacks) :: p in stacks && stacks[p] == old(stacks)[p] &&
                                         (inKernel || p != step.event.pid ==> stacks[p].log == old(stacks[p].log))
    {
      var kernel := step.sym.isKernel && !step.userMapped;
      if inKernel && !kernel {
        LeaveKernel();
      }
      SetKernel(kernel);
      if kernel {
        ok := Update(kernelStack, kernelPid, step);
      } else {
        var stack := StackOf(step.event.pid);
        ok := Update(stack, step.event.pid, step);
      }
    }

    /** Every stack of a pid below n has been emptied. */
    ghost predicate EmptiedBelow(n: int)
      reads this, repr
    {
      forall q <- stacks :: q < n ==> stacks[q] in repr && stacks[q].top == 0 && Replay(stacks[q].log) == Some([])
    }

    method EmptyOf(p: int)
      requires Status() == Sound && EmptiedBelow(p)
      modifies repr
      ensures Status() == Sound && repr == old(repr) && EmptiedBelow(p + 1)
    {
      assert Key(0);
      if p in stacks {
        Empty(stacks[p]);
      }
    }

    /** The end of main: every stack is emptied, so every push in every log has met its pop. */
    method Finish()
      requires Status() == Sound
      modifies repr
      ensures Status() == Sound && kernelStack.top == 0 && Replay(kernelStack.log) == Some([])
      ensures forall p <- stacks :: stacks[p].top == 0 && Replay(stacks[p].log) == Some([])
    {
      EmptyAll();
      assert Key(0);
      Empty(kernelStack);
    }

    method EmptyAll()
      requires Status() == Sound
      modifies repr
      ensures Status() == Sound && repr == old(repr) && EmptiedBelow(K_MAX_THREADS)
    {
      assert Key(0);
      for p := 0 to K_MAX_THREADS
        invariant Status() == Sound && repr == old(repr) && EmptiedBelow(p)
      {
        EmptyOf(p);
      }
    }
  }

  /**
   * A run over a whole event stream, with a kernel id that is no event's pid. Whatever the heuristics
   * decide and however the run ends, no callback has found its shadow stack in disagreement; if it ends
   * without an overflow, each log is balanced.
   */
  method Run(kernelPid: int, numFrames: nat, records: seq<MethodRec>, steps: seq<Step>) returns (ok: bool, session: Session)
    requires forall r <- records :: r.time < NEVER
    requires forall step <- steps :: step.event.time < NEVER && 0 <= step.event.pid < K_MAX_THREADS && step.event.pid != kernelPid
    ensures session.Valid() && !session.kernelStack.mismatch && forall p <- session.stacks :: !session.stacks[p].mismatch
    ensures session.numFrames == numFrames && (!ok ==> session.SomeFull())
    ensures ok ==> Replay(session.kernelStack.log) == Some([])
    ensures ok ==> forall p <- session.stacks :: Replay(session.stacks[p].log) == Some([])
  {
    session := new Session(kernelPid, numFrames, records);
    ok := true;
    var i := 0;
    while i < |steps| && ok
      invariant 0 <= i <= |steps| && session.Status() == Sound && session.numFrames == numFrames && fresh(session) && fresh(session.repr)
      invariant !ok ==> session.SomeFull()
    {
      ok := session.Handle(steps[i]);
      i := i + 1;
    }
    if ok {
      session.Finish();
    }
    assert Key(0);
  }
}
