/**
 * The method trace beside the address lookup (HandleMethodRecord, FindCurrentMethod and the end of
 * LookupFunction in trace_reader.h): which interpreted method a process runs at a given time.
 */
module MethodLookup {
  import opened Words
  import opened Options
  import opened CallStacks
  import Lookup

  const MAX_METHOD_STACK := 1000

  datatype MethodFrame = MethodFrame(addr: uint32, isNative: bool)

  type SymbolRef = Lookup.SymbolRef

  /** What a process state says of methods: the stack, and the symbol of the method on top. */
  datatype Methods = Methods(stack: seq<MethodFrame>, current: Option<SymbolRef>)

  const NO_METHODS := Methods([], None)

  /** The symbol of an address in a process, if one starts exactly there. */
  type Resolver = (int, uint32) -> Option<SymbolRef>

  /** What the current method should be: that on top of the stack, unless it is native or there is none. */
  function CurrentOf(stack: seq<MethodFrame>, pid: int, resolve: Resolver): Option<SymbolRef> {
    if stack == [] || stack[|stack| - 1].isNative then None else resolve(pid, stack[|stack| - 1].addr)
  }

  /** The method stack after a record; None where the code exits. */
  function NextStack(stack: seq<MethodFrame>, rec: MethodRec): Option<seq<MethodFrame>> {
    if rec.Enters() then
      if |stack| >= MAX_METHOD_STACK then None else Some(stack + [MethodFrame(rec.addr, rec.Native())])
    else if stack == [] then Some([])
    else
      var top := stack[|stack| - 1];
      if (top.addr != rec.addr && !top.isNative) || rec.Native() != top.isNative then None
      else Some(stack[..|stack| - 1])
  }

  /** The stacks of all processes after some records, of which those with time 0 are passed over. */
  function StacksAfter(records: seq<MethodRec>, pid: int): Option<seq<MethodFrame>> {
    if records == [] then Some([])
    else
      var rec := records[|records| - 1];
      var before := StacksAfter(records[..|records| - 1], pid);
      if before.None? || rec.pid != pid || rec.time == 0 then before else NextStack(before.value, rec)
  }

  /** n records are at or before time, and the next is not. */
  ghost predicate IsSplit(records: seq<MethodRec>, n: nat, time: uint64) {
    Before(records, n, time) && (n < |records| ==> time < records[n].time)
  }

  lemma StacksStep(records: seq<MethodRec>, n: nat, pid: int)
    requires n < |records|
    ensures var before, rec := StacksAfter(records[..n], pid), records[n];
            StacksAfter(records[..n + 1], pid) ==
            if before.None? || rec.pid != pid || rec.time == 0 then before else NextStack(before.value, rec)
  {
    assert records[..n + 1][..n] == records[..n];
  }

  /** Once the code has exited over a process's stack there is no stack any more. */
  lemma {:induction false} NoneStays(records: seq<MethodRec>, n: nat, k: nat, pid: int)
    requires n <= k <= |records| && StacksAfter(records[..n], pid).None?
    ensures StacksAfter(records[..k], pid).None?
    decreases k
  {
    if n < k {
      NoneStays(records, n, k - 1, pid);
      StacksStep(records, k - 1, pid);
    }
  }

  /** The first n records are all at or before time. */
  predicate Before(records: seq<MethodRec>, n: nat, time: uint64) {
    n <= |records| && forall i :: 0 <= i < n ==> records[i].time <= time
  }

  /** Among the records up to the first that is later than time, one makes the code exit. */
  ghost predicate ExitsBy(records: seq<MethodRec>, time: uint64) {
    exists n: nat, pid :: Before(records, n, time) && StacksAfter(records[..n], pid).None?
  }

  lemma ExitsAt(records: seq<MethodRec>, n: nat, time: uint64, procs: map<int, Methods>, resolve: Resolver)
    requires UpTo(records, n, procs, resolve) && n < |records| && Before(records, n + 1, time)
    requires records[n].time != 0 && NextStack(Of(procs, records[n].pid).stack, records[n]).None?
    ensures ExitsBy(records, time)
  {
    StacksStep(records, n, records[n].pid);
    assert StacksAfter(records[..n], records[n].pid) == Some(Of(procs, records[n].pid).stack);
    assert StacksAfter(records[..n + 1], records[n].pid).None?;
  }

  lemma NoExitBy(records: seq<MethodRec>, n: nat, time: uint64, procs: map<int, Methods>, resolve: Resolver)
    requires UpTo(records, n, procs, resolve) && IsSplit(records, n, time)
    ensures !ExitsBy(records, time)
  {
    forall k: nat, pid | Before(records, k, time)
      ensures StacksAfter(records[..k], pid).Some?
    {
      if StacksAfter(records[..k], pid).None? {
        NoneStays(records, k, n, pid);
      }
      assert StacksAfter(records[..n], pid) == Some(Of(procs, pid).stack);
    }
  }

  function Of(procs: map<int, Methods>, pid: int): Methods {
    if pid in procs then procs[pid] else NO_METHODS
  }

  /** Every process has the stack that the first n records make, and the method on top of it. */
  ghost predicate UpTo(records: seq<MethodRec>, n: nat, procs: map<int, Methods>, resolve: Resolver) {
    n <= |records| &&
    forall pid :: StacksAfter(records[..n], pid) == Some(Of(procs, pid).stack) &&
                  Of(procs, pid).current == CurrentOf(Of(procs, pid).stack, pid, resolve)
  }

  /** The state of a process after a record of it. */
  function After(stack: seq<MethodFrame>, pid: int, resolve: Resolver): Methods {
    Methods(stack, CurrentOf(stack, pid, resolve))
  }

  lemma UpToMore(records: seq<MethodRec>, n: nat, procs: map<int, Methods>, resolve: Resolver, procs1: map<int, Methods>)
    requires UpTo(records, n, procs, resolve) && n < |records|
    requires var rec := records[n];
             if rec.time == 0 then procs1 == procs
             else var next := NextStack(Of(procs, rec.pid).stack, rec);
                  next.Some? && procs1 == procs[rec.pid := After(next.value, rec.pid, resolve)]
    ensures UpTo(records, n + 1, procs1, resolve)
  {
    forall pid
      ensures StacksAfter(records[..n + 1], pid) == Some(Of(procs1, pid).stack) &&
              Of(procs1, pid).current == CurrentOf(Of(procs1, pid).stack, pid, resolve)
    {
      StacksStep(records, n, pid);
      assert StacksAfter(records[..n], pid) == Some(Of(procs, pid).stack);
    }
  }

  class MethodFinder {
    const records: seq<MethodRec>
    const resolve: Resolver
    var at: nat
    var next: MethodRec              // next_method_; time 0 before anything has been read
    var procs: map<int, Methods>

    /** How many records have been handled. */
    ghost function Handled(): nat
      reads this
    {
      if at > 0 && next.time != NEVER then at - 1 else at
    }

    ghost predicate Positioned()
      reads this
    {
      at <= |records| && (forall rec <- records :: rec.time < NEVER) &&
      if at == 0 then next.time == 0 || (next.time == NEVER && records == [])
      else if next.time == NEVER then at == |records|
      else next == records[at - 1]
    }

    ghost predicate Valid()
      reads this
    {
      Positioned() && UpTo(records, Handled(), procs, resolve)
    }

    constructor (records: seq<MethodRec>, resolve: Resolver)
      requires forall rec <- records :: rec.time < NEVER
      ensures Valid() && this.records == records && this.resolve == resolve && Handled() == 0
    {
      this.records, this.resolve, at := records, resolve, 0;
      next, procs := MethodRec(0, 0, 0, MethodEnter), map[];
      new;
      assert records[..0] == [];
    }

    /** HandleMethodRecord; false where it exits: on overflow, and on an exit that does not match the stack. */
    method HandleRecord(rec: MethodRec) returns (ok: bool)
      modifies `procs
      ensures var next := NextStack(Of(old(procs), rec.pid).stack, rec);
              (ok <==> next.Some?) &&
              procs == if ok then old(procs)[rec.pid := After(next.value, rec.pid, resolve)] else old(procs)
    {
      var stack := if rec.pid in procs then procs[rec.pid].stack else [];
      var addr, isNative := rec.addr, rec.flags.NativeEnter?;
      if rec.flags.MethodEnter? || rec.flags.NativeEnter? {
        if |stack| >= MAX_METHOD_STACK {
          return false;
        }
        stack := stack + [MethodFrame(rec.addr, isNative)];
      } else {
        if |stack| == 0 {
          procs := procs[rec.pid := Methods([], None)];
          return true;
        }
        var top := stack[|stack| - 1];
        if top.addr != rec.addr && !top.isNative {
          return false;
        }
        var poppingNative := rec.flags.NativeExit? || rec.flags.NativeException?;
        if poppingNative != top.isNative {
          return false;
        }
        stack := stack[..|stack| - 1];
        if |stack| == 0 {
          procs := procs[rec.pid := Methods([], None)];
          return true;
        }
        addr, isNative := stack[|stack| - 1].addr, stack[|stack| - 1].isNative;
      }
      procs := procs[rec.pid := Methods(stack, if isNative then None else resolve(rec.pid, addr))];
      ok := true;
    }

    /** One pass of the loop: handles the record read before, if there is one, and reads one further. */
    method Advance(time: uint64) returns (ok: bool)
      requires Valid() && next.time <= time < NEVER && Before(records, Handled(), time)
      modifies this
      ensures !ok ==> ExitsBy(records, time)
      ensures ok ==> Valid() && Handled() == old(if at == 0 then 0 else Handled() + 1)
      ensures ok ==> next.time == NEVER || (at == old(at) + 1 && next == records[old(at)])
      ensures old(at) > 0 ==> old(next) == records[old(Handled())]
      ensures at <= |records|
    {
      ok := true;
      if next.time != 0 {
        ok := HandleRecord(next);
        if !ok {
          ExitsAt(records, Handled(), time, procs, resolve);
          return;
        }
      }
      if at > 0 {
        UpToMore(records, at - 1, old(procs), resolve, procs);
      }
      if at == |records| {
        next := next.(time := NEVER);
      } else {
        next := records[at];
        at := at + 1;
      }
    }

    /**
     * FindCurrentMethod, for times that do not go back: the method on top of the stack that the records up
     * to the given time make. False exactly if one of them makes it exit.
     */
    method FindCurrentMethod(pid: int, time: uint64) returns (ok: bool, sym: Option<SymbolRef>)
      requires Valid() && time < NEVER && Before(records, Handled(), time)
      modifies this
      ensures ok <==> !ExitsBy(records, time)
      ensures ok ==> Valid() && IsSplit(records, Handled(), time)
      ensures ok ==> var stack := StacksAfter(records[..Handled()], pid);
                     stack.Some? && sym == CurrentOf(stack.value, pid, resolve)
    {
      ok, sym := true, None;
      while time >= next.time
        invariant Valid() && Before(records, Handled(), time)
        decreases |records| - at, if next.time == NEVER then 0 else 1
      {
        ok := Advance(time);
        if !ok {
          return;
        }
      }
      NoExitBy(records, Handled(), time, procs, resolve);
      assert StacksAfter(records[..Handled()], pid) == Some(Of(procs, pid).stack);
      sym := if pid in procs then procs[pid].current else None;
    }
  }

  class SymbolLookup {
    const functions: Lookup.FunctionLookup
    const methods: MethodFinder
    var vmSym: map<SymbolRef, SymbolRef>     // the vm_sym fields: the interpreter that runs a method

    constructor (functions: Lookup.FunctionLookup, methods: MethodFinder)
      ensures this.functions == functions && this.methods == methods && vmSym == map[]
    {
      this.functions, this.methods, vmSym := functions, methods, map[];
    }

    /**
     * LookupFunction as a whole. The symbol of the method that the process is running, if it is running one,
     * with the native function at the address noted as its interpreter; else that function. Without a function
     * at the address the method trace is left alone. False exactly if it is not and one of its records makes
     * the code exit.
     */
    method LookupFunction(pid: nat, addr: uint32, time: uint64, beyond: int) returns (ok: bool, r: Option<SymbolRef>)
      requires functions.reader.Valid() && functions.CacheFresh() && !functions.CachedNull(pid)
      requires pid in functions.reader.processes ==> Lookup.Tidy(functions.View(pid))
      requires methods.Valid() && time < NEVER && Before(methods.records, methods.Handled(), time)
      modifies this, functions, methods
      ensures functions.CacheFresh() && (ok ==> methods.Valid())
      ensures var native := if pid in functions.reader.processes then Lookup.Found(functions.View(pid), addr) else None;
              (functions.CachedNull(pid) <==> pid in functions.reader.processes && native == None) &&
              if native == None then ok && r == None && vmSym == old(vmSym) && unchanged(methods)
              else
                (ok <==> !ExitsBy(methods.records, time)) &&
                (ok ==>
                  IsSplit(methods.records, methods.Handled(), time) &&
                  var stack := StacksAfter(methods.records[..methods.Handled()], pid);
                  stack.Some? &&
                  match CurrentOf(stack.value, pid, methods.resolve)
                  case Some(m) => r == Some(m) && vmSym == old(vmSym)[m := native.value]
                  case None => r == native && vmSym == old(vmSym))
    {
      ok := true;
      r := functions.LookupFunction(pid, addr, beyond);
      if r.None? {
        return;
      }
      var sym;
      ok, sym := methods.FindCurrentMethod(pid, time);
      if ok && sym.Some? {
        vmSym := vmSym[sym.value := r.value];
        r := sym;
      }
    }
  }
}
