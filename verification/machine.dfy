/**
 * The virtual machine: state, the allocation-backed stack primitives, one
 * function per instruction handler, and the fetch-decode-execute step.
 *
 * Every handler receives the machine with the instruction pointer already past
 * the opcode, exactly as the source's loop has advanced it by the time the
 * handler body runs.
 */
module Machine {
  import opened Wrappers
  import opened Bytecode
  import opened Heap

  const MaxCallDepth: nat := 1000
  const IntPrint: int := 1
  const IntPrintVal: int := 2

  /** A call frame: where RETURN resumes (absent for the top level), bindings, pending arguments. */
  datatype Frame = Frame(ret: Option<nat>, locals: map<Token, nat>, args: seq<nat>)

  /** What an INT instruction hands to the output sink: an address, or the cell it names. */
  datatype Printed = AddressOut(addr: Option<nat>) | CellOut(cell: Option<Cell>)

  datatype VM = VM(
    heap: Mem,
    ip: nat,
    stack: seq<nat>,
    frames: seq<Frame>,
    staged: seq<nat>,          // arguments staged for the next CALL or APPLY
    trueAddr: Option<nat>,     // memoised singletons
    falseAddr: Option<nat>,
    nilAddr: Option<nat>,
    out: seq<Printed>)

  datatype VmError =
    | InvalidAddress
    | EmptyStack
    | EmptyQueue
    | VariableUndefined(name: Token)
    | CallStackTooDeep
    | TypeMismatch
    | NoFrame
    | NoReturnAddress
    | Malformed
    | NoSemantics(op: Opcode)
    | NegativeJump

  datatype Status = Running(vm: VM) | Stopped(vm: VM)

  /** A fresh machine: empty heap, one top-level frame holding the given arguments. */
  function Init(args: seq<nat>): (vm: VM)
    ensures |vm.frames| == 1 && vm.frames[0].ret.None? && vm.frames[0].args == args
    ensures vm.heap == [] && vm.stack == [] && vm.staged == []
  {
    VM([], 0, [], [Frame(None, map[], args)], [], None, None, None, [])
  }

  function CodeCells(code: seq<Token>): (cs: Mem)
    ensures |cs| == |code|
    ensures forall i :: 0 <= i < |code| ==> cs[i] == Code(code[i])
  {
    seq(|code|, i requires 0 <= i < |code| => Code(code[i]))
  }

  /** New code is appended to the shared address space and execution starts at its first token. */
  function Load(vm: VM, code: seq<Token>): (r: VM)
    ensures r.ip == |vm.heap| && |r.heap| == |vm.heap| + |code|
    ensures r.heap[..|vm.heap|] == vm.heap
    ensures forall i :: 0 <= i < |code| ==> r.heap[|vm.heap| + i] == Code(code[i])
    ensures r == vm.(ip := |vm.heap|, heap := r.heap)
  {
    assert (vm.heap + CodeCells(code))[..|vm.heap|] == vm.heap;
    vm.(ip := |vm.heap|, heap := vm.heap + CodeCells(code))
  }

  // ---------------------------------------------------------------- singletons

  /** Lazily allocated, memoised cell: the cached address if there is one, else a fresh cell. */
  function Memo(h: Mem, memo: Option<nat>, v: Value): (r: (nat, Mem))
    ensures memo.Some? ==> r == (memo.value, h)
    ensures memo.None? ==> r.0 == Alloc(h) && r.0 < |r.1| && r.1[r.0] == Val(v) && Extends(h, r.1)
  {
    if memo.Some? then (memo.value, h) else AllocStore(h, v)
  }

  function TrueAddress(vm: VM): (r: (nat, VM))
    ensures r.1 == vm.(heap := r.1.heap, trueAddr := Some(r.0))
    ensures vm.trueAddr.Some? ==> r == (vm.trueAddr.value, vm)
    ensures vm.trueAddr.None? ==> r.0 == Alloc(vm.heap) && r.0 < |r.1.heap| && r.1.heap[r.0] == Val(BoolTrue)
    ensures Extends(vm.heap, r.1.heap)
  {
    var m := Memo(vm.heap, vm.trueAddr, BoolTrue);
    (m.0, vm.(heap := m.1, trueAddr := Some(m.0)))
  }

  function FalseAddress(vm: VM): (r: (nat, VM))
    ensures r.1 == vm.(heap := r.1.heap, falseAddr := Some(r.0))
    ensures vm.falseAddr.Some? ==> r == (vm.falseAddr.value, vm)
    ensures vm.falseAddr.None? ==> r.0 == Alloc(vm.heap) && r.0 < |r.1.heap| && r.1.heap[r.0] == Val(BoolFalse)
    ensures Extends(vm.heap, r.1.heap)
  {
    var m := Memo(vm.heap, vm.falseAddr, BoolFalse);
    (m.0, vm.(heap := m.1, falseAddr := Some(m.0)))
  }

  function EmptyListAddress(vm: VM): (r: (nat, VM))
    ensures r.1 == vm.(heap := r.1.heap, nilAddr := Some(r.0))
    ensures vm.nilAddr.Some? ==> r == (vm.nilAddr.value, vm)
    ensures vm.nilAddr.None? ==> r.0 == Alloc(vm.heap) && r.0 < |r.1.heap| && r.1.heap[r.0] == Val(EmptyList)
    ensures Extends(vm.heap, r.1.heap)
  {
    var m := Memo(vm.heap, vm.nilAddr, EmptyList);
    (m.0, vm.(heap := m.1, nilAddr := Some(m.0)))
  }

  // ---------------------------------------------------------------- stack and heap primitives

  function Push(vm: VM, a: nat): VM {
    vm.(stack := vm.stack + [a])
  }

  /** Allocates a cell for `v` and pushes its address. */
  function PushVal(vm: VM, v: Value): (r: VM)
    ensures r == vm.(heap := r.heap, stack := vm.stack + [Alloc(vm.heap)])
    ensures Alloc(vm.heap) < |r.heap| && r.heap[Alloc(vm.heap)] == Val(v)
    ensures Extends(vm.heap, r.heap)
  {
    var p := AllocStore(vm.heap, v);
    vm.(heap := p.1, stack := vm.stack + [p.0])
  }

  function Pop(vm: VM): (r: Result<(nat, VM), VmError>)
    ensures r.Success? <==> |vm.stack| > 0
    ensures r.Success? ==> vm.stack == r.value.1.stack + [r.value.0]
    ensures r.Success? ==> r.value.1 == vm.(stack := r.value.1.stack)
  {
    if |vm.stack| == 0 then Failure(EmptyStack)
    else Success((vm.stack[|vm.stack| - 1], vm.(stack := vm.stack[..|vm.stack| - 1])))
  }

  /** Pops an address and dereferences it; fails on an empty stack or an empty cell. */
  function PopCell(vm: VM): (r: Result<(Cell, VM), VmError>)
    ensures |vm.stack| == 0 ==> r == Failure(EmptyStack)
    ensures |vm.stack| > 0 ==>
      var a := vm.stack[|vm.stack| - 1];
      (r.Success? <==> a < |vm.heap| && !vm.heap[a].Empty?)
      && (r.Failure? ==> r.error == InvalidAddress)
      && (r.Success? ==> r.value == (vm.heap[a], vm.(stack := vm.stack[..|vm.stack| - 1])))
  {
    var p :- Pop(vm);
    match Resolve(vm.heap, p.0)
    case None => Failure(InvalidAddress)
    case Some(c) => Success((c, p.1))
  }

  /**
   * Pops the address of an integer count, frees its cell (the only place the
   * machine frees one), and returns the integer.
   */
  function PopRaw(vm: VM): (r: Result<(int, VM), VmError>)
    ensures r.Success? <==>
      |vm.stack| > 0 && var a := vm.stack[|vm.stack| - 1];
      a < |vm.heap| && vm.heap[a].Val? && vm.heap[a].v.Integer?
    ensures r.Success? ==>
      var a := vm.stack[|vm.stack| - 1];
      && r.value.0 == vm.heap[a].v.n
      && r.value.1 == vm.(stack := vm.stack[..|vm.stack| - 1], heap := vm.heap[a := Empty])
      && Alloc(r.value.1.heap) <= a
  {
    if |vm.stack| == 0 then Failure(EmptyStack)
    else
      var a := vm.stack[|vm.stack| - 1];
      match Resolve(vm.heap, a)
      case None => Failure(InvalidAddress)
      case Some(c) =>
        if c.Val? && c.v.Integer? then
          var h' := vm.heap[a := Empty];
          assert h'[a].Empty?;
          AllocLowest(h');
          assert Alloc(h') <= a;
          Success((c.v.n, vm.(stack := vm.stack[..|vm.stack| - 1], heap := vm.heap[a := Empty])))
        else Failure(TypeMismatch)
  }

  /** Reads the operand token at the instruction pointer and steps past it. */
  function Operand(vm: VM): (r: Result<(Token, VM), VmError>)
    ensures r.Success? <==> vm.ip < |vm.heap| && vm.heap[vm.ip].Code?
    ensures r.Success? ==> r.value == (vm.heap[vm.ip].tok, vm.(ip := vm.ip + 1))
  {
    if vm.ip < |vm.heap| && vm.heap[vm.ip].Code? then Success((vm.heap[vm.ip].tok, vm.(ip := vm.ip + 1)))
    else Failure(Malformed)
  }

  /** The frame stack with its innermost frame replaced. */
  function SetTop(frames: seq<Frame>, f: Frame): (r: seq<Frame>)
    requires |frames| > 0
    ensures |r| == |frames| && r[|r| - 1] == f
    ensures forall k :: 0 <= k < |frames| - 1 ==> r[k] == frames[k]
  {
    frames[..|frames| - 1] + [f]
  }

  function Top(vm: VM): Frame
    requires |vm.frames| > 0
  {
    vm.frames[|vm.frames| - 1]
  }

  /** The binding of `name` in the innermost frame that defines it. */
  function FindRemote(frames: seq<Frame>, name: Token): (r: Option<nat>)
    ensures r.None? <==> forall k :: 0 <= k < |frames| ==> name !in frames[k].locals
    ensures r.Some? ==> exists k :: (0 <= k < |frames| && name in frames[k].locals
                                     && frames[k].locals[name] == r.value
                                     && forall j :: k < j < |frames| ==> name !in frames[j].locals)
    decreases |frames|
  {
    if |frames| == 0 then None
    else if name in frames[|frames| - 1].locals then Some(frames[|frames| - 1].locals[name])
    else
      var r := FindRemote(frames[..|frames| - 1], name);
      assert forall k :: 0 <= k < |frames| - 1 ==> frames[..|frames| - 1][k] == frames[k];
      r
  }

  /**
   * The table row the body walk looks up for a token. The lookup indexes the
   * instruction table with the token itself, so -35..-1 count back from its
   * last row.
   */
  function SkipRow(t: Token): (r: Option<Opcode>)
    ensures !(t.Num? && t.n < 0) ==> r == Decode(t)
    ensures t.Num? && -TableSize <= t.n < 0 ==> r.Some? && InTable(r.value) && Index(r.value) == t.n + TableSize
    ensures t.Num? && t.n < -TableSize ==> r.None?
  {
    match t
    case Num(n) =>
      var k := if n < 0 then n + TableSize else n;
      if 0 <= k < TableSize then FromIndexRoundTrip(k); FromIndex(k) else FromIndex(k)
    case _ => Decode(t)
  }

  /**
   * Skips a function body: from `ip`, walks whole instructions (opcode plus its
   * operands), descending into nested bodies, until the ENDF that closes the
   * current one; returns the index just after it.
   */
  function SkipBody(h: Mem, ip: nat, depth: nat): (r: Result<nat, VmError>)
    ensures r.Success? ==> ip < r.value <= |h|
    ensures r.Success? ==> h[r.value - 1].Code? && Decode(h[r.value - 1].tok) == Some(Endf)
    decreases |h| - ip
  {
    if ip >= |h| || !h[ip].Code? then Failure(Malformed)
    else
      var t := h[ip].tok;
      // a negative number only selects a row; it never equals ENDF or PUSH_FUNC
      var exact := !(t.Num? && t.n < 0);
      match SkipRow(t)
      case None => Failure(Malformed)
      case Some(op) =>
        if !InTable(op) then Failure(Malformed)
        else if op == Endf && exact then
          if depth == 0 then Success(ip + 1) else SkipBody(h, ip + 1, depth - 1)
        else if op == PushFunc && exact then SkipBody(h, ip + 1, depth + 1)
        else if ip + 1 + Arity(op) > |h| then Failure(Malformed)
        else SkipBody(h, ip + 1 + Arity(op), depth)
  }

  /** Pushes the singleton for a comparison outcome. */
  function PushBool(vm: VM, b: bool): (r: VM)
    ensures b ==> r == Push(TrueAddress(vm).1, TrueAddress(vm).0)
    ensures !b ==> r == Push(FalseAddress(vm).1, FalseAddress(vm).0)
  {
    if b then var t := TrueAddress(vm); Push(t.1, t.0)
    else var f := FalseAddress(vm); Push(f.1, f.0)
  }

  function Last(s: seq<nat>): nat
    requires |s| > 0
  {
    s[|s| - 1]
  }

  function DropLast(s: seq<nat>): seq<nat>
    requires |s| > 0
  {
    s[..|s| - 1]
  }

  // ---------------------------------------------------------------- instruction handlers

  /** The value PUSH_ATOM, PUSH_NUM or PUSH_STR makes of its operand, if that operand suits it. */
  function LiteralValue(op: Opcode, t: Token): (r: Option<Value>)
    requires op in {PushAtom, PushNum, PushStr}
    ensures op == PushAtom ==> r == Some(Atom(t))
    ensures op == PushNum ==> (r.Some? <==> ToI(t).Some?) && (r.Some? ==> r.value == Integer(ToI(t).value))
    ensures op == PushStr ==> (r.Some? <==> t.Txt?) && (r.Some? ==> r.value == ByteArray(t.s))
  {
    match op
    case PushAtom => Some(Atom(t))
    case PushNum => (match ToI(t) case Some(n) => Some(Integer(n)) case None => None)
    case PushStr => if t.Txt? then Some(ByteArray(t.s)) else None
  }

  /** PUSH_ATOM / PUSH_NUM / PUSH_STR: store the operand's value in a new cell and push its address. */
  function ExecPushLiteral(op: Opcode, vm: VM): (r: Result<VM, VmError>)
    requires op in {PushAtom, PushNum, PushStr}
    ensures r.Success? <==> vm.ip < |vm.heap| && vm.heap[vm.ip].Code? && LiteralValue(op, vm.heap[vm.ip].tok).Some?
    ensures r.Success? ==>
      var a := Alloc(vm.heap);
      && r.value == vm.(ip := vm.ip + 1, heap := r.value.heap, stack := vm.stack + [a])
      && a < |r.value.heap| && r.value.heap[a] == Val(LiteralValue(op, vm.heap[vm.ip].tok).value)
      && Extends(vm.heap, r.value.heap)
  {
    var p :- Operand(vm);
    match LiteralValue(op, p.0)
    case None => Failure(Malformed)
    case Some(v) => Success(PushVal(p.1, v))
  }

  /** PUSH_TRUE / PUSH_FALSE: push the memoised boolean singleton. */
  function ExecPushBool(vm: VM, b: bool): (r: VM)
    ensures |r.stack| == |vm.stack| + 1 && r.stack[..|vm.stack|] == vm.stack
    ensures b ==> (r.trueAddr.Some? && Last(r.stack) == r.trueAddr.value
                   && (vm.trueAddr.Some? ==> r == vm.(stack := vm.stack + [vm.trueAddr.value])))
    ensures !b ==> (r.falseAddr.Some? && Last(r.stack) == r.falseAddr.value
                    && (vm.falseAddr.Some? ==> r == vm.(stack := vm.stack + [vm.falseAddr.value])))
    ensures r.ip == vm.ip && r.frames == vm.frames && Extends(vm.heap, r.heap)
  {
    assert (vm.stack + [0])[..|vm.stack|] == vm.stack;
    PushBool(vm, b)
  }

  /** PUSH_CAR / PUSH_CDR: replace a pair's address on top of the stack by its car or cdr address. */
  function ExecPairField(vm: VM, car: bool): (r: Result<VM, VmError>)
    ensures r.Success? <==> (|vm.stack| > 0 && Last(vm.stack) < |vm.heap|
                             && vm.heap[Last(vm.stack)].Val? && vm.heap[Last(vm.stack)].v.Pair?)
    ensures r.Success? ==>
      var p := vm.heap[Last(vm.stack)].v;
      r.value == vm.(stack := DropLast(vm.stack) + [if car then p.car else p.cdr])
  {
    var p :- PopCell(vm);
    if p.0.Val? && p.0.v.Pair? then Success(Push(p.1, if car then p.0.v.car else p.0.v.cdr))
    else Failure(TypeMismatch)
  }

  /** PUSH_CONS: pop the cdr, then the car, and push a new pair of the two. */
  function ExecPushCons(vm: VM): (r: Result<VM, VmError>)
    ensures r.Success? <==> |vm.stack| >= 2
    ensures r.Success? ==>
      var n := |vm.stack|;
      var a := Alloc(vm.heap);
      && r.value == vm.(heap := r.value.heap, stack := vm.stack[..n - 2] + [a])
      && a < |r.value.heap| && r.value.heap[a] == Val(Pair(vm.stack[n - 2], vm.stack[n - 1]))
      && Extends(vm.heap, r.value.heap)
  {
    var d :- Pop(vm);
    var c :- Pop(d.1);
    assert c.1.stack == vm.stack[..|vm.stack| - 2];
    Success(PushVal(c.1, Pair(c.0, d.0)))
  }

  /**
   * Pops `n` addresses (last pushed first) and returns them in push order,
   * or fails when fewer are on the stack.
   */
  function PopN(vm: VM, n: nat): (r: Result<(seq<nat>, VM), VmError>)
    ensures r.Success? <==> n <= |vm.stack|
    ensures r.Success? ==>
      && r.value.0 == vm.stack[|vm.stack| - n..]
      && r.value.1 == vm.(stack := vm.stack[..|vm.stack| - n])
  {
    if n > |vm.stack| then Failure(EmptyStack)
    else Success((vm.stack[|vm.stack| - n..], vm.(stack := vm.stack[..|vm.stack| - n])))
  }

  /** The raw count on top of the stack, when PopRaw can read it. */
  function TopCount(vm: VM): int
    requires PopRaw(vm).Success?
  {
    vm.heap[Last(vm.stack)].v.n
  }

  /**
   * PUSH_LIST: pop a count (freeing its cell), then that many addresses, and
   * push the head of a fresh list holding them in their push order.
   */
  function ExecPushList(vm: VM): (r: Result<VM, VmError>)
    ensures r.Success? <==> PopRaw(vm).Success? && Nat(TopCount(vm)) + 1 <= |vm.stack|
    ensures r.Success? ==>
      var k := Nat(TopCount(vm));
      var n := |vm.stack| - 1;
      && r.value.nilAddr.Some?
      && |r.value.stack| == n - k + 1
      && r.value.stack[..n - k] == vm.stack[..n - k]
      && ListAt(r.value.heap, Last(r.value.stack), vm.stack[n - k..n], r.value.nilAddr.value)
      && r.value.frames == vm.frames && r.value.ip == vm.ip && r.value.staged == vm.staged
      && Extends(vm.heap[Last(vm.stack) := Empty], r.value.heap)
      && r.value.trueAddr == vm.trueAddr && r.value.falseAddr == vm.falseAddr
      && (vm.nilAddr.Some? ==> r.value.nilAddr == vm.nilAddr)
      && (vm.nilAddr.None? ==> IsEmptyListCell(r.value.heap, r.value.nilAddr.value))
  {
    match PopRaw(vm)
    case Failure(err) => Failure(err)
    case Success(c) =>
      var k := Nat(c.0);
      if k > |c.1.stack| then Failure(EmptyStack)
      else
        var n := |c.1.stack|;
        assert c.1.stack[n - k..] == vm.stack[n - k..n];
        Success(ListOfTop(c.1, k))
  }

  /** The list-building half of PUSH_LIST: the top `k` addresses become a fresh list. */
  function ListOfTop(w: VM, k: nat): (r: VM)
    requires k <= |w.stack|
    ensures var n := |w.stack|;
      && r.nilAddr.Some?
      && |r.stack| == n - k + 1
      && r.stack[..n - k] == w.stack[..n - k]
      && ListAt(r.heap, Last(r.stack), w.stack[n - k..], r.nilAddr.value)
      && r.frames == w.frames && r.ip == w.ip && r.staged == w.staged
      && Extends(w.heap, r.heap)
      && r.trueAddr == w.trueAddr && r.falseAddr == w.falseAddr
      && (w.nilAddr.Some? ==> r.nilAddr == w.nilAddr)
      && (w.nilAddr.None? ==> IsEmptyListCell(r.heap, r.nilAddr.value))
  {
    var e := EmptyListAddress(w);
    var u := e.1;
    var n := |u.stack|;
    var xs := u.stack[n - k..];
    var chain := BuildChain(u.heap, xs, e.0);
    BuildChainIsList(u.heap, xs, e.0);
    ExtendsKeeps(u.heap, chain.1, e.0);
    var res := u.(heap := chain.1, stack := u.stack[..n - k] + [chain.0]);
    assert Last(res.stack) == chain.0;
    assert res.stack[..n - k] == u.stack[..n - k];
    res
  }

  function Nat(i: int): nat {
    if i < 0 then 0 else i
  }

  /** PUSH_LOCAL: push the binding of the operand name in the innermost frame only. */
  function ExecPushLocal(vm: VM): (r: Result<VM, VmError>)
    requires vm.ip < |vm.heap| && vm.heap[vm.ip].Code?
    ensures var name := vm.heap[vm.ip].tok;
      && (r.Success? <==> |vm.frames| > 0 && name in Top(vm).locals)
      && (r.Success? ==> r.value == vm.(ip := vm.ip + 1, stack := vm.stack + [Top(vm).locals[name]]))
      && (r.Failure? && |vm.frames| > 0 ==> r.error == VariableUndefined(name))
  {
    var name := vm.heap[vm.ip].tok;
    if |vm.frames| == 0 then Failure(NoFrame)
    else if name in Top(vm).locals then Success(Push(vm.(ip := vm.ip + 1), Top(vm).locals[name]))
    else Failure(VariableUndefined(name))
  }

  /** PUSH_REMOTE: push the binding from the innermost frame that defines the operand name. */
  function ExecPushRemote(vm: VM): (r: Result<VM, VmError>)
    requires vm.ip < |vm.heap| && vm.heap[vm.ip].Code?
    ensures var name := vm.heap[vm.ip].tok;
      && (r.Success? <==> exists k :: 0 <= k < |vm.frames| && name in vm.frames[k].locals)
      && (r.Failure? ==> r.error == VariableUndefined(name))
      && (r.Success? ==>
            (exists k :: (0 <= k < |vm.frames| && name in vm.frames[k].locals
              && (forall j :: k < j < |vm.frames| ==> name !in vm.frames[j].locals)
              && r.value == vm.(ip := vm.ip + 1, stack := vm.stack + [vm.frames[k].locals[name]]))))
  {
    var name := vm.heap[vm.ip].tok;
    match FindRemote(vm.frames, name)
    case None => Failure(VariableUndefined(name))
    case Some(a) => Success(Push(vm.(ip := vm.ip + 1), a))
  }

  /** PUSH_ARG: remove the front of the innermost frame's pending arguments and push it. */
  function ExecPushArg(vm: VM): (r: Result<VM, VmError>)
    ensures r.Success? <==> |vm.frames| > 0 && |Top(vm).args| > 0
    ensures r.Success? ==>
      var f := Top(vm);
      r.value == vm.(stack := vm.stack + [f.args[0]], frames := SetTop(vm.frames, f.(args := f.args[1..])))
  {
    if |vm.frames| == 0 then Failure(NoFrame)
    else if |Top(vm).args| == 0 then Failure(EmptyQueue)
    else
      var f := Top(vm);
      Success(vm.(stack := vm.stack + [f.args[0]], frames := SetTop(vm.frames, f.(args := f.args[1..]))))
  }

  /**
   * PUSH_ARGS: drain the innermost frame's pending arguments into a new list,
   * in order, and push its address; no pending arguments push the empty list.
   */
  function ExecPushArgs(vm: VM): (r: Result<VM, VmError>)
    ensures r.Success? <==> |vm.frames| > 0
    ensures r.Success? ==>
      && r.value.nilAddr.Some?
      && |r.value.stack| == |vm.stack| + 1 && r.value.stack[..|vm.stack|] == vm.stack
      && ListAt(r.value.heap, Last(r.value.stack), Top(vm).args, r.value.nilAddr.value)
      && r.value.frames == SetTop(vm.frames, Top(vm).(args := []))
      && Extends(vm.heap, r.value.heap) && r.value.ip == vm.ip
  {
    if |vm.frames| == 0 then Failure(NoFrame)
    else
      var e := EmptyListAddress(vm);
      var f := Top(vm);
      var chain := BuildChain(e.1.heap, f.args, e.0);
      BuildChainIsList(e.1.heap, f.args, e.0);
      assert (vm.stack + [chain.0])[..|vm.stack|] == vm.stack;
      Success(e.1.(heap := chain.1, stack := vm.stack + [chain.0],
                   frames := SetTop(vm.frames, f.(args := []))))
  }

  /**
   * The address PUSH_ARGS pushes as the source writes it, `None` standing for
   * nil: the result starts out nil and only the loop over the pending
   * arguments replaces it, so with none pending nil is pushed, not the empty
   * list the loop would have ended its chain with.
   */
  function PushArgsAsWritten(vm: VM): (r: Result<Option<nat>, VmError>)
    ensures r.Success? <==> |vm.frames| > 0
    ensures r.Success? ==> (r.value.None? <==> |Top(vm).args| == 0)
  {
    if |vm.frames| == 0 then Failure(NoFrame)
    else
      var e := EmptyListAddress(vm);
      var f := Top(vm);
      if |f.args| == 0 then Success(None)
      else Success(Some(BuildChain(e.1.heap, f.args, e.0).0))
  }

  /** PUSH_FUNC: push the address just after the opcode, resume after the matching ENDF. */
  function ExecPushFunc(vm: VM): (r: Result<VM, VmError>)
    ensures r.Success? <==> SkipBody(vm.heap, vm.ip, 0).Success?
    ensures r.Success? ==> r.value == vm.(stack := vm.stack + [vm.ip], ip := SkipBody(vm.heap, vm.ip, 0).value)
  {
    var end :- SkipBody(vm.heap, vm.ip, 0);
    Success(vm.(stack := vm.stack + [vm.ip], ip := end))
  }

  /** POP: drop the top address; an empty stack is left as it is. */
  function ExecPop(vm: VM): (r: VM)
    ensures |vm.stack| > 0 ==> r == vm.(stack := DropLast(vm.stack))
    ensures |vm.stack| == 0 ==> r == vm
  {
    if |vm.stack| == 0 then vm else vm.(stack := DropLast(vm.stack))
  }

  /** Pops two addresses (right operand first) and dereferences both. */
  function PopTwoCells(vm: VM): (r: Result<(Cell, Cell, VM), VmError>)
    ensures r.Success? <==> (|vm.stack| >= 2
      && (forall i :: |vm.stack| - 2 <= i < |vm.stack| ==> vm.stack[i] < |vm.heap| && !vm.heap[vm.stack[i]].Empty?))
    ensures r.Success? ==>
      var n := |vm.stack|;
      r.value == (vm.heap[vm.stack[n - 2]], vm.heap[vm.stack[n - 1]], vm.(stack := vm.stack[..n - 2]))
  {
    var right :- PopCell(vm);
    var left :- PopCell(right.1);
    assert left.1.stack == vm.stack[..|vm.stack| - 2];
    Success((left.0, right.0, left.1))
  }

  predicate IsInt(c: Cell) {
    c.Val? && c.v.Integer?
  }

  /** ADD / SUB: integer arithmetic on the two top values, result in a new cell. */
  function ExecArith(vm: VM, add: bool): (r: Result<VM, VmError>)
    ensures r.Success? <==> PopTwoCells(vm).Success? && IsInt(PopTwoCells(vm).value.0) && IsInt(PopTwoCells(vm).value.1)
    ensures r.Success? ==>
      var n := |vm.stack|;
      var x := vm.heap[vm.stack[n - 2]].v.n;
      var y := vm.heap[vm.stack[n - 1]].v.n;
      var a := Alloc(vm.heap);
      && r.value == vm.(heap := r.value.heap, stack := vm.stack[..n - 2] + [a])
      && a < |r.value.heap| && r.value.heap[a] == Val(Integer(if add then x + y else x - y))
      && Extends(vm.heap, r.value.heap)
  {
    var p :- PopTwoCells(vm);
    if IsInt(p.0) && IsInt(p.1) then
      Success(PushVal(p.2, Integer(if add then p.0.v.n + p.1.v.n else p.0.v.n - p.1.v.n)))
    else Failure(TypeMismatch)
  }

  /** The relation an integer comparison instruction tests, left operand first. */
  function Relation(op: Opcode, x: int, y: int): bool
    requires op in {CmpGt, CmpGte, CmpLt, CmpLte}
  {
    match op
    case CmpGt => x > y
    case CmpGte => x >= y
    case CmpLt => x < y
    case CmpLte => x <= y
  }

  /** Pushing a boolean result: the top becomes the matching singleton, nothing else moves. */
  predicate PushedBool(vm: VM, r: VM, rest: seq<nat>, b: bool) {
    && |r.stack| == |rest| + 1 && r.stack[..|rest|] == rest
    && (b ==> r.trueAddr.Some? && Last(r.stack) == r.trueAddr.value)
    && (!b ==> r.falseAddr.Some? && Last(r.stack) == r.falseAddr.value)
    && r.frames == vm.frames && r.ip == vm.ip && r.staged == vm.staged
    && Extends(vm.heap, r.heap)
  }

  /** CMP_GT / CMP_GTE / CMP_LT / CMP_LTE: compare two integers, push #t or #f. */
  function ExecCompare(op: Opcode, vm: VM): (r: Result<VM, VmError>)
    requires op in {CmpGt, CmpGte, CmpLt, CmpLte}
    ensures r.Success? <==> PopTwoCells(vm).Success? && IsInt(PopTwoCells(vm).value.0) && IsInt(PopTwoCells(vm).value.1)
    ensures r.Success? ==>
      var n := |vm.stack|;
      PushedBool(vm, r.value, vm.stack[..n - 2],
                 Relation(op, vm.heap[vm.stack[n - 2]].v.n, vm.heap[vm.stack[n - 1]].v.n))
  {
    var p :- PopTwoCells(vm);
    if IsInt(p.0) && IsInt(p.1) then
      var b := Relation(op, p.0.v.n, p.1.v.n);
      assert (p.2.stack + [0])[..|p.2.stack|] == p.2.stack;
      Success(PushBool(p.2, b))
    else Failure(TypeMismatch)
  }

  /** CMP_EQ: push #t exactly when the two dereferenced cells are equal. */
  function ExecCmpEq(vm: VM): (r: Result<VM, VmError>)
    ensures r.Success? <==> PopTwoCells(vm).Success?
    ensures r.Success? ==>
      var n := |vm.stack|;
      PushedBool(vm, r.value, vm.stack[..n - 2], vm.heap[vm.stack[n - 2]] == vm.heap[vm.stack[n - 1]])
  {
    var p :- PopTwoCells(vm);
    assert (p.2.stack + [0])[..|p.2.stack|] == p.2.stack;
    Success(PushBool(p.2, p.0 == p.1))
  }

  /** CMP_NULL: push #t exactly when the top value is the empty list. */
  function ExecCmpNull(vm: VM): (r: Result<VM, VmError>)
    ensures r.Success? <==> PopCell(vm).Success?
    ensures r.Success? ==>
      PushedBool(vm, r.value, DropLast(vm.stack), vm.heap[Last(vm.stack)] == Val(EmptyList))
  {
    var p :- PopCell(vm);
    assert (p.1.stack + [0])[..|p.1.stack|] == p.1.stack;
    Success(PushBool(p.1, p.0 == Val(EmptyList)))
  }

  /** DUP: push the top address again. */
  function ExecDup(vm: VM): (r: Result<VM, VmError>)
    ensures r.Success? <==> |vm.stack| > 0
    ensures r.Success? ==> r.value == vm.(stack := vm.stack + [Last(vm.stack)])
  {
    if |vm.stack| == 0 then Failure(EmptyStack) else Success(Push(vm, Last(vm.stack)))
  }

  /**
   * INT: operand 1 hands the top address (if any) to the output; operand 2
   * pops it and hands over its cell; any other operand does nothing.
   */
  function ExecInt(vm: VM): (r: Result<VM, VmError>)
    requires vm.ip < |vm.heap| && vm.heap[vm.ip].Code?
    ensures var code := AsInteger(vm.heap[vm.ip].tok);
      && (code == Some(IntPrint) ==> r == Success(vm.(ip := vm.ip + 1,
            out := vm.out + [AddressOut(if |vm.stack| == 0 then None else Some(Last(vm.stack)))])))
      && (code == Some(IntPrintVal) && |vm.stack| == 0 ==> r == Success(vm.(ip := vm.ip + 1, out := vm.out + [CellOut(None)])))
      && (code == Some(IntPrintVal) && |vm.stack| > 0 ==>
            (r.Success? <==> Resolve(vm.heap, Last(vm.stack)).Some?)
            && (r.Success? ==> r.value == vm.(ip := vm.ip + 1, stack := DropLast(vm.stack),
                                              out := vm.out + [CellOut(Some(vm.heap[Last(vm.stack)]))])))
      && (code != Some(IntPrint) && code != Some(IntPrintVal) ==> r == Success(vm.(ip := vm.ip + 1)))
  {
    var w := vm.(ip := vm.ip + 1);
    match AsInteger(vm.heap[vm.ip].tok)
    case Some(c) =>
      if c == IntPrint then
        Success(w.(out := w.out + [AddressOut(if |w.stack| == 0 then None else Some(Last(w.stack)))]))
      else if c == IntPrintVal then
        if |w.stack| == 0 then Success(w.(out := w.out + [CellOut(None)]))
        else match Resolve(w.heap, Last(w.stack))
          case None => Failure(InvalidAddress)
          case Some(cell) => Success(w.(stack := DropLast(w.stack), out := w.out + [CellOut(Some(cell))]))
      else Success(w)
    case None => Success(w)
  }

  /** JUMP n: the instruction pointer becomes the operand's own index plus n. */
  function ExecJump(vm: VM): (r: Result<VM, VmError>)
    ensures r.Success? <==> (vm.ip < |vm.heap| && vm.heap[vm.ip].Code? && ToI(vm.heap[vm.ip].tok).Some?
                             && vm.ip + ToI(vm.heap[vm.ip].tok).value >= 0)
    ensures r.Success? ==> r.value == vm.(ip := vm.ip + ToI(vm.heap[vm.ip].tok).value)
  {
    var p :- Operand(vm);
    match ToI(p.0)
    case None => Failure(Malformed)
    case Some(count) =>
      var target := p.1.ip + (count - 1);
      if target < 0 then Failure(NegativeJump) else Success(p.1.(ip := target))
  }

  /**
   * JUMP_IF_FALSE n: pop the condition; jump as JUMP does exactly when the
   * popped address is the #f singleton, otherwise continue after the operand.
   */
  function ExecJumpIfFalse(vm: VM): (r: Result<VM, VmError>)
    ensures r.Success? <==> (vm.ip < |vm.heap| && vm.heap[vm.ip].Code? && ToI(vm.heap[vm.ip].tok).Some?
      && (|vm.stack| > 0 && Last(vm.stack) == FalseAddress(vm).0 ==> vm.ip + ToI(vm.heap[vm.ip].tok).value >= 0))
    ensures r.Success? ==>
      var f := FalseAddress(vm);
      var jumps := |vm.stack| > 0 && Last(vm.stack) == f.0;
      && r.value.ip == (if jumps then vm.ip + ToI(vm.heap[vm.ip].tok).value else vm.ip + 1)
      && r.value == f.1.(ip := r.value.ip, stack := if |vm.stack| > 0 then DropLast(vm.stack) else vm.stack)
  {
    var cond := if |vm.stack| == 0 then None else Some(Last(vm.stack));
    var w := vm.(stack := if |vm.stack| == 0 then vm.stack else DropLast(vm.stack));
    var p :- Operand(w);
    match ToI(p.0)
    case None => Failure(Malformed)
    case Some(count) =>
      var f := FalseAddress(p.1);
      assert f.0 == FalseAddress(vm).0;
      if cond == Some(f.0) then
        var target := p.1.ip + (count - 1);
        if target < 0 then Failure(NegativeJump) else Success(f.1.(ip := target))
      else Success(f.1)
  }

  /** Enters a function: push a frame for the staged arguments, then jump to the popped address. */
  function Enter(vm: VM, args: seq<nat>): (r: Result<VM, VmError>)
    ensures r.Success? <==> |vm.frames| + 1 <= MaxCallDepth && |vm.stack| > 0
    ensures |vm.frames| + 1 > MaxCallDepth ==> r == Failure(CallStackTooDeep)
    ensures r.Success? ==> r.value == vm.(frames := vm.frames + [Frame(Some(vm.ip), map[], args)],
                                          ip := Last(vm.stack), stack := DropLast(vm.stack))
  {
    var frames := vm.frames + [Frame(Some(vm.ip), map[], args)];
    if |frames| > MaxCallDepth then Failure(CallStackTooDeep)
    else if |vm.stack| == 0 then Failure(EmptyStack)
    else Success(vm.(frames := frames, ip := Last(vm.stack), stack := DropLast(vm.stack)))
  }

  /** CALL: enter the popped function with the staged arguments as its pending arguments. */
  function ExecCall(vm: VM): (r: Result<VM, VmError>)
    ensures r.Success? <==> |vm.frames| < MaxCallDepth && |vm.stack| > 0
    ensures |vm.frames| >= MaxCallDepth ==> r == Failure(CallStackTooDeep)
    ensures r.Success? ==> r.value == vm.(frames := vm.frames + [Frame(Some(vm.ip), map[], vm.staged)],
                                          ip := Last(vm.stack), stack := DropLast(vm.stack))
  {
    Enter(vm, vm.staged)
  }

  /** The staged arguments with the last one, a list, replaced by that list's elements. */
  function SpreadLast(vm: VM): (r: Result<seq<nat>, VmError>)
    ensures r.Success? ==> |vm.staged| > 0 && Resolve(vm.heap, Last(vm.staged)).Some?
    ensures r.Success? ==> exists xs :: ReadList(vm.heap, Last(vm.staged), |vm.heap|) == Some(xs)
                                       && r.value == DropLast(vm.staged) + xs
    ensures forall xs, nil :: |vm.staged| > 0 && ListAt(vm.heap, Last(vm.staged), xs, nil) && IsEmptyListCell(vm.heap, nil)
              ==> r == Success(DropLast(vm.staged) + xs)
  {
    if |vm.staged| == 0 then Failure(EmptyQueue)
    else
      var l := Last(vm.staged);
      if Resolve(vm.heap, l).None? then Failure(InvalidAddress)
      else
        ReadListAll(vm.heap, l);
        match ReadList(vm.heap, l, |vm.heap|)
        case None => Failure(TypeMismatch)
        case Some(xs) => Success(DropLast(vm.staged) + xs)
  }

  lemma {:induction false} ReadListAll(h: Mem, l: nat)
    ensures forall xs, nil :: ListAt(h, l, xs, nil) && IsEmptyListCell(h, nil) ==> ReadList(h, l, |h|) == Some(xs)
  {
    forall xs, nil | ListAt(h, l, xs, nil) && IsEmptyListCell(h, nil)
      ensures ReadList(h, l, |h|) == Some(xs)
    {
      ChainShorterThanHeap(h, l, xs, nil);
      ReadListOfChain(h, l, xs, nil, |h|);
    }
  }

  /** APPLY: spread the last staged argument's list into the staged arguments, then CALL. */
  function ExecApply(vm: VM): (r: Result<VM, VmError>)
    ensures r.Success? <==> SpreadLast(vm).Success? && |vm.frames| < MaxCallDepth && |vm.stack| > 0
    ensures r.Success? ==>
      var args := SpreadLast(vm).value;
      r.value == vm.(staged := args, frames := vm.frames + [Frame(Some(vm.ip), map[], args)],
                     ip := Last(vm.stack), stack := DropLast(vm.stack))
  {
    var args :- SpreadLast(vm);
    Enter(vm.(staged := args), args)
  }

  /** RETURN: pop the innermost frame and resume at its return address. */
  function ExecReturn(vm: VM): (r: Result<VM, VmError>)
    ensures r.Success? <==> |vm.frames| > 1 && Top(vm).ret.Some?
    ensures r.Success? ==> r.value == vm.(ip := Top(vm).ret.value, frames := vm.frames[..|vm.frames| - 1])
  {
    if |vm.frames| <= 1 || Top(vm).ret.None? then Failure(NoReturnAddress)
    else Success(vm.(ip := Top(vm).ret.value, frames := vm.frames[..|vm.frames| - 1]))
  }

  /** SET_LOCAL name: pop an address and bind it to `name` in the innermost frame only. */
  function ExecSetLocal(vm: VM): (r: Result<VM, VmError>)
    requires vm.ip < |vm.heap| && vm.heap[vm.ip].Code?
    ensures r.Success? <==> |vm.stack| > 0 && |vm.frames| > 0
    ensures r.Success? ==>
      var f := Top(vm);
      && r.value == vm.(ip := vm.ip + 1, stack := DropLast(vm.stack),
            frames := SetTop(vm.frames, f.(locals := f.locals[vm.heap[vm.ip].tok := Last(vm.stack)])))
  {
    var name := vm.heap[vm.ip].tok;
    var a :- Pop(vm.(ip := vm.ip + 1));
    if |vm.frames| == 0 then Failure(NoFrame)
    else
      var f := Top(vm);
      Success(a.1.(frames := SetTop(vm.frames, f.(locals := f.locals[name := a.0]))))
  }

  /** SET_ARGS: pop a count (freeing its cell), then stage that many addresses in call order. */
  function ExecSetArgs(vm: VM): (r: Result<VM, VmError>)
    ensures r.Success? <==> PopRaw(vm).Success? && Nat(TopCount(vm)) + 1 <= |vm.stack|
    ensures r.Success? ==>
      var k := Nat(TopCount(vm));
      var n := |vm.stack| - 1;
      && r.value.staged == vm.stack[n - k..n]
      && r.value.stack == vm.stack[..n - k]
      && r.value == vm.(staged := r.value.staged, stack := r.value.stack, heap := vm.heap[Last(vm.stack) := Empty])
  {
    var c :- PopRaw(vm);
    var xs :- PopN(c.1, Nat(c.0));
    Success(xs.1.(staged := xs.0))
  }

  // ---------------------------------------------------------------- dispatch

  /** The state change of one table instruction other than HALT, the machine's `case` dispatch. */
  function Next(op: Opcode, vm: VM): Result<VM, VmError>
    requires InTable(op) && op != Halt
  {
    match op
    case PushAtom => ExecPushLiteral(op, vm)
    case PushNum => ExecPushLiteral(op, vm)
    case PushStr => ExecPushLiteral(op, vm)
    case PushTrue => Success(ExecPushBool(vm, true))
    case PushFalse => Success(ExecPushBool(vm, false))
    case PushCar => ExecPairField(vm, true)
    case PushCdr => ExecPairField(vm, false)
    case PushCons => ExecPushCons(vm)
    case PushList => ExecPushList(vm)
    case PushLocal => if Operand(vm).Failure? then Failure(Malformed) else ExecPushLocal(vm)
    case PushRemote => if Operand(vm).Failure? then Failure(Malformed) else ExecPushRemote(vm)
    case PushArg => ExecPushArg(vm)
    case PushArgs => ExecPushArgs(vm)
    case PushFunc => ExecPushFunc(vm)
    case Pop => Success(ExecPop(vm))
    case Add => ExecArith(vm, true)
    case Sub => ExecArith(vm, false)
    case CmpGt => ExecCompare(op, vm)
    case CmpGte => ExecCompare(op, vm)
    case CmpLt => ExecCompare(op, vm)
    case CmpLte => ExecCompare(op, vm)
    case CmpEq => ExecCmpEq(vm)
    case CmpNull => ExecCmpNull(vm)
    case Dup => ExecDup(vm)
    case Int => if Operand(vm).Failure? then Failure(Malformed) else ExecInt(vm)
    case Jump => ExecJump(vm)
    case JumpIfFalse => ExecJumpIfFalse(vm)
    case Call => ExecCall(vm)
    case Apply => ExecApply(vm)
    case Return => ExecReturn(vm)
    case SetLocal => if Operand(vm).Failure? then Failure(Malformed) else ExecSetLocal(vm)
    case SetArgs => ExecSetArgs(vm)
    case _ => Success(vm)  // ENDF and DEBUG change no state
  }

  /** Runs one table instruction; `vm.ip` is already past the opcode. */
  function Exec(op: Opcode, vm: VM): (r: Result<Status, VmError>)
    ensures !InTable(op) ==> r == Failure(NoSemantics(op))
    ensures op == Halt ==> r == Success(Stopped(vm))
    ensures r.Success? && op != Halt ==> r.value.Running?
  {
    if !InTable(op) then Failure(NoSemantics(op))
    else if op == Halt then Success(Stopped(vm))
    else match Next(op, vm)
      case Success(v) => Success(Running(v))
      case Failure(e) => Failure(e)
  }

  /**
   * One fetch-decode-execute step. An empty or missing cell ends the run; a
   * value cell, or a token that names no opcode, is stepped over.
   */
  function Step(vm: VM): (r: Result<Status, VmError>)
    ensures vm.ip >= |vm.heap| || vm.heap[vm.ip].Empty? ==> r == Success(Stopped(vm.(ip := vm.ip + 1)))
    ensures vm.ip < |vm.heap| && vm.heap[vm.ip].Code? && Decode(vm.heap[vm.ip].tok).Some? ==>
              r == Exec(Decode(vm.heap[vm.ip].tok).value, vm.(ip := vm.ip + 1))
    ensures vm.ip < |vm.heap| && (vm.heap[vm.ip].Val? || (vm.heap[vm.ip].Code? && Decode(vm.heap[vm.ip].tok).None?)) ==>
              r == Success(Running(vm.(ip := vm.ip + 1)))
  {
    if vm.ip >= |vm.heap| || vm.heap[vm.ip].Empty? then Success(Stopped(vm.(ip := vm.ip + 1)))
    else if vm.heap[vm.ip].Val? then Success(Running(vm.(ip := vm.ip + 1)))
    else match Decode(vm.heap[vm.ip].tok)
      case None => Success(Running(vm.(ip := vm.ip + 1)))
      case Some(op) => Exec(op, vm.(ip := vm.ip + 1))
  }

  /** Steps until the machine stops, fails, or `fuel` steps have been taken. */
  function Run(vm: VM, fuel: nat): (r: Result<Status, VmError>)
    ensures fuel == 0 ==> r == Success(Running(vm))
    decreases fuel, 1
  {
    if fuel == 0 then Success(Running(vm)) else Continue(vm, fuel)
  }

  /** One turn of the execute loop: step, then stop, fail, or run on with one less step. */
  function Continue(vm: VM, fuel: nat): Result<Status, VmError>
    requires fuel > 0
    decreases fuel, 0
  {
    match Step(vm)
      case Failure(e) => Failure(e)
      case Success(Stopped(v)) => Success(Stopped(v))
      case Success(Running(v)) => Run(v, fuel - 1)
  }

  /**
   * One turn of the execute loop pushes the address just after the current
   * token and resumes at `target`.
   */
  predicate PushesAndJumps(vm: VM, target: nat) {
    Run(vm, 1) == Success(Running(vm.(stack := vm.stack + [vm.ip + 1], ip := target)))
  }

  /** `execute(code)`: append the code, start at its first token, run. */
  function Execute(vm: VM, code: seq<Token>, fuel: nat): Result<Status, VmError> {
    Run(Load(vm, code), fuel)
  }
}
