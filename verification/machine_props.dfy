/**
 * Properties of the machine that relate several handlers or several steps:
 * the singleton invariant every step keeps, the round trips between the list
 * and argument instructions, binding and lookup, call and return, and the
 * structural skip over nested function bodies.
 */
module MachineProps {
  import opened Wrappers
  import opened Bytecode
  import opened Heap
  import opened Machine

  // ---------------------------------------------------------------- the state invariant

  /** A memoised singleton address, when there is one, holds its value. */
  predicate Holds(h: Mem, memo: Option<nat>, v: Value) {
    memo.Some? ==> memo.value < |h| && h[memo.value] == Val(v)
  }

  /**
   * The invariant of a running machine: the three singletons hold #t, #f and
   * (), and the top-level frame is never popped.
   */
  predicate Valid(vm: VM) {
    && Holds(vm.heap, vm.trueAddr, BoolTrue)
    && Holds(vm.heap, vm.falseAddr, BoolFalse)
    && Holds(vm.heap, vm.nilAddr, EmptyList)
    && |vm.frames| >= 1
  }

  lemma {:induction false} HoldsExtends(h: Mem, h': Mem, memo: Option<nat>, v: Value)
    requires Holds(h, memo, v) && Extends(h, h')
    ensures Holds(h', memo, v)
  {
    if memo.Some? {
      ExtendsKeeps(h, h', memo.value);
    }
  }

  /** Freeing a cell that holds an integer cannot disturb a singleton. */
  lemma {:induction false} HoldsFree(h: Mem, a: nat, memo: Option<nat>, v: Value)
    requires Holds(h, memo, v) && !v.Integer?
    requires a < |h| && h[a].Val? && h[a].v.Integer?
    ensures Holds(h[a := Empty], memo, v)
  {
  }

  /** The three singletons survive a heap that only grows. */
  lemma {:induction false} ValidExtends(vm: VM, w: VM)
    requires Valid(vm) && Extends(vm.heap, w.heap)
    requires w.trueAddr == vm.trueAddr && w.falseAddr == vm.falseAddr && w.nilAddr == vm.nilAddr
    requires |w.frames| >= 1
    ensures Valid(w)
  {
    HoldsExtends(vm.heap, w.heap, vm.trueAddr, BoolTrue);
    HoldsExtends(vm.heap, w.heap, vm.falseAddr, BoolFalse);
    HoldsExtends(vm.heap, w.heap, vm.nilAddr, EmptyList);
  }

  /** Looking up a singleton twice yields the same address and the same machine. */
  lemma {:induction false} SingletonsMemoised(vm: VM)
    ensures TrueAddress(TrueAddress(vm).1) == TrueAddress(vm)
    ensures FalseAddress(FalseAddress(vm).1) == FalseAddress(vm)
    ensures EmptyListAddress(EmptyListAddress(vm).1) == EmptyListAddress(vm)
  {
  }

  lemma {:induction false} TrueAddressValid(vm: VM)
    requires Valid(vm)
    ensures Valid(TrueAddress(vm).1)
    ensures TrueAddress(vm).1.heap[TrueAddress(vm).0] == Val(BoolTrue)
  {
    var t := TrueAddress(vm);
    HoldsExtends(vm.heap, t.1.heap, vm.falseAddr, BoolFalse);
    HoldsExtends(vm.heap, t.1.heap, vm.nilAddr, EmptyList);
  }

  lemma {:induction false} FalseAddressValid(vm: VM)
    requires Valid(vm)
    ensures Valid(FalseAddress(vm).1)
    ensures FalseAddress(vm).1.heap[FalseAddress(vm).0] == Val(BoolFalse)
  {
    var f := FalseAddress(vm);
    HoldsExtends(vm.heap, f.1.heap, vm.trueAddr, BoolTrue);
    HoldsExtends(vm.heap, f.1.heap, vm.nilAddr, EmptyList);
  }

  lemma {:induction false} PushBoolValid(vm: VM, b: bool)
    requires Valid(vm)
    ensures Valid(PushBool(vm, b))
  {
    if b { TrueAddressValid(vm); } else { FalseAddressValid(vm); }
  }

  lemma {:induction false} PushListValid(vm: VM)
    requires Valid(vm) && ExecPushList(vm).Success?
    ensures Valid(ExecPushList(vm).value)
  {
    var r := ExecPushList(vm).value;
    var a := Last(vm.stack);
    var h0 := vm.heap[a := Empty];
    HoldsFree(vm.heap, a, vm.trueAddr, BoolTrue);
    HoldsFree(vm.heap, a, vm.falseAddr, BoolFalse);
    HoldsExtends(h0, r.heap, vm.trueAddr, BoolTrue);
    HoldsExtends(h0, r.heap, vm.falseAddr, BoolFalse);
    if vm.nilAddr.Some? {
      HoldsFree(vm.heap, a, vm.nilAddr, EmptyList);
      HoldsExtends(h0, r.heap, vm.nilAddr, EmptyList);
    }
  }

  lemma {:induction false} PushArgsValid(vm: VM)
    requires Valid(vm) && ExecPushArgs(vm).Success?
    ensures Valid(ExecPushArgs(vm).value)
  {
    var e := EmptyListAddress(vm);
    HoldsExtends(vm.heap, e.1.heap, vm.trueAddr, BoolTrue);
    HoldsExtends(vm.heap, e.1.heap, vm.falseAddr, BoolFalse);
    var f := Top(vm);
    var chain := BuildChain(e.1.heap, f.args, e.0);
    assert ExecPushArgs(vm).value == e.1.(heap := chain.1, stack := vm.stack + [chain.0],
                                          frames := SetTop(vm.frames, f.(args := [])));
    ValidExtends(e.1, ExecPushArgs(vm).value);
  }

  lemma {:induction false} CompareValid(op: Opcode, vm: VM)
    requires op in {CmpGt, CmpGte, CmpLt, CmpLte}
    requires Valid(vm) && ExecCompare(op, vm).Success?
    ensures Valid(ExecCompare(op, vm).value)
  {
    var p := PopTwoCells(vm).value;
    PushBoolValid(p.2, Relation(op, p.0.v.n, p.1.v.n));
  }

  lemma {:induction false} JumpIfFalseValid(vm: VM)
    requires Valid(vm) && ExecJumpIfFalse(vm).Success?
    ensures Valid(ExecJumpIfFalse(vm).value)
  {
    FalseAddressValid(vm);
  }

  lemma {:induction false} ExecValid(op: Opcode, vm: VM)
    requires Valid(vm) && Exec(op, vm).Success?
    ensures Valid(Exec(op, vm).value.vm)
  {
    if InTable(op) && op != Halt {
      NextValid(op, vm);
    }
  }

  /** Each instruction's state change keeps the singleton invariant. */
  lemma {:induction false} NextValid(op: Opcode, vm: VM)
    requires Valid(vm) && InTable(op) && op != Halt && Next(op, vm).Success?
    ensures Valid(Next(op, vm).value)
  {
    if op in {PushAtom, PushNum, PushStr, PushCons, Add, Sub} {
      NextValidGrows(op, vm);
    } else if op in {PushTrue, PushFalse, CmpGt, CmpGte, CmpLt, CmpLte, CmpEq, CmpNull, JumpIfFalse} {
      NextValidBools(op, vm);
    } else if op in {PushList, PushArgs, SetArgs} {
      NextValidLists(op, vm);
    } else if op in {PushCar, PushCdr, PushLocal, PushRemote, PushArg, PushFunc} {
      NextValidReads(op, vm);
    } else if op in {Pop, Dup, Int, Jump} {
      NextValidPlain(op, vm);
    } else {
      NextValidFrames(op, vm);
    }
  }

  /** Instructions that only allocate. */
  lemma {:induction false} NextValidGrows(op: Opcode, vm: VM)
    requires Valid(vm) && op in {PushAtom, PushNum, PushStr, PushCons, Add, Sub} && Next(op, vm).Success?
    ensures Valid(Next(op, vm).value)
  {
    ValidExtends(vm, Next(op, vm).value);
  }

  /** Instructions that push or consult a boolean singleton. */
  lemma {:induction false} NextValidBools(op: Opcode, vm: VM)
    requires Valid(vm) && op in {PushTrue, PushFalse, CmpGt, CmpGte, CmpLt, CmpLte, CmpEq, CmpNull, JumpIfFalse}
    requires Next(op, vm).Success?
    ensures Valid(Next(op, vm).value)
  {
    if op == PushTrue || op == PushFalse {
      assert Next(op, vm) == Success(ExecPushBool(vm, op == PushTrue));
      PushBoolValid(vm, op == PushTrue);
    } else if op == JumpIfFalse {
      assert Next(op, vm) == ExecJumpIfFalse(vm);
      JumpIfFalseValid(vm);
    } else {
      NextValidCompares(op, vm);
    }
  }

  lemma {:induction false} NextValidCompares(op: Opcode, vm: VM)
    requires Valid(vm) && op in {CmpGt, CmpGte, CmpLt, CmpLte, CmpEq, CmpNull}
    requires Next(op, vm).Success?
    ensures Valid(Next(op, vm).value)
  {
    if op == CmpEq {
      NextValidCmpEq(vm);
    } else if op == CmpNull {
      NextValidCmpNull(vm);
    } else {
      NextValidRelation(op, vm);
    }
  }

  lemma {:induction false} NextValidCmpEq(vm: VM)
    requires Valid(vm) && Next(CmpEq, vm).Success?
    ensures Valid(Next(CmpEq, vm).value)
  {
    CmpEqValid(vm);
  }

  lemma {:induction false} NextValidCmpNull(vm: VM)
    requires Valid(vm) && Next(CmpNull, vm).Success?
    ensures Valid(Next(CmpNull, vm).value)
  {
    CmpNullValid(vm);
  }

  lemma {:induction false} NextValidRelation(op: Opcode, vm: VM)
    requires Valid(vm) && op in {CmpGt, CmpGte, CmpLt, CmpLte} && Next(op, vm).Success?
    ensures Valid(Next(op, vm).value)
  {
    CompareValid(op, vm);
  }

  lemma {:induction false} CmpEqValid(vm: VM)
    requires Valid(vm) && ExecCmpEq(vm).Success?
    ensures Valid(ExecCmpEq(vm).value)
  {
    var p := PopTwoCells(vm).value;
    assert ExecCmpEq(vm).value == PushBool(p.2, p.0 == p.1);
    PushBoolValid(p.2, p.0 == p.1);
  }

  lemma {:induction false} CmpNullValid(vm: VM)
    requires Valid(vm) && ExecCmpNull(vm).Success?
    ensures Valid(ExecCmpNull(vm).value)
  {
    var p := PopCell(vm).value;
    assert ExecCmpNull(vm).value == PushBool(p.1, p.0 == Val(EmptyList));
    PushBoolValid(p.1, p.0 == Val(EmptyList));
  }

  /** Instructions that free a list cell or build one. */
  lemma {:induction false} NextValidLists(op: Opcode, vm: VM)
    requires Valid(vm) && op in {PushList, PushArgs, SetArgs} && Next(op, vm).Success?
    ensures Valid(Next(op, vm).value)
  {
    if op == PushList {
      PushListValid(vm);
    } else if op == PushArgs {
      PushArgsValid(vm);
    } else {
      var a := Last(vm.stack);
      HoldsFree(vm.heap, a, vm.trueAddr, BoolTrue);
      HoldsFree(vm.heap, a, vm.falseAddr, BoolFalse);
      HoldsFree(vm.heap, a, vm.nilAddr, EmptyList);
    }
  }

  lemma {:induction false} NextValidReads(op: Opcode, vm: VM)
    requires Valid(vm) && op in {PushCar, PushCdr, PushLocal, PushRemote, PushArg, PushFunc} && Next(op, vm).Success?
    ensures Valid(Next(op, vm).value)
  {
  }

  lemma {:induction false} NextValidPlain(op: Opcode, vm: VM)
    requires Valid(vm) && op in {Pop, Dup, Int, Jump} && Next(op, vm).Success?
    ensures Valid(Next(op, vm).value)
  {
  }

  lemma {:induction false} NextValidFrames(op: Opcode, vm: VM)
    requires Valid(vm) && op in {Call, Apply, Return, SetLocal, Endf, Debug} && Next(op, vm).Success?
    ensures Valid(Next(op, vm).value)
  {
  }

  /** Every successful step keeps the singleton invariant and the top-level frame. */
  lemma {:induction false} StepValid(vm: VM)
    requires Valid(vm) && Step(vm).Success?
    ensures Valid(Step(vm).value.vm)
  {
    var w := vm.(ip := vm.ip + 1);
    assert Valid(w);
    if vm.ip < |vm.heap| && vm.heap[vm.ip].Code? && Decode(vm.heap[vm.ip].tok).Some? {
      var op := Decode(vm.heap[vm.ip].tok).value;
      assert Step(vm) == Exec(op, w);
      ExecValid(op, w);
    } else {
      assert Step(vm).value.vm == w;
    }
  }

  /** The outcome of a run, named so that its steps are unfolded only on request. */
  ghost function Outcome(vm: VM, fuel: nat): Result<Status, VmError> {
    Run(vm, fuel)
  }

  /** Every machine a successful run reaches, stopped or still running, keeps the invariant. */
  lemma {:induction false} RunValid(vm: VM, fuel: nat)
    requires Valid(vm) && Run(vm, fuel).Success?
    ensures Valid(Run(vm, fuel).value.vm)
  {
    OutcomeValid(vm, fuel);
  }

  lemma {:induction false} OutcomeValid(vm: VM, fuel: nat)
    requires Valid(vm) && Outcome(vm, fuel).Success?
    ensures Valid(Outcome(vm, fuel).value.vm)
    decreases fuel
  {
    if fuel > 0 {
      var v, stopped := RunNext(vm, fuel);
      if !stopped {
        OutcomeValid(v, fuel - 1);
      }
    }
  }

  /** The machine a run's first step leaves behind, which the invariant still holds of. */
  lemma {:induction false} RunNext(vm: VM, fuel: nat) returns (v: VM, stopped: bool)
    requires Valid(vm) && fuel > 0 && Outcome(vm, fuel).Success?
    ensures Valid(v)
    ensures stopped ==> Outcome(vm, fuel) == Success(Stopped(v))
    ensures !stopped ==> Outcome(vm, fuel) == Outcome(v, fuel - 1)
  {
    RunStep(vm, fuel);
    StepValid(vm);
    v := Step(vm).value.vm;
    stopped := Step(vm).value.Stopped?;
  }

  /** One step of a run: a stop ends it, a running machine goes on with one less step. */
  lemma {:induction false} RunStep(vm: VM, fuel: nat)
    requires fuel > 0 && Run(vm, fuel).Success?
    ensures Step(vm).Success?
    ensures Step(vm).value.Stopped? ==> Run(vm, fuel) == Step(vm)
    ensures Step(vm).value.Running? ==> Run(vm, fuel) == Run(Step(vm).value.vm, fuel - 1)
  {
    assert Run(vm, fuel) == Continue(vm, fuel);
  }

  // ---------------------------------------------------------------- lists and arguments

  /**
   * PUSH_LIST followed by APPLY: staging the list PUSH_LIST built as the last
   * argument and spreading it gives back the addresses PUSH_LIST popped, in
   * their push order, after the earlier staged arguments.
   */
  lemma {:induction false} PushListThenSpread(vm: VM, pre: seq<nat>)
    requires Valid(vm) && ExecPushList(vm).Success?
    ensures var w := ExecPushList(vm).value;
      var k := Nat(TopCount(vm));
      var n := |vm.stack| - 1;
      SpreadLast(w.(staged := pre + [Last(w.stack)])) == Success(pre + vm.stack[n - k..n])
  {
    var w := ExecPushList(vm).value;
    var k := Nat(TopCount(vm));
    var n := |vm.stack| - 1;
    PushListMakesList(vm);
    SpreadStagedList(w.(staged := pre + [Last(w.stack)]), pre, vm.stack[n - k..n], w.nilAddr.value);
  }

  /** What PUSH_LIST leaves on top is a proper list of the popped addresses, ending at the empty list. */
  lemma {:induction false} PushListMakesList(vm: VM)
    requires Valid(vm) && ExecPushList(vm).Success?
    ensures var w := ExecPushList(vm).value;
      var k := Nat(TopCount(vm));
      var n := |vm.stack| - 1;
      && |w.stack| > 0 && w.nilAddr.Some?
      && ListAt(w.heap, Last(w.stack), vm.stack[n - k..n], w.nilAddr.value)
      && IsEmptyListCell(w.heap, w.nilAddr.value)
  {
    PushListValid(vm);
  }

  /** Spreading a staged proper list appends its elements to the arguments staged before it. */
  lemma {:induction false} SpreadStagedList(u: VM, pre: seq<nat>, xs: seq<nat>, nil: nat)
    requires |u.staged| > 0 && DropLast(u.staged) == pre
    requires ListAt(u.heap, Last(u.staged), xs, nil) && IsEmptyListCell(u.heap, nil)
    ensures SpreadLast(u) == Success(pre + xs)
  {
  }

  /** `k` PUSH_ARG instructions in a row, stopping at the first failure. */
  function PushArgTimes(vm: VM, k: nat): (r: Result<VM, VmError>)
    ensures r.Success? ==> |r.value.frames| == |vm.frames|
    decreases k
  {
    if k == 0 then Success(vm)
    else
      var w :- ExecPushArg(vm);
      PushArgTimes(w, k - 1)
  }

  /**
   * PUSH_ARG hands the pending arguments over front first: `k` of them push
   * the first `k` arguments in order and leave the rest pending.
   */
  lemma {:induction false} PushArgInOrder(vm: VM, k: nat)
    requires |vm.frames| > 0 && k <= |Top(vm).args|
    ensures PushArgTimes(vm, k).Success?
    ensures var w := PushArgTimes(vm, k).value;
      && w.stack == vm.stack + Top(vm).args[..k]
      && Top(w).args == Top(vm).args[k..]
      && w.frames[..|vm.frames| - 1] == vm.frames[..|vm.frames| - 1]
    decreases k
  {
    if k > 0 {
      var f := Top(vm);
      var v := ExecPushArg(vm).value;
      assert Top(v).args == f.args[1..];
      PushArgInOrder(v, k - 1);
      var w := PushArgTimes(v, k - 1).value;
      assert PushArgTimes(vm, k).value == w;
      assert f.args[1..][..k - 1] == f.args[1..k];
      assert f.args[..k] == [f.args[0]] + f.args[1..k];
      assert f.args[1..][k - 1..] == f.args[k..];
      assert v.frames[..|vm.frames| - 1] == vm.frames[..|vm.frames| - 1];
    }
  }

  /** SET_ARGS, CALL, then PUSH_ARG for each argument: the callee sees the arguments in call order. */
  lemma {:induction false} SetArgsCallPushArgs(vm: VM)
    requires ExecSetArgs(vm).Success?
    requires var s := ExecSetArgs(vm).value; ExecCall(s).Success?
    ensures var k := Nat(TopCount(vm));
      var n := |vm.stack| - 1;
      var c := ExecCall(ExecSetArgs(vm).value).value;
      && PushArgTimes(c, k).Success?
      && PushArgTimes(c, k).value.stack == c.stack + vm.stack[n - k..n]
      && Top(PushArgTimes(c, k).value).args == []
  {
    var k := Nat(TopCount(vm));
    var n := |vm.stack| - 1;
    var c := ExecCall(ExecSetArgs(vm).value).value;
    assert Top(c).args == vm.stack[n - k..n];
    PushArgInOrder(c, k);
    assert Top(c).args[..k] == vm.stack[n - k..n];
  }

  /** PUSH_ARGS makes a list that APPLY spreads back into exactly the drained arguments. */
  lemma {:induction false} PushArgsThenSpread(vm: VM, pre: seq<nat>)
    requires Valid(vm) && ExecPushArgs(vm).Success?
    ensures var w := ExecPushArgs(vm).value;
      SpreadLast(w.(staged := pre + [Last(w.stack)])) == Success(pre + Top(vm).args)
  {
    var w := ExecPushArgs(vm).value;
    PushArgsValid(vm);
    var u := w.(staged := pre + [Last(w.stack)]);
    assert DropLast(u.staged) == pre;
  }

  /**
   * With no pending arguments the source's PUSH_ARGS pushes nil, so the rest
   * parameter of `((lambda args args))` is bound to nil and reading it back
   * fails as undefined. The corrected handler pushes the empty list instead.
   */
  lemma {:induction false} PushArgsEmptyQueue(vm: VM)
    requires Valid(vm) && Top(vm).args == []
    ensures PushArgsAsWritten(vm) == Success(None)
    ensures ExecPushArgs(vm).Success?
    ensures var w := ExecPushArgs(vm).value;
            Last(w.stack) < |w.heap| && w.heap[Last(w.stack)] == Val(EmptyList)
  {
    PushArgsValid(vm);
  }

  // ---------------------------------------------------------------- bindings

  /** A name bound in the innermost frame is found alike by PUSH_LOCAL and PUSH_REMOTE. */
  lemma {:induction false} LocalAgreesWithRemote(vm: VM)
    requires vm.ip < |vm.heap| && vm.heap[vm.ip].Code?
    requires |vm.frames| > 0 && vm.heap[vm.ip].tok in Top(vm).locals
    ensures ExecPushRemote(vm) == ExecPushLocal(vm)
  {
    assert FindRemote(vm.frames, vm.heap[vm.ip].tok) == Some(Top(vm).locals[vm.heap[vm.ip].tok]);
  }

  /**
   * SET_LOCAL then PUSH_LOCAL of the same name: the address just bound is the
   * one pushed back, and the enclosing frames are untouched.
   */
  lemma {:induction false} SetLocalThenPushLocal(vm: VM, q: nat)
    requires vm.ip < |vm.heap| && vm.heap[vm.ip].Code?
    requires ExecSetLocal(vm).Success?
    requires var w := ExecSetLocal(vm).value;
      q < |w.heap| && w.heap[q] == vm.heap[vm.ip]
    ensures var w := ExecSetLocal(vm).value;
      && ExecPushLocal(w.(ip := q)) == Success(w.(ip := q + 1, stack := vm.stack))
      && w.frames[..|vm.frames| - 1] == vm.frames[..|vm.frames| - 1]
  {
    var w := ExecSetLocal(vm).value;
    assert DropLast(vm.stack) + [Last(vm.stack)] == vm.stack;
  }

  /**
   * SET_LOCAL in a callee does not disturb the caller: once the callee binds
   * a name, PUSH_REMOTE of that name finds the callee's binding, and an outer
   * binding of another name is still found.
   */
  lemma {:induction false} SetLocalShadows(vm: VM, q: nat)
    requires vm.ip < |vm.heap| && vm.heap[vm.ip].Code?
    requires ExecSetLocal(vm).Success?
    requires var w := ExecSetLocal(vm).value;
      q < |w.heap| && w.heap[q] == vm.heap[vm.ip]
    ensures var w := ExecSetLocal(vm).value;
      ExecPushRemote(w.(ip := q)) == Success(w.(ip := q + 1, stack := vm.stack))
  {
    var w := ExecSetLocal(vm).value;
    SetLocalThenPushLocal(vm, q);
    LocalAgreesWithRemote(w.(ip := q));
  }

  // ---------------------------------------------------------------- calls

  /**
   * CALL then RETURN: whatever the callee did to its own frame, returning
   * from it restores the caller's frames and resumes just after the CALL.
   */
  lemma {:induction false} CallThenReturn(vm: VM, u: VM)
    requires |vm.frames| >= 1 && ExecCall(vm).Success?
    requires var c := ExecCall(vm).value;
      |u.frames| == |c.frames| && u.frames[..|vm.frames|] == vm.frames && Top(u).ret == Top(c).ret
    ensures ExecReturn(u).Success?
    ensures ExecReturn(u).value.ip == vm.ip && ExecReturn(u).value.frames == vm.frames
  {
  }

  /** The depth guard: a CALL from 1000 frames fails, one from fewer does not hit it. */
  lemma {:induction false} CallDepthGuard(vm: VM)
    ensures |vm.frames| >= MaxCallDepth ==> ExecCall(vm) == Failure(CallStackTooDeep)
    ensures |vm.frames| < MaxCallDepth && |vm.stack| > 0 ==> ExecCall(vm).Success?
  {
  }

  // ---------------------------------------------------------------- function bodies

  /** Structured code: a plain instruction with its operands, or a nested function body. */
  datatype Instr = Simple(op: Opcode, operands: seq<Token>) | Func(body: seq<Instr>)

  /** Flattens structured code; a body is wrapped in PUSH_FUNC ... ENDF. */
  function Encode(code: seq<Instr>): (ts: seq<Token>)
    decreases code
  {
    if |code| == 0 then []
    else EncodeOne(code[0]) + Encode(code[1..])
  }

  function EncodeOne(i: Instr): (ts: seq<Token>)
    ensures |ts| > 0
    decreases i, 1
  {
    match i
    case Simple(op, operands) => [Op(op)] + operands
    case Func(body) => [Op(PushFunc)] + Encode(body) + [Op(Endf)]
  }

  /** Table instructions other than the two brackets, each carrying exactly its operands. */
  predicate WellFormed(code: seq<Instr>)
    decreases code
  {
    forall k :: 0 <= k < |code| ==> WellFormedOne(code[k])
  }

  predicate WellFormedOne(i: Instr)
    decreases i, 1
  {
    match i
    case Simple(op, operands) => InTable(op) && op != PushFunc && op != Endf && |operands| == Arity(op)
    case Func(body) => WellFormed(body)
  }

  /** The heap holds the tokens `ts` as code from index `p` on. */
  predicate CodeAt(h: Mem, p: nat, ts: seq<Token>)
    decreases |ts|
  {
    if |ts| == 0 then p <= |h|
    else p < |h| && h[p] == Code(ts[0]) && CodeAt(h, p + 1, ts[1..])
  }

  lemma {:induction false} CodeAtSplit(h: Mem, p: nat, a: seq<Token>, b: seq<Token>)
    requires CodeAt(h, p, a + b)
    ensures CodeAt(h, p, a) && CodeAt(h, p + |a|, b)
    decreases |a|
  {
    if |a| > 0 {
      assert (a + b)[1..] == a[1..] + b;
      CodeAtSplit(h, p + 1, a[1..], b);
    } else {
      assert a + b == b;
      CodeAtBound(h, p, b);
    }
  }

  lemma {:induction false} CodeAtBound(h: Mem, p: nat, ts: seq<Token>)
    requires CodeAt(h, p, ts)
    ensures p + |ts| <= |h|
    decreases |ts|
  {
    if |ts| > 0 {
      CodeAtBound(h, p + 1, ts[1..]);
    }
  }

  /**
   * Skipping over well-formed code leaves the nesting depth as it was: the
   * walk from `p` reaches the end of `code` in the same state.
   */
  lemma {:induction false} SkipOver(h: Mem, p: nat, code: seq<Instr>, depth: nat)
    requires WellFormed(code) && CodeAt(h, p, Encode(code))
    ensures SkipBody(h, p, depth) == SkipBody(h, p + |Encode(code)|, depth)
    decreases code, 2
  {
    if |code| > 0 {
      var first := EncodeOne(code[0]);
      var rest := Encode(code[1..]);
      assert Encode(code) == first + rest;
      assert WellFormedOne(code[0]);
      CodeAtSplit(h, p, first, rest);
      SkipOverOne(h, p, code[0], depth);
      WellFormedTail(code);
      SkipOver(h, p + |first|, code[1..], depth);
    }
  }

  lemma {:induction false} WellFormedTail(code: seq<Instr>)
    requires |code| > 0 && WellFormed(code)
    ensures WellFormed(code[1..])
  {
    forall k | 0 <= k < |code[1..]| ensures WellFormedOne(code[1..][k]) {
      assert code[1..][k] == code[k + 1];
    }
  }

  lemma {:induction false} SkipOverOne(h: Mem, p: nat, i: Instr, depth: nat)
    requires WellFormedOne(i) && CodeAt(h, p, EncodeOne(i))
    ensures SkipBody(h, p, depth) == SkipBody(h, p + |EncodeOne(i)|, depth)
    decreases i, 1
  {
    match i
    case Simple(op, operands) => SkipSimple(h, p, op, operands, depth);
    case Func(body) =>
      FuncCodeAt(h, p, body);
      SkipFunc(h, p, body, depth);
  }

  lemma {:induction false} SkipFunc(h: Mem, p: nat, body: seq<Instr>, depth: nat)
    requires WellFormed(body) && CodeAt(h, p + 1, Encode(body))
    requires p + |Encode(body)| + 2 <= |h|
    requires h[p] == Code(Op(PushFunc)) && h[p + 1 + |Encode(body)|] == Code(Op(Endf))
    ensures SkipBody(h, p, depth) == SkipBody(h, p + |Encode(body)| + 2, depth)
    decreases body, 4
  {
    var e := p + 1 + |Encode(body)|;
    SkipBracket(h, p, PushFunc, depth);
    SkipOverTo(h, p + 1, body, depth + 1, e);
    SkipBracket(h, e, Endf, depth + 1);
  }

  /** `SkipOver`, with the end of the code named by the caller. */
  lemma {:induction false} SkipOverTo(h: Mem, p: nat, code: seq<Instr>, depth: nat, end: nat)
    requires WellFormed(code) && CodeAt(h, p, Encode(code)) && end == p + |Encode(code)|
    ensures SkipBody(h, p, depth) == SkipBody(h, end, depth)
    decreases code, 3
  {
    SkipOver(h, p, code, depth);
  }

  /** Where a function's brackets and body sit in the heap. */
  lemma {:induction false} FuncCodeAt(h: Mem, p: nat, body: seq<Instr>)
    requires CodeAt(h, p, EncodeOne(Func(body)))
    ensures |EncodeOne(Func(body))| == |Encode(body)| + 2
    ensures p + |Encode(body)| + 2 <= |h|
    ensures h[p] == Code(Op(PushFunc)) && h[p + 1 + |Encode(body)|] == Code(Op(Endf))
    ensures CodeAt(h, p + 1, Encode(body))
  {
    var enc := Encode(body);
    assert EncodeOne(Func(body)) == [Op(PushFunc)] + (enc + [Op(Endf)]);
    CodeAtSplit(h, p, [Op(PushFunc)], enc + [Op(Endf)]);
    CodeAtSplit(h, p + 1, enc, [Op(Endf)]);
    CodeAtBound(h, p, EncodeOne(Func(body)));
  }

  /** One plain instruction is skipped whole, operands included. */
  lemma {:induction false} SkipSimple(h: Mem, p: nat, op: Opcode, operands: seq<Token>, depth: nat)
    requires WellFormedOne(Simple(op, operands)) && CodeAt(h, p, [Op(op)] + operands)
    ensures SkipBody(h, p, depth) == SkipBody(h, p + 1 + |operands|, depth)
  {
    assert p + 1 + Arity(op) <= |h| && h[p] == Code(Op(op)) by {
      CodeAtBound(h, p, [Op(op)] + operands);
    }
    SkipPlain(h, p, op, depth);
  }

  /** The walk steps over a table opcode other than PUSH_FUNC and ENDF together with its operands. */
  lemma {:induction false} SkipPlain(h: Mem, p: nat, op: Opcode, depth: nat)
    requires InTable(op) && op != PushFunc && op != Endf
    requires p + 1 + Arity(op) <= |h| && h[p] == Code(Op(op))
    ensures SkipBody(h, p, depth) == SkipBody(h, p + 1 + Arity(op), depth)
  {
    assert SkipRow(h[p].tok) == Some(op);
  }

  /** PUSH_FUNC opens a level of nesting; an ENDF inside a nested body closes one. */
  lemma {:induction false} SkipBracket(h: Mem, p: nat, op: Opcode, depth: nat)
    requires op == PushFunc || (op == Endf && depth > 0)
    requires p < |h| && h[p] == Code(Op(op))
    ensures op == PushFunc ==> SkipBody(h, p, depth) == SkipBody(h, p + 1, depth + 1)
    ensures op == Endf ==> SkipBody(h, p, depth) == SkipBody(h, p + 1, depth - 1)
  {
  }

  /**
   * PUSH_FUNC over a well-formed body: the machine pushes the address just
   * after the opcode and resumes just after the matching ENDF, however deeply
   * the body nests further functions.
   */
  lemma {:induction false} PushFuncSkipsBody(vm: VM, body: seq<Instr>)
    requires WellFormed(body) && CodeAt(vm.heap, vm.ip, EncodeOne(Func(body)))
    ensures PushesAndJumps(vm, vm.ip + |EncodeOne(Func(body))|)
  {
    FuncSkipLands(vm.heap, vm.ip, body);
    StepPushFunc(vm, vm.ip + |EncodeOne(Func(body))|);
  }

  /** From a PUSH_FUNC over a well-formed body, the walk ends just past the matching ENDF. */
  lemma {:induction false} FuncSkipLands(h: Mem, p: nat, body: seq<Instr>)
    requires WellFormed(body) && CodeAt(h, p, EncodeOne(Func(body)))
    ensures p < |h| && h[p] == Code(Op(PushFunc))
    ensures SkipBody(h, p + 1, 0) == Success(p + |EncodeOne(Func(body))|)
  {
    FuncCodeAt(h, p, body);
    SkipOver(h, p + 1, body, 0);
    EndfLands(h, p + 1 + |Encode(body)|);
  }

  /**
   * With `code` where the instruction pointer is, one step pushes the
   * address just after its first token and resumes where `tail`, the last
   * part of `code`, begins.
   */
  predicate StepsOverTo(vm: VM, code: seq<Token>, tail: seq<Token>) {
    && |tail| <= |code|
    && (CodeAt(vm.heap, vm.ip, code) ==> PushesAndJumps(vm, vm.ip + |code| - |tail|))
  }

  /** A PUSH_FUNC step, given where the skip lands. */
  lemma {:induction false} StepPushFunc(vm: VM, target: nat)
    requires vm.ip < |vm.heap| && vm.heap[vm.ip] == Code(Op(PushFunc))
    requires SkipBody(vm.heap, vm.ip + 1, 0) == Success(target)
    ensures PushesAndJumps(vm, target)
  {
    var w := vm.(ip := vm.ip + 1);
    assert Step(vm) == Success(Running(vm.(stack := vm.stack + [vm.ip + 1], ip := target))) by {
      assert ExecPushFunc(w) == Success(vm.(stack := vm.stack + [vm.ip + 1], ip := target));
      ExecPushFuncRuns(w);
      StepAt(vm, PushFunc);
    }
    RunOnce(vm);
  }

  /** A run of one turn that does not stop ends where the step leaves the machine. */
  lemma {:induction false} RunOnce(vm: VM)
    requires Step(vm).Success? && Step(vm).value.Running?
    ensures Run(vm, 1) == Step(vm)
  {
    assert Run(vm, 1) == Continue(vm, 1);
  }

  /** An ENDF at depth zero ends the walk just past itself. */
  lemma {:induction false} EndfLands(h: Mem, e: nat)
    requires e < |h| && h[e] == Code(Op(Endf))
    ensures SkipBody(h, e, 0) == Success(e + 1)
  {
    assert SkipRow(h[e].tok) == Some(Endf);
  }

  // ---------------------------------------------------------------- single steps

  /** The machine at an opcode runs that opcode, past it. */
  lemma {:induction false} StepAt(vm: VM, op: Opcode)
    requires vm.ip < |vm.heap| && vm.heap[vm.ip] == Code(Op(op))
    ensures Step(vm) == Exec(op, vm.(ip := vm.ip + 1))
  {
  }

  /** A table instruction other than HALT that succeeds leaves the machine running in its new state. */
  lemma {:induction false} ExecRuns(op: Opcode, w: VM)
    requires InTable(op) && op != Halt && Next(op, w).Success?
    ensures Exec(op, w) == Success(Running(Next(op, w).value))
  {
  }

  lemma {:induction false} NextJumps(w: VM)
    ensures Next(Jump, w) == ExecJump(w)
    ensures Next(JumpIfFalse, w) == ExecJumpIfFalse(w)
  {
  }

  lemma {:induction false} NextPushes(op: Opcode, w: VM)
    requires op in {PushAtom, PushNum, PushStr}
    ensures Next(op, w) == ExecPushLiteral(op, w)
    ensures Next(PushFunc, w) == ExecPushFunc(w)
  {
  }

  lemma {:induction false} ExecPushFuncRuns(w: VM)
    ensures ExecPushFunc(w).Success? ==> Exec(PushFunc, w) == Success(Running(ExecPushFunc(w).value))
  {
    NextPushes(PushAtom, w);
    if ExecPushFunc(w).Success? {
      ExecRuns(PushFunc, w);
    }
  }

  /**
   * PUSH_ATOM, PUSH_NUM or PUSH_STR with a readable operand: one step
   * allocates a cell for the value, pushes its address and moves past the
   * operand.
   */
  lemma {:induction false} PushLiteralStep(vm: VM, op: Opcode, t: Token)
    requires op in {PushAtom, PushNum, PushStr}
    requires vm.ip + 1 < |vm.heap| && vm.heap[vm.ip] == Code(Op(op)) && vm.heap[vm.ip + 1] == Code(t)
    requires LiteralValue(op, t).Some?
    ensures var s := Step(vm);
            var a := Alloc(vm.heap);
            && s.Success? && s.value.Running?
            && s.value.vm.ip == vm.ip + 2 && s.value.vm.stack == vm.stack + [a]
            && a < |s.value.vm.heap| && s.value.vm.heap[a] == Val(LiteralValue(op, t).value)
  {
    var w := vm.(ip := vm.ip + 1);
    StepAt(vm, op);
    NextPushes(op, w);
    var r := ExecPushLiteral(op, w);
    assert r.Success?;
    ExecRuns(op, w);
    assert Step(vm) == Success(Running(r.value));
  }

  /** JUMP with an integer operand: one step moves the instruction pointer, nothing else. */
  lemma {:induction false} JumpStep(vm: VM, n: int, target: nat)
    requires vm.ip + 1 < |vm.heap| && vm.heap[vm.ip] == Code(Op(Jump)) && vm.heap[vm.ip + 1] == Code(Num(n))
    requires target == vm.ip + 1 + n
    ensures Step(vm) == Success(Running(vm.(ip := target)))
  {
    var w := vm.(ip := vm.ip + 1);
    StepAt(vm, Jump);
    JumpExec(w, n, target);
    assert w.(ip := target) == vm.(ip := target);
  }

  /** JUMP's handler, run with its integer operand at the instruction pointer. */
  lemma {:induction false} JumpExec(w: VM, n: int, target: nat)
    requires w.ip < |w.heap| && w.heap[w.ip] == Code(Num(n)) && target == w.ip + n
    ensures Exec(Jump, w) == Success(Running(w.(ip := target)))
  {
    NextJumps(w);
    assert ToI(w.heap[w.ip].tok) == Some(n);
    assert ExecJump(w) == Success(w.(ip := target));
    ExecRuns(Jump, w);
  }

  /**
   * JUMP_IF_FALSE with an integer operand: one step pops the condition and
   * jumps exactly when it is the #f singleton.
   */
  lemma {:induction false} JumpIfFalseStep(vm: VM, n: int)
    requires vm.ip + 1 < |vm.heap| && vm.heap[vm.ip] == Code(Op(JumpIfFalse)) && vm.heap[vm.ip + 1] == Code(Num(n))
    requires vm.ip + 1 + n >= 0
    ensures var s := Step(vm);
            var jumps := |vm.stack| > 0 && Last(vm.stack) == FalseAddress(vm).0;
            && s.Success? && s.value.Running?
            && s.value.vm.ip == (if jumps then vm.ip + 1 + n else vm.ip + 2)
            && s.value.vm.stack == (if |vm.stack| > 0 then DropLast(vm.stack) else vm.stack)
  {
    var w := vm.(ip := vm.ip + 1);
    var r := ExecJumpIfFalse(w);
    assert r.Success?
           && r.value.ip == (if |vm.stack| > 0 && Last(vm.stack) == FalseAddress(vm).0 then vm.ip + 1 + n else vm.ip + 2)
           && r.value.stack == (if |vm.stack| > 0 then DropLast(vm.stack) else vm.stack) by {
      assert ToI(w.heap[w.ip].tok) == Some(n);
      assert FalseAddress(w).0 == FalseAddress(vm).0;
    }
    assert Step(vm) == Success(Running(r.value)) by {
      StepAt(vm, JumpIfFalse);
      NextJumps(w);
      ExecRuns(JumpIfFalse, w);
    }
  }
}
